/** The lifetime that internal/accessauth/access.go takes from a Cache-Control header (section 5.2 of RFC 9111). */
module CacheControl {
  import opened Common
  import opened Text

  const MAX_INT := 0x7fff_ffff_ffff_ffff
  const LONGEST := 6 * 60 * 60
  const DEFAULT_LIFETIME := 60 * 60
  const MAX_AGE := "max-age="

  // ---------------------------------------------------------------- decimal numbers

  predicate IsDigit(c: char) {
    '0' <= c <= '9'
  }

  predicate AllDigits(s: string) {
    forall i | 0 <= i < |s| :: IsDigit(s[i])
  }

  function Decimal(n: nat): (s: string)
    ensures s != "" && AllDigits(s)
  {
    var last := ['0' + (n % 10) as char];
    if n < 10 then last else Decimal(n / 10) + last
  }

  function Value(s: string): nat
    requires AllDigits(s)
  {
    if s == "" then 0 else 10 * Value(s[..|s| - 1]) + (s[|s| - 1] - '0') as int
  }

  /** strconv.Atoi with a 64-bit int: an optional sign, at least one digit, and an error when out of range. */
  function Atoi(s: string): Option<int> {
    var signed := s != "" && (s[0] == '+' || s[0] == '-');
    var digits := if signed then s[1..] else s;
    if digits == "" || !AllDigits(digits) then None
    else
      var value: int := if signed && s[0] == '-' then 0 - Value(digits) else Value(digits);
      if -MAX_INT - 1 <= value <= MAX_INT then Some(value) else None
  }

  lemma {:induction false} ValueOfDecimal(n: nat)
    ensures Value(Decimal(n)) == n
  {
    var s := Decimal(n);
    if n >= 10 {
      ValueOfDecimal(n / 10);
      assert s[..|s| - 1] == Decimal(n / 10);
    } else {
      assert s[..|s| - 1] == "";
    }
    assert s[|s| - 1] == '0' + (n % 10) as char;
  }

  lemma AtoiReadsDecimal(n: nat)
    ensures Atoi(Decimal(n)) == if n < 0x8000_0000_0000_0000 then Some(n) else None
  {
    ValueOfDecimal(n);
    assert IsDigit(Decimal(n)[0]);
  }

  /** A sign is read too, one more negative number fits than positive ones, and nothing else is a number. */
  lemma AtoiReadsSigns(n: nat)
    ensures Atoi("+" + Decimal(n)) == Atoi(Decimal(n))
    ensures Atoi("-" + Decimal(n)) == if n <= 0x8000_0000_0000_0000 then Some(0 - n as int) else None
  {
    AtoiReadsDecimal(n);
    ValueOfDecimal(n);
    assert ("+" + Decimal(n))[1..] == Decimal(n) && ("-" + Decimal(n))[1..] == Decimal(n);
  }

  lemma AtoiRefuses(s: string)
    requires
      || s == "" || s == "+" || s == "-"
      || exists i :: 0 <= i < |s| && !IsDigit(s[i]) && (i == 0 ==> s[0] != '+' && s[0] != '-')
    ensures Atoi(s) == None
  {
    if i :| 0 <= i < |s| && !IsDigit(s[i]) && (i == 0 ==> s[0] != '+' && s[0] != '-') {
      assert i > 0 ==> s[1..][i - 1] == s[i];
    }
  }

  // ---------------------------------------------------------------- directives

  /** What one comma-separated part asks for, if it asks for anything. */
  function MaxAge(part: string): Option<nat> {
    var directive := TrimSpace(part);
    if !(MAX_AGE <= directive) then None
    else
      var seconds := Atoi(directive[|MAX_AGE|..]);
      if seconds.Some? && seconds.value > 0 then Some(seconds.value) else None
  }

  function Min(a: nat, b: nat): nat {
    if a < b then a else b
  }

  /** The first part that asks for a lifetime decides; without one it is an hour. */
  function LifetimeOf(parts: seq<string>): (seconds: nat)
    ensures 1 <= seconds <= LONGEST
  {
    if parts == [] then DEFAULT_LIFETIME
    else if MaxAge(parts[0]).Some? then Min(MaxAge(parts[0]).value, LONGEST)
    else LifetimeOf(parts[1..])
  }

  function Lifetime(header: string): (seconds: nat)
    ensures 1 <= seconds <= LONGEST
  {
    LifetimeOf(Split(header, ','))
  }

  lemma {:induction false} SilentPartsPassOver(before: seq<string>, rest: seq<string>)
    requires forall i | 0 <= i < |before| :: MaxAge(before[i]).None?
    ensures LifetimeOf(before + rest) == LifetimeOf(rest)
  {
    if before == [] {
      assert before + rest == rest;
    } else {
      assert (before + rest)[1..] == before[1..] + rest;
      SilentPartsPassOver(before[1..], rest);
    }
  }

  lemma PartDecides(before: seq<string>, part: string, after: seq<string>)
    requires forall i | 0 <= i < |before| :: MaxAge(before[i]).None?
    ensures LifetimeOf(before + [part] + after)
         == if MaxAge(part).Some? then Min(MaxAge(part).value, LONGEST) else LifetimeOf(after)
  {
    assert before + [part] + after == before + ([part] + after);
    SilentPartsPassOver(before, [part] + after);
    assert ([part] + after)[1..] == after;
  }

  method CacheTTL(header: string) returns (seconds: nat)
    ensures seconds == Lifetime(header)
    ensures 1 <= seconds <= 21_600
    ensures (forall part | part in Split(header, ',') :: MaxAge(part).None?) ==> seconds == 3_600
  {
    var parts := Split(header, ',');
    var i := 0;
    while i < |parts|
      invariant 0 <= i <= |parts|
      invariant forall k | 0 <= k < i :: MaxAge(parts[k]).None?
      invariant LifetimeOf(parts) == LifetimeOf(parts[i..])
    {
      var directive := TrimSpace(parts[i]);
      if MAX_AGE <= directive {
        var age := Atoi(directive[|MAX_AGE|..]);
        if age.Some? && age.value > 0 {
          seconds := age.value;
          if seconds > LONGEST {
            seconds := LONGEST;
          }
          return seconds;
        }
      }
      assert parts[i..][1..] == parts[i + 1..];
      i := i + 1;
    }
    return DEFAULT_LIFETIME;
  }

  lemma DirectiveIsRead(left: string, n: nat, right: string)
    requires AllSpace(left) && AllSpace(right)
    ensures ',' !in left + (MAX_AGE + Decimal(n)) + right
    ensures MaxAge(left + (MAX_AGE + Decimal(n)) + right) == if 0 < n <= MAX_INT then Some(n) else None
  {
    var core := MAX_AGE + Decimal(n);
    assert core[|core| - 1] == Decimal(n)[|Decimal(n)| - 1];
    assert core[0] == 'm' && IsDigit(core[|core| - 1]);
    TrimSpacePadding(left, core, right);
    assert core[|MAX_AGE|..] == Decimal(n);
    AtoiReadsDecimal(n);
    assert ',' !in MAX_AGE;
    assert ',' !in Decimal(n);
  }

  /**
   * A header with `max-age=n`, however padded, after parts that ask for nothing: the lifetime is n seconds,
   * six hours at most. An age of zero or one too large for an int is passed over as if it were not there.
   */
  lemma HeaderChoosesLifetime(before: seq<string>, left: string, n: nat, right: string, after: seq<string>)
    requires forall i | 0 <= i < |before| :: ',' !in before[i] && MaxAge(before[i]).None?
    requires forall i | 0 <= i < |after| :: ',' !in after[i]
    requires AllSpace(left) && AllSpace(right)
    ensures Lifetime(Join(before + [left + ("max-age=" + Decimal(n)) + right] + after, ','))
         == if 0 < n < 0x8000_0000_0000_0000 then (if n < 21_600 then n else 21_600) else LifetimeOf(after)
  {
    var part := left + (MAX_AGE + Decimal(n)) + right;
    DirectiveIsRead(left, n, right);
    SplitInvertsJoin(before + [part] + after, ',');
    PartDecides(before, part, after);
  }
}
