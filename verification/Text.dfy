/** The parts of Go's `strings` package the repository relies on, and the laws that make them invert each other. */
module Text {
  import opened Common

  /** strings.Split with a one-character separator. */
  function Split<T(==)>(s: seq<T>, sep: T): (parts: seq<seq<T>>)
    ensures |parts| >= 1
    ensures forall i | 0 <= i < |parts| :: sep !in parts[i]
  {
    if s == [] then [[]]
    else
      var rest := Split(s[1..], sep);
      if s[0] == sep then [[]] + rest else [[s[0]] + rest[0]] + rest[1..]
  }

  function Join<T>(parts: seq<seq<T>>, sep: T): seq<T> {
    if |parts| == 0 then []
    else if |parts| == 1 then parts[0]
    else parts[0] + [sep] + Join(parts[1..], sep)
  }

  /** Every part followed by the separator: the NDJSON shape. */
  function Terminate<T>(parts: seq<seq<T>>, sep: T): seq<T> {
    if parts == [] then [] else parts[0] + [sep] + Terminate(parts[1..], sep)
  }

  lemma {:induction false} SplitPlain<T>(p: seq<T>, sep: T)
    requires sep !in p
    ensures Split(p, sep) == [p]
  {
    if p != [] {
      SplitPlain(p[1..], sep);
      assert p == [p[0]] + p[1..];
    }
  }

  lemma {:induction false} SplitFirst<T>(p: seq<T>, t: seq<T>, sep: T)
    requires sep !in p
    ensures Split(p + [sep] + t, sep) == [p] + Split(t, sep)
  {
    var whole := p + [sep] + t;
    if p == [] {
      assert whole[1..] == t;
    } else {
      assert whole[1..] == p[1..] + [sep] + t;
      SplitFirst(p[1..], t, sep);
      assert [p[0]] + p[1..] == p;
      assert whole[0] == p[0] != sep;
    }
  }

  lemma {:induction false} SplitInvertsJoin<T>(parts: seq<seq<T>>, sep: T)
    requires parts != []
    requires forall i | 0 <= i < |parts| :: sep !in parts[i]
    ensures Split(Join(parts, sep), sep) == parts
  {
    if |parts| == 1 {
      SplitPlain(parts[0], sep);
    } else {
      SplitInvertsJoin(parts[1..], sep);
      SplitFirst(parts[0], Join(parts[1..], sep), sep);
    }
  }

  lemma {:induction false} SplitTerminated<T>(parts: seq<seq<T>>, sep: T)
    requires forall i | 0 <= i < |parts| :: sep !in parts[i]
    ensures Split(Terminate(parts, sep), sep) == parts + [[]]
  {
    if parts != [] {
      SplitTerminated(parts[1..], sep);
      SplitFirst(parts[0], Terminate(parts[1..], sep), sep);
      assert parts == [parts[0]] + parts[1..];
    }
  }

  /** strings.Cut with a one-character separator. */
  function Cut<T(==)>(s: seq<T>, sep: T): (r: Option<(seq<T>, seq<T>)>)
    ensures r.Some? ==> sep !in r.value.0 && s == r.value.0 + [sep] + r.value.1
    ensures r.None? <==> sep !in s
  {
    if s == [] then None
    else if s[0] == sep then Some(([], s[1..]))
    else
      match Cut(s[1..], sep)
      case None => None
      case Some(halves) => Some(([s[0]] + halves.0, halves.1))
  }

  lemma {:induction false} CutAtFirst<T>(a: seq<T>, b: seq<T>, sep: T)
    requires sep !in a
    ensures Cut(a + [sep] + b, sep) == Some((a, b))
  {
    var whole := a + [sep] + b;
    if a == [] {
      assert whole[1..] == b;
    } else {
      assert whole[1..] == a[1..] + [sep] + b;
      CutAtFirst(a[1..], b, sep);
      assert [a[0]] + a[1..] == a;
      assert whole[0] == a[0] != sep;
    }
  }

  /** unicode.IsSpace. */
  predicate IsSpace(c: char) {
    || c in "\t\n\r "
    || c == '\U{0B}' || c == '\U{0C}' || c == '\U{85}' || c == '\U{A0}' || c == '\U{1680}'
    || '\U{2000}' <= c <= '\U{200A}'
    || c == '\U{2028}' || c == '\U{2029}' || c == '\U{202F}' || c == '\U{205F}' || c == '\U{3000}'
  }

  /** The 25 characters of Unicode's White_Space property, one by one. */
  lemma SpacesAre(c: char)
    ensures IsSpace(c) <==>
              || c in "\t\n\U{0B}\U{0C}\r \U{85}\U{A0}\U{1680}"
              || c in "\U{2000}\U{2001}\U{2002}\U{2003}\U{2004}\U{2005}\U{2006}\U{2007}\U{2008}\U{2009}\U{200A}"
              || c in "\U{2028}\U{2029}\U{202F}\U{205F}\U{3000}"
  {
  }

  function TrimLeft(s: string): (r: string)
    ensures r != "" ==> !IsSpace(r[0])
  {
    if s != "" && IsSpace(s[0]) then TrimLeft(s[1..]) else s
  }

  function TrimRight(s: string): (r: string)
    ensures r <= s
    ensures r != "" ==> !IsSpace(r[|r| - 1])
  {
    if s != "" && IsSpace(s[|s| - 1]) then TrimRight(s[..|s| - 1]) else s
  }

  /** strings.TrimSpace. */
  function TrimSpace(s: string): (r: string)
    ensures r != "" ==> !IsSpace(r[0]) && !IsSpace(r[|r| - 1])
  {
    TrimRight(TrimLeft(s))
  }

  predicate AllSpace(s: string) {
    forall i | 0 <= i < |s| :: IsSpace(s[i])
  }

  lemma {:induction false} TrimLeftPadding(pad: string, core: string)
    requires AllSpace(pad)
    requires core != "" ==> !IsSpace(core[0])
    ensures TrimLeft(pad + core) == core
  {
    if pad == "" {
      assert pad + core == core;
    } else {
      assert (pad + core)[1..] == pad[1..] + core;
      TrimLeftPadding(pad[1..], core);
    }
  }

  lemma {:induction false} TrimRightPadding(core: string, pad: string)
    requires AllSpace(pad)
    requires core != "" ==> !IsSpace(core[|core| - 1])
    ensures TrimRight(core + pad) == core
  {
    if pad == "" {
      assert core + pad == core;
    } else {
      var whole := core + pad;
      assert whole[|whole| - 1] == pad[|pad| - 1];
      assert whole[..|whole| - 1] == core + pad[..|pad| - 1];
      TrimRightPadding(core, pad[..|pad| - 1]);
    }
  }

  /** Whitespace around a core that neither starts nor ends with whitespace is exactly what TrimSpace removes. */
  lemma TrimSpacePadding(left: string, core: string, right: string)
    requires AllSpace(left) && AllSpace(right)
    requires core != "" && !IsSpace(core[0]) && !IsSpace(core[|core| - 1])
    ensures TrimSpace(left + core + right) == core
  {
    assert left + core + right == left + (core + right);
    TrimLeftPadding(left, core + right);
    TrimRightPadding(core, right);
  }
}
