/** Release directory names: fixed-width UTC time stamps, so that sorting names sorts releases by time. */
module ReleaseNames {

  // ---------------------------------------------------------------- string order

  /** Go's string comparison. */
  predicate Less(a: string, b: string) {
    b != "" && (a == "" || a[0] < b[0] || (a[0] == b[0] && Less(a[1..], b[1..])))
  }

  lemma {:induction false} LessIrreflexive(a: string)
    ensures !Less(a, a)
  {
    if a != "" {
      LessIrreflexive(a[1..]);
    }
  }

  lemma {:induction false} LessTransitive(a: string, b: string, c: string)
    requires Less(a, b) && Less(b, c)
    ensures Less(a, c)
  {
    if a != "" && a[0] == b[0] == c[0] {
      LessTransitive(a[1..], b[1..], c[1..]);
    }
  }

  lemma {:induction false} LessTotal(a: string, b: string)
    ensures a == b || Less(a, b) || Less(b, a)
  {
    if a != "" && b != "" && a[0] == b[0] {
      LessTotal(a[1..], b[1..]);
      if a[1..] == b[1..] {
        assert a == [a[0]] + a[1..] && b == [b[0]] + b[1..];
      }
    }
  }

  lemma {:induction false} LessAfterPrefix(p: string, a: string, b: string)
    ensures Less(p + a, p + b) <==> Less(a, b)
  {
    if p == "" {
      assert p + a == a && p + b == b;
    } else {
      assert (p + a)[1..] == p[1..] + a && (p + b)[1..] == p[1..] + b;
      LessAfterPrefix(p[1..], a, b);
    }
  }

  /** For texts of one width the first difference decides, whatever follows. */
  lemma {:induction false} LessSameWidth(a: string, b: string, x: string, y: string)
    requires |a| == |b| && Less(a, b)
    ensures Less(a + x, b + y)
  {
    assert (a + x)[0] == a[0] && (b + y)[0] == b[0];
    if a[0] == b[0] {
      assert (a + x)[1..] == a[1..] + x && (b + y)[1..] == b[1..] + y;
      LessSameWidth(a[1..], b[1..], x, y);
    }
  }

  // ---------------------------------------------------------------- fixed-width numbers

  function Pow10(w: nat): nat {
    if w == 0 then 1 else 10 * Pow10(w - 1)
  }

  /** The last w decimal digits of n. */
  function Pad(n: nat, w: nat): (s: string)
    ensures |s| == w
  {
    if w == 0 then "" else Pad(n / 10, w - 1) + ['0' + (n % 10) as char]
  }

  lemma {:induction false} PadOrders(m: nat, n: nat, w: nat)
    requires m < n < Pow10(w)
    ensures Less(Pad(m, w), Pad(n, w))
  {
    if w > 0 {
      var p, q := Pad(m / 10, w - 1), Pad(n / 10, w - 1);
      var x, y := ['0' + (m % 10) as char], ['0' + (n % 10) as char];
      if m / 10 < n / 10 {
        PadOrders(m / 10, n / 10, w - 1);
        LessSameWidth(p, q, x, y);
      } else {
        assert Less(x, y);
        LessAfterPrefix(p, x, y);
      }
    }
  }

  // ---------------------------------------------------------------- time stamps

  /** A UTC civil time, read to the nanosecond. */
  datatype Stamp = Stamp(year: nat, month: nat, day: nat, hour: nat, minute: nat, second: nat, nanos: nat)

  /** One printed field: its value, its width and the literal text after it. */
  datatype Field = Field(value: nat, width: nat, after: string)

  function Fields(t: Stamp): seq<Field> {
    [Field(t.year, 4, ""), Field(t.month, 2, ""), Field(t.day, 2, "T"),
     Field(t.hour, 2, ""), Field(t.minute, 2, ""), Field(t.second, 2, "."), Field(t.nanos, 9, "Z")]
  }

  /** Every field fits its width: in particular the year has at most four digits. */
  predicate Fits(fields: seq<Field>) {
    forall i | 0 <= i < |fields| :: fields[i].value < Pow10(fields[i].width)
  }

  /** A stamp whose parts have at most the digits the layout gives them. */
  predicate Printable(t: Stamp) {
    && t.year < 10_000 && t.month < 100 && t.day < 100
    && t.hour < 100 && t.minute < 100 && t.second < 100 && t.nanos < 1_000_000_000
  }

  lemma PrintableFits(t: Stamp)
    requires Printable(t)
    ensures Fits(Fields(t))
  {
    assert Pow10(2) == 100 && Pow10(4) == 100 * Pow10(2);
    assert Pow10(9) == 1000 * Pow10(6) && Pow10(6) == 100 * Pow10(4);
  }

  predicate SameShape(f: seq<Field>, g: seq<Field>) {
    |f| == |g| && forall i | 0 <= i < |f| :: f[i].width == g[i].width && f[i].after == g[i].after
  }

  predicate EarlierFields(f: seq<Field>, g: seq<Field>)
    requires |f| == |g|
  {
    f != [] && (f[0].value < g[0].value || (f[0].value == g[0].value && EarlierFields(f[1..], g[1..])))
  }

  predicate EarlierInTheDay(t: Stamp, u: Stamp) {
    if t.hour != u.hour then t.hour < u.hour
    else if t.minute != u.minute then t.minute < u.minute
    else if t.second != u.second then t.second < u.second
    else t.nanos < u.nanos
  }

  /** Time order. */
  predicate Before(t: Stamp, u: Stamp) {
    if t.year != u.year then t.year < u.year
    else if t.month != u.month then t.month < u.month
    else if t.day != u.day then t.day < u.day
    else EarlierInTheDay(t, u)
  }

  lemma EarlierFrom(f: seq<Field>, g: seq<Field>, i: nat)
    requires |f| == |g| && i < |f|
    ensures EarlierFields(f[i..], g[i..]) <==>
              f[i].value < g[i].value || (f[i].value == g[i].value && EarlierFields(f[i + 1..], g[i + 1..]))
  {
    assert f[i..][1..] == f[i + 1..] && g[i..][1..] == g[i + 1..];
  }

  lemma TimeFieldsFollowTime(t: Stamp, u: Stamp)
    ensures EarlierFields(Fields(t)[3..], Fields(u)[3..]) <==> EarlierInTheDay(t, u)
  {
    var f, g := Fields(t), Fields(u);
    EarlierFrom(f, g, 3);
    EarlierFrom(f, g, 4);
    EarlierFrom(f, g, 5);
    EarlierFrom(f, g, 6);
    assert !EarlierFields(f[7..], g[7..]);
  }

  /** The printed fields stand in the order that decides which time is earlier. */
  lemma FieldsFollowTime(t: Stamp, u: Stamp)
    ensures EarlierFields(Fields(t), Fields(u)) <==> Before(t, u)
  {
    var f, g := Fields(t), Fields(u);
    assert f[0..] == f && g[0..] == g;
    EarlierFrom(f, g, 0);
    EarlierFrom(f, g, 1);
    EarlierFrom(f, g, 2);
    TimeFieldsFollowTime(t, u);
  }

  /** time.Format("20060102T150405.000000000Z"). */
  function Render(fields: seq<Field>): string {
    if fields == [] then "" else Pad(fields[0].value, fields[0].width) + fields[0].after + Render(fields[1..])
  }

  function ReleaseName(t: Stamp, suffix: string): string {
    "release-" + (Render(Fields(t)) + ("-" + suffix))
  }

  function StagingName(suffix: string): string {
    ".staging-" + suffix
  }

  predicate IsRelease(name: string) {
    "release-" <= name
  }

  lemma Regroup(a: string, b: string, c: string, d: string)
    ensures a + b + c + d == a + (b + (c + d))
  {
  }

  /** A rendering, with a tail, split after its first number. */
  lemma RenderSplits(f: seq<Field>, x: string)
    requires f != []
    ensures Render(f) + x == Pad(f[0].value, f[0].width) + (f[0].after + (Render(f[1..]) + x))
  {
    Regroup(Pad(f[0].value, f[0].width), f[0].after, Render(f[1..]), x);
  }

  /** The number that decimal digits spell. */
  function Spelled(digits: string): nat {
    if digits == "" then 0
    else
      var last := digits[|digits| - 1];
      10 * Spelled(digits[..|digits| - 1]) + if '0' <= last <= '9' then (last - '0') as nat else 0
  }

  lemma {:induction false} PadSpells(n: nat, w: nat)
    requires n < Pow10(w)
    ensures Spelled(Pad(n, w)) == n
  {
    if w > 0 {
      assert Pad(n, w)[..w - 1] == Pad(n / 10, w - 1);
      PadSpells(n / 10, w - 1);
    }
  }

  lemma SplitsInThree(s: string, i: nat, a: string, b: string, c: string)
    requires i <= |s| && s[i..] == a + (b + c)
    ensures var j := i + |a|;
      j + |b| <= |s| && s[i..j] == a && s[j..j + |b|] == b && s[j + |b|..] == c
  {
    var j := i + |a|;
    assert s[i..j] == s[i..][..|a|] && s[j..j + |b|] == s[i..][|a|..|a| + |b|];
    assert s[j + |b|..] == s[i..][|a| + |b|..];
  }

  /** Where a rendering begins, its first field can be read, and what follows it is the rest. */
  lemma FieldReadsBack(s: string, i: nat, field: Field, more: string)
    requires i <= |s| && s[i..] == Pad(field.value, field.width) + (field.after + more)
    requires field.value < Pow10(field.width)
    ensures var j := i + field.width;
      && j + |field.after| <= |s| && Spelled(s[i..j]) == field.value
      && s[j..j + |field.after|] == field.after && s[j + |field.after|..] == more
  {
    SplitsInThree(s, i, Pad(field.value, field.width), field.after, more);
    PadSpells(field.value, field.width);
  }

  /** The same for field k of a rendering, in front of the fields after it. */
  lemma NextReadsBack(s: string, i: nat, f: seq<Field>, k: nat, tail: string)
    requires k < |f| && Fits(f) && i <= |s| && s[i..] == Render(f[k..]) + tail
    ensures var j := i + f[k].width;
      && j + |f[k].after| <= |s| && Spelled(s[i..j]) == f[k].value
      && s[j..j + |f[k].after|] == f[k].after && s[j + |f[k].after|..] == Render(f[k + 1..]) + tail
  {
    RenderSplits(f[k..], tail);
    assert f[k..][0] == f[k] && f[k..][1..] == f[k + 1..];
    FieldReadsBack(s, i, f[k], Render(f[k + 1..]) + tail);
  }

  lemma DateReadsBack(s: string, t: Stamp, tail: string)
    requires Fits(Fields(t)) && 8 <= |s| && s[8..] == Render(Fields(t)[0..]) + tail
    ensures |s| >= 17 && s[17..] == Render(Fields(t)[3..]) + tail && s[16] == 'T'
    ensures Spelled(s[8..12]) == t.year && Spelled(s[12..14]) == t.month && Spelled(s[14..16]) == t.day
  {
    NextReadsBack(s, 8, Fields(t), 0, tail);
    NextReadsBack(s, 12, Fields(t), 1, tail);
    NextReadsBack(s, 14, Fields(t), 2, tail);
    assert s[16] == s[16..17][0];
  }

  lemma TimeReadsBack(s: string, t: Stamp, tail: string)
    requires Fits(Fields(t)) && 17 <= |s| && s[17..] == Render(Fields(t)[3..]) + tail
    ensures |s| >= 34 && s[34..] == tail && s[23] == '.' && s[33] == 'Z'
    ensures Spelled(s[17..19]) == t.hour && Spelled(s[19..21]) == t.minute && Spelled(s[21..23]) == t.second
    ensures Spelled(s[24..33]) == t.nanos
  {
    NextReadsBack(s, 17, Fields(t), 3, tail);
    NextReadsBack(s, 19, Fields(t), 4, tail);
    NextReadsBack(s, 21, Fields(t), 5, tail);
    NextReadsBack(s, 24, Fields(t), 6, tail);
    assert s[23] == s[23..24][0] && s[33] == s[33..34][0];
  }

  /** A release name can be read back: the date and time of its stamp, to the nanosecond, and the random suffix. */
  lemma NameTellsTheTime(t: Stamp, suffix: string)
    requires Printable(t)
    ensures var name := ReleaseName(t, suffix);
      && |name| == 35 + |suffix| && name[..8] == "release-" && name[34..] == "-" + suffix
      && Spelled(name[8..12]) == t.year && Spelled(name[12..14]) == t.month && Spelled(name[14..16]) == t.day
      && name[16] == 'T'
      && Spelled(name[17..19]) == t.hour && Spelled(name[19..21]) == t.minute && Spelled(name[21..23]) == t.second
      && name[23] == '.' && Spelled(name[24..33]) == t.nanos && name[33] == 'Z'
  {
    var name := ReleaseName(t, suffix);
    PrintableFits(t);
    assert Fields(t)[0..] == Fields(t);
    DateReadsBack(name, t, "-" + suffix);
    TimeReadsBack(name, t, "-" + suffix);
  }

  lemma {:induction false} RenderOrders(f: seq<Field>, g: seq<Field>, x: string, y: string)
    requires SameShape(f, g) && Fits(f) && Fits(g) && EarlierFields(f, g)
    ensures Less(Render(f) + x, Render(g) + y)
  {
    var p, q := Pad(f[0].value, f[0].width), Pad(g[0].value, g[0].width);
    var tailF, tailG := Render(f[1..]) + x, Render(g[1..]) + y;
    RenderSplits(f, x);
    RenderSplits(g, y);
    if f[0].value < g[0].value {
      PadOrders(f[0].value, g[0].value, f[0].width);
      LessSameWidth(p, q, f[0].after + tailF, g[0].after + tailG);
    } else {
      RenderOrders(f[1..], g[1..], x, y);
      LessAfterPrefix(f[0].after, tailF, tailG);
      LessAfterPrefix(p, f[0].after + tailF, f[0].after + tailG);
    }
  }

  lemma {:induction false} EarlierTotal(f: seq<Field>, g: seq<Field>)
    requires SameShape(f, g)
    ensures f == g || EarlierFields(f, g) || EarlierFields(g, f)
  {
    if f != [] {
      EarlierTotal(f[1..], g[1..]);
      if f[0] == g[0] && f[1..] == g[1..] {
        assert f == [f[0]] + f[1..] && g == [g[0]] + g[1..];
      }
    }
  }

  lemma NamesOrder(t: Stamp, x: string, u: Stamp, y: string)
    requires Printable(t) && Printable(u) && Before(t, u)
    ensures Less(ReleaseName(t, x), ReleaseName(u, y))
  {
    PrintableFits(t);
    PrintableFits(u);
    FieldsFollowTime(t, u);
    RenderOrders(Fields(t), Fields(u), "-" + x, "-" + y);
    LessAfterPrefix("release-", Render(Fields(t)) + ("-" + x), Render(Fields(u)) + ("-" + y));
  }

  /** Names sort exactly as their stamps do; the random suffix decides only between equal stamps. */
  lemma NamesOrderIff(t: Stamp, x: string, u: Stamp, y: string)
    requires Printable(t) && Printable(u)
    ensures Less(ReleaseName(t, x), ReleaseName(u, y)) <==> Before(t, u) || (t == u && Less(x, y))
  {
    EarlierTotal(Fields(t), Fields(u));
    FieldsFollowTime(t, u);
    FieldsFollowTime(u, t);
    if Fields(t) == Fields(u) {
      SameFieldsSameStamp(t, u);
      LessIrreflexive(Render(Fields(t)));
      LessAfterPrefix("-", x, y);
      LessAfterPrefix(Render(Fields(t)), "-" + x, "-" + y);
      LessAfterPrefix("release-", Render(Fields(t)) + ("-" + x), Render(Fields(t)) + ("-" + y));
    } else if Before(t, u) {
      NamesOrder(t, x, u, y);
    } else {
      NamesOrder(u, y, t, x);
      NotBoth(ReleaseName(t, x), ReleaseName(u, y));
      if t == u {
        assert false;
      }
    }
  }

  lemma SameFieldsSameStamp(t: Stamp, u: Stamp)
    requires Fields(t) == Fields(u)
    ensures t == u
  {
    assert Fields(t)[0] == Fields(u)[0] && Fields(t)[1] == Fields(u)[1] && Fields(t)[2] == Fields(u)[2];
    assert Fields(t)[3] == Fields(u)[3] && Fields(t)[4] == Fields(u)[4] && Fields(t)[5] == Fields(u)[5];
    assert Fields(t)[6] == Fields(u)[6];
  }

  lemma NotBoth(a: string, b: string)
    ensures !(Less(a, b) && Less(b, a))
  {
    if Less(a, b) && Less(b, a) {
      LessTransitive(a, b, a);
      LessIrreflexive(a);
    }
  }

  // ---------------------------------------------------------------- newest first

  /** sort.Reverse over distinct names. */
  predicate Descending(names: seq<string>) {
    forall i, j | 0 <= i < j < |names| :: Less(names[j], names[i])
  }

  ghost predicate Enumerates(names: seq<string>, s: set<string>) {
    Descending(names) && (forall i | 0 <= i < |names| :: names[i] in s) && (forall n | n in s :: n in names)
  }

  /** The names that sort above one. */
  function Above(s: set<string>, n: string): set<string> {
    set m | m in s && Less(n, m)
  }

  lemma {:induction false} DistinctCount(names: seq<string>)
    requires Descending(names)
    ensures |set m | m in names| == |names|
  {
    if names != [] {
      var front, last := names[..|names| - 1], names[|names| - 1];
      DistinctCount(front);
      if last in front {
        LessIrreflexive(last);
      }
      assert (set m | m in names) == (set m | m in front) + {last};
    }
  }

  /** In the sorted list a name's position is the number of names above it. */
  lemma RankIsCount(names: seq<string>, s: set<string>, i: nat)
    requires Enumerates(names, s) && i < |names|
    ensures |Above(s, names[i])| == i
  {
    var higher := names[..i];
    forall m | m in s && Less(names[i], m) ensures m in higher {
      var j :| 0 <= j < |names| && names[j] == m;
      if j > i {
        NotBoth(names[i], names[j]);
      } else if j == i {
        LessIrreflexive(m);
      } else {
        assert higher[j] == m;
      }
    }
    assert Above(s, names[i]) == set m | m in higher;
    DistinctCount(higher);
  }

  /** Retention as a property of names alone: fewer than `keep` names sort above. */
  predicate Retained(s: set<string>, keep: nat, n: string) {
    |Above(s, n)| < keep
  }

  /** What follows the first `keep` names of the sorted list is exactly what is not retained. */
  lemma TailIsNotRetained(names: seq<string>, s: set<string>, keep: nat, n: string)
    requires Enumerates(names, s) && n in s
    ensures Retained(s, keep, n) <==> !(keep <= |names| && n in names[keep..])
  {
    var i :| 0 <= i < |names| && names[i] == n;
    RankIsCount(names, s, i);
    if keep <= |names| && n in names[keep..] {
      var j :| 0 <= j < |names[keep..]| && names[keep..][j] == n;
      if keep + j != i {
        LessIrreflexive(n);
      }
    }
    if !Retained(s, keep, n) {
      assert names[keep..][i - keep] == n;
    }
  }

  /** A name later than all others is retained by any positive retention. */
  lemma NewestIsRetained(s: set<string>, keep: nat, n: string)
    requires keep > 0 && forall m | m in s && m != n :: Less(m, n)
    ensures Retained(s, keep, n)
  {
    forall m | m in s ensures !Less(n, m) {
      LessIrreflexive(n);
      NotBoth(n, m);
    }
    assert Above(s, n) == {};
  }

  /** The name carries a later stamp than a release, or the same stamp and a greater suffix. */
  ghost predicate SortsLater(n: string, t: Stamp, suffix: string) {
    exists u, y :: Printable(u) && n == ReleaseName(u, y) && (Before(t, u) || (t == u && Less(suffix, y)))
  }

  /** In terms of the clock: a release is retained exactly when fewer than `keep` of the others are later. */
  lemma RetainedIffFewLater(others: set<string>, keep: nat, t: Stamp, suffix: string)
    requires Printable(t)
    requires forall n | n in others :: exists u, y :: Printable(u) && n == ReleaseName(u, y)
    ensures var release := ReleaseName(t, suffix);
      Retained(others + {release}, keep, release) <==> |set n | n in others && SortsLater(n, t, suffix)| < keep
  {
    var release := ReleaseName(t, suffix);
    LessIrreflexive(release);
    forall n | n in others ensures Less(release, n) <==> SortsLater(n, t, suffix) {
      var u, y :| Printable(u) && n == ReleaseName(u, y);
      NamesOrderIff(t, suffix, u, y);
      if SortsLater(n, t, suffix) {
        var v, z :| Printable(v) && n == ReleaseName(v, z) && (Before(t, v) || (t == v && Less(suffix, z)));
        NamesOrderIff(t, suffix, v, z);
      }
    }
    assert Above(others + {release}, release) == set n | n in others && SortsLater(n, t, suffix);
  }

  /** So when `keep` releases carry later stamps, as after the clock was set back, a new release is not retained. */
  lemma ClockSetBackDropsTheNewRelease(s: set<string>, later: set<string>, keep: nat, t: Stamp, suffix: string)
    requires Printable(t) && later <= s && |later| >= keep
    requires forall n | n in later :: exists u, x :: Printable(u) && Before(t, u) && n == ReleaseName(u, x)
    ensures !Retained(s, keep, ReleaseName(t, suffix))
  {
    var n := ReleaseName(t, suffix);
    forall m | m in later ensures m in Above(s, n) {
      var u, x :| Printable(u) && Before(t, u) && m == ReleaseName(u, x);
      NamesOrder(t, suffix, u, x);
    }
    SubsetSize(later, Above(s, n));
  }

  lemma {:induction false} SubsetSize(a: set<string>, b: set<string>)
    requires a <= b
    ensures |a| <= |b|
  {
    if a != {} {
      var x :| x in a;
      SubsetSize(a - {x}, b - {x});
    }
  }
}
