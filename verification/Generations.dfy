/**
 * The City/ASN reader of internal/maxmindgeo/maxmind.go against a file system whose `current` link may flip between any
 * two of its operations.
 */
module Generations {
  import opened Common

  // ---------------------------------------------------------------- the file system over time

  datatype Path = Path(dir: string, base: string)

  datatype Stat = Stat(size: int, modTime: Instant)

  /** One moment of the file system: where `current` points, and which files exist. */
  datatype View = View(target: Option<string>, files: map<Path, Stat>)

  /** The file system at every tick. */
  type World = nat -> View

  /** A configured path: a file name in the linked directory or in a fixed one. */
  datatype Place = CurrentLink | Fixed(dir: string)

  datatype LogicalPath = LogicalPath(place: Place, base: string)

  /** filepath.EvalSymlinks at one moment. */
  function Resolve(v: View, p: LogicalPath): Option<Path> {
    var dir := match p.place case Fixed(d) => Some(d) case CurrentLink => v.target;
    if dir.Some? && Path(dir.value, p.base) in v.files then Some(Path(dir.value, p.base)) else None
  }

  /** Ticks at which successive file operations happen; time does not run backwards. */
  type Schedule = nat -> nat

  ghost predicate Forward(at: Schedule) {
    forall i, j | i <= j :: at(i) <= at(j)
  }

  // ---------------------------------------------------------------- stamps and snapshots

  datatype FileStamp = FileStamp(path: Path, modTime: Instant, size: int)

  /** fileStamp.changed. */
  predicate Changed(s: FileStamp, previous: FileStamp) {
    s.size > 0 && (s.path != previous.path || s.size != previous.size || s.modTime != previous.modTime)
  }

  /** stampFile: the path is resolved at one tick and inspected at a later one. */
  function StampFile(w: World, p: LogicalPath, resolveAt: nat, statAt: nat): (r: Option<FileStamp>)
    ensures r.Some? ==>
      r.value.size > 0 && r.value.path.base == p.base && Resolve(w(resolveAt), p) == Some(r.value.path)
  {
    match Resolve(w(resolveAt), p)
    case None => None
    case Some(path) =>
      if path in w(statAt).files && w(statAt).files[path].size > 0
      then Some(FileStamp(path, w(statAt).files[path].modTime, w(statAt).files[path].size))
      else None
  }

  /** A file is stamped if and only if it is found where it is resolved and, non-empty, where it is inspected. */
  lemma StampFileIff(w: World, p: LogicalPath, resolveAt: nat, statAt: nat)
    ensures var stamp := StampFile(w, p, resolveAt, statAt);
      var dir := if p.place.Fixed? then Some(p.place.dir) else w(resolveAt).target;
      && (stamp.Some? <==>
            && dir.Some? && Path(dir.value, p.base) in w(resolveAt).files
            && Path(dir.value, p.base) in w(statAt).files && w(statAt).files[Path(dir.value, p.base)].size > 0)
      && (stamp.Some? ==>
            var file := w(statAt).files[Path(dir.value, p.base)];
            stamp.value == FileStamp(Path(dir.value, p.base), file.modTime, file.size))
  {
  }

  datatype SnapshotError = NoCity | NoASN | Incoherent

  datatype Pair = Pair(city: FileStamp, asn: FileStamp)

  const ATTEMPTS := 4

  /** Attempt k performs file operations 4k to 4k + 3; Incoherent means that it has to be repeated. */
  function Attempt(w: World, at: Schedule, city: LogicalPath, asn: LogicalPath, k: nat): Result<Pair, SnapshotError> {
    match StampFile(w, city, at(4 * k), at(4 * k + 1))
    case None => Err(NoCity)
    case Some(c) =>
      match StampFile(w, asn, at(4 * k + 2), at(4 * k + 3))
      case None => Err(NoASN)
      case Some(a) => if city.place != asn.place || c.path.dir == a.path.dir then Ok(Pair(c, a)) else Err(Incoherent)
  }

  /** What the attempts from number k on yield. */
  function SnapshotFrom(
      w: World, at: Schedule, city: LogicalPath, asn: LogicalPath, k: nat): Result<Pair, SnapshotError>
    decreases ATTEMPTS - k
  {
    if k >= ATTEMPTS then Err(Incoherent)
    else
      var result := Attempt(w, at, city, asn, k);
      if result == Err(Incoherent) then SnapshotFrom(w, at, city, asn, k + 1) else result
  }

  /** One turn of the retry loop; None means that the pair has to be looked at again. */
  method TryOnce(w: World, at: Schedule, city: LogicalPath, asn: LogicalPath, attempt: nat, sameLogicalDir: bool)
    returns (r: Option<Result<Pair, SnapshotError>>)
    requires sameLogicalDir <==> city.place == asn.place
    ensures Attempt(w, at, city, asn, attempt) == if r.Some? then r.value else Err(Incoherent)
    ensures r != Some(Err(Incoherent))
  {
    var c := StampFile(w, city, at(4 * attempt), at(4 * attempt + 1));
    if c.None? {
      return Some(Err(NoCity));
    }
    var a := StampFile(w, asn, at(4 * attempt + 2), at(4 * attempt + 3));
    if a.None? {
      return Some(Err(NoASN));
    }
    if !sameLogicalDir || c.value.path.dir == a.value.path.dir {
      return Some(Ok(Pair(c.value, a.value)));
    }
    return None;
  }

  method Snapshot(w: World, at: Schedule, city: LogicalPath, asn: LogicalPath) returns (r: Result<Pair, SnapshotError>)
    ensures r == SnapshotFrom(w, at, city, asn, 0)
  {
    var sameLogicalDir := city.place == asn.place;
    for attempt := 0 to ATTEMPTS
      invariant SnapshotFrom(w, at, city, asn, 0) == SnapshotFrom(w, at, city, asn, attempt)
    {
      var result := TryOnce(w, at, city, asn, attempt, sameLogicalDir);
      if result.Some? {
        return result.value;
      }
    }
    return Err(Incoherent);
  }

  lemma AttemptIsCoherent(w: World, at: Schedule, city: LogicalPath, asn: LogicalPath, k: nat)
    requires Attempt(w, at, city, asn, k).Ok?
    ensures var pair := Attempt(w, at, city, asn, k).value;
      && (city.place == asn.place ==> pair.city.path.dir == pair.asn.path.dir)
      && pair.city.path.base == city.base && pair.asn.path.base == asn.base && pair.city.size > 0 && pair.asn.size > 0
  {
  }

  /** Any successful snapshot is a pair of the non-empty files asked for; both from one directory if both are linked. */
  lemma {:induction false} SnapshotIsCoherent(w: World, at: Schedule, city: LogicalPath, asn: LogicalPath, k: nat)
    requires SnapshotFrom(w, at, city, asn, k).Ok?
    ensures var pair := SnapshotFrom(w, at, city, asn, k).value;
      && (city.place == asn.place ==> pair.city.path.dir == pair.asn.path.dir)
      && pair.city.path.base == city.base && pair.asn.path.base == asn.base && pair.city.size > 0 && pair.asn.size > 0
    decreases ATTEMPTS - k
  {
    if Attempt(w, at, city, asn, k) == Err(Incoherent) {
      SnapshotIsCoherent(w, at, city, asn, k + 1);
    } else {
      AttemptIsCoherent(w, at, city, asn, k);
    }
  }

  /** Unless both files are linked there is nothing to retry: the first attempt decides. */
  lemma OnlyLinkedPairsAreRetried(w: World, at: Schedule, city: LogicalPath, asn: LogicalPath)
    requires !(city.place == asn.place == CurrentLink)
    ensures var c, a := StampFile(w, city, at(0), at(1)), StampFile(w, asn, at(2), at(3));
      SnapshotFrom(w, at, city, asn, 0)
      == if c.None? then Err(NoCity) else if a.None? then Err(NoASN) else Ok(Pair(c.value, a.value))
  {
    StampFileIff(w, city, at(0), at(1));
    StampFileIff(w, asn, at(2), at(3));
    assert Attempt(w, at, city, asn, 0) != Err(Incoherent);
  }

  // ---------------------------------------------------------------- flips

  /** How often `current` changes between two ticks. */
  function Flips(w: World, a: nat, b: nat): nat
    decreases b - a
  {
    if a >= b then 0 else (if w(a).target != w(a + 1).target then 1 else 0) + Flips(w, a + 1, b)
  }

  lemma {:induction false} FlipsAdd(w: World, a: nat, b: nat, c: nat)
    requires a <= b <= c
    ensures Flips(w, a, c) == Flips(w, a, b) + Flips(w, b, c)
    decreases b - a
  {
    if a < b {
      FlipsAdd(w, a + 1, b, c);
    }
  }

  lemma {:induction false} DifferenceIsAFlip(w: World, a: nat, b: nat)
    requires a <= b && w(a).target != w(b).target
    ensures Flips(w, a, b) >= 1
    decreases b - a
  {
    if w(a).target == w(a + 1).target {
      DifferenceIsAFlip(w, a + 1, b);
    }
  }

  /** An attempt that has to be repeated resolved its two paths under different links. */
  lemma IncoherentAttemptFlips(w: World, at: Schedule, city: LogicalPath, asn: LogicalPath, k: nat)
    requires Attempt(w, at, city, asn, k) == Err(Incoherent)
    ensures w(at(4 * k)).target != w(at(4 * k + 2)).target
  {
  }

  lemma AttemptWindow(at: Schedule, k: nat)
    requires Forward(at) && k < ATTEMPTS
    ensures at(4 * k) <= at(4 * k + 2) <= at(4 * (k + 1)) <= at(4 * ATTEMPTS)
    ensures at(0) <= at(4 * k) <= at(4 * k + 1) && at(4 * k + 2) <= at(4 * k + 3) <= at(4 * ATTEMPTS)
    ensures at(4 * k + 1) <= at(4 * ATTEMPTS)
  {
  }

  /** The link flips between attempt k's two path resolutions. */
  predicate FlipsBetweenResolutions(w: World, at: Schedule, k: nat) {
    Flips(w, at(4 * k), at(4 * k + 2)) >= 1
  }

  /** Both paths of attempt k are resolved under the same link. */
  predicate Steady(w: World, at: Schedule, k: nat) {
    w(at(4 * k)).target == w(at(4 * k + 2)).target
  }

  /** Every unsteady attempt costs a flip inside its own window. */
  lemma {:induction false} UnsteadyAttemptsTakeFlips(w: World, at: Schedule, k: nat)
    requires Forward(at) && k <= ATTEMPTS
    requires forall j: nat | k <= j < ATTEMPTS :: !Steady(w, at, j)
    ensures forall j: nat | k <= j < ATTEMPTS :: FlipsBetweenResolutions(w, at, j)
    ensures Flips(w, at(4 * k), at(4 * ATTEMPTS)) >= ATTEMPTS - k
    decreases ATTEMPTS - k
  {
    if k < ATTEMPTS {
      assert !Steady(w, at, k);
      UnsteadyAttemptsTakeFlips(w, at, k + 1);
      AttemptWindow(at, k);
      WindowFlips(w, at(4 * k), at(4 * k + 2), at(4 * (k + 1)), at(4 * ATTEMPTS));
      assert FlipsBetweenResolutions(w, at, k);
    }
  }

  lemma {:induction false} IncoherenceIsUnsteady(
      w: World, at: Schedule, city: LogicalPath, asn: LogicalPath, k: nat, j: nat)
    requires SnapshotFrom(w, at, city, asn, k) == Err(Incoherent) && k <= j < ATTEMPTS
    ensures !Steady(w, at, j)
    decreases ATTEMPTS - k
  {
    if k == j {
      IncoherentAttemptFlips(w, at, city, asn, k);
    } else {
      IncoherenceIsUnsteady(w, at, city, asn, k + 1, j);
    }
  }

  /** Running out of attempts costs the adversary a flip inside each attempt's own window. */
  lemma IncoherenceTakesFlips(w: World, at: Schedule, city: LogicalPath, asn: LogicalPath, k: nat, j: nat)
    requires Forward(at) && k <= j < 4
    requires SnapshotFrom(w, at, city, asn, k) == Err(Incoherent)
    ensures Flips(w, at(4 * j), at(4 * j + 2)) >= 1
    ensures Flips(w, at(4 * k), at(4 * ATTEMPTS)) >= ATTEMPTS - k
  {
    forall i: nat | k <= i < ATTEMPTS ensures !Steady(w, at, i) {
      IncoherenceIsUnsteady(w, at, city, asn, k, i);
    }
    UnsteadyAttemptsTakeFlips(w, at, k);
    assert FlipsBetweenResolutions(w, at, j);
  }

  lemma WindowFlips(w: World, from: nat, mid: nat, next: nat, end: nat)
    requires from <= mid <= next <= end && w(from).target != w(mid).target
    ensures Flips(w, from, mid) >= 1 && Flips(w, from, end) >= 1 + Flips(w, next, end)
  {
    DifferenceIsAFlip(w, from, mid);
    FlipsAdd(w, from, mid, next);
    FlipsAdd(w, from, next, end);
  }

  /** During the window every directory that is ever current holds both files, non-empty. */
  ghost predicate AllTargetsPresent(w: World, from: nat, to: nat, city: LogicalPath, asn: LogicalPath) {
    forall i, j | from <= i <= to && from <= j <= to ::
      && w(i).target.Some?
      && Holds(w(j), Path(w(i).target.value, city.base)) && Holds(w(j), Path(w(i).target.value, asn.base))
  }

  predicate Holds(v: View, p: Path) {
    p in v.files && v.files[p].size > 0
  }

  lemma PresentFileIsStamped(w: World, from: nat, to: nat, city: LogicalPath, asn: LogicalPath, t1: nat, t2: nat)
    requires AllTargetsPresent(w, from, to, city, asn) && from <= t1 <= t2 <= to
    requires city.place == asn.place == CurrentLink
    ensures StampFile(w, city, t1, t2).Some? && StampFile(w, asn, t1, t2).Some?
  {
    var dir := w(t1).target.value;
    assert Holds(w(t1), Path(dir, city.base)) && Holds(w(t2), Path(dir, city.base));
    assert Holds(w(t1), Path(dir, asn.base)) && Holds(w(t2), Path(dir, asn.base));
  }

  lemma PresentAttempt(w: World, at: Schedule, city: LogicalPath, asn: LogicalPath, k: nat)
    requires Forward(at) && city.place == asn.place == CurrentLink && k < ATTEMPTS
    requires AllTargetsPresent(w, at(0), at(4 * ATTEMPTS), city, asn)
    ensures Attempt(w, at, city, asn, k).Ok? || Attempt(w, at, city, asn, k) == Err(Incoherent)
  {
    AttemptWindow(at, k);
    PresentFileIsStamped(w, at(0), at(4 * ATTEMPTS), city, asn, at(4 * k), at(4 * k + 1));
    PresentFileIsStamped(w, at(0), at(4 * ATTEMPTS), city, asn, at(4 * k + 2), at(4 * k + 3));
  }

  /** Attempt k succeeds under a steady link and has to be repeated otherwise. */
  predicate FollowsLink(w: World, at: Schedule, city: LogicalPath, asn: LogicalPath, k: nat) {
    var result := Attempt(w, at, city, asn, k);
    if Steady(w, at, k) then result.Ok? else result == Err(Incoherent)
  }

  lemma PresentAttemptIff(w: World, at: Schedule, city: LogicalPath, asn: LogicalPath, k: nat)
    requires Forward(at) && city.place == asn.place == CurrentLink && k < ATTEMPTS
    requires AllTargetsPresent(w, at(0), at(4 * ATTEMPTS), city, asn)
    ensures FollowsLink(w, at, city, asn, k)
  {
    PresentAttempt(w, at, city, asn, k);
    AttemptWindow(at, k);
    PresentFileIsStamped(w, at(0), at(4 * ATTEMPTS), city, asn, at(4 * k), at(4 * k + 1));
    PresentFileIsStamped(w, at(0), at(4 * ATTEMPTS), city, asn, at(4 * k + 2), at(4 * k + 3));
  }

  lemma {:induction false} SteadyAttemptSucceeds(
      w: World, at: Schedule, city: LogicalPath, asn: LogicalPath, k: nat, j: nat)
    requires forall i: nat | i < ATTEMPTS :: FollowsLink(w, at, city, asn, i)
    requires k <= j < ATTEMPTS && Steady(w, at, j)
    ensures SnapshotFrom(w, at, city, asn, k).Ok?
    decreases ATTEMPTS - k
  {
    assert FollowsLink(w, at, city, asn, k);
    if !Steady(w, at, k) {
      SteadyAttemptSucceeds(w, at, city, asn, k + 1, j);
    }
  }

  lemma {:induction false} SuccessIsSteady(w: World, at: Schedule, city: LogicalPath, asn: LogicalPath, k: nat)
    returns (j: nat)
    requires forall i: nat | i < ATTEMPTS :: FollowsLink(w, at, city, asn, i)
    requires SnapshotFrom(w, at, city, asn, k).Ok?
    ensures k <= j < ATTEMPTS && Steady(w, at, j)
    decreases ATTEMPTS - k
  {
    assert FollowsLink(w, at, city, asn, k);
    j := k;
    if !Steady(w, at, k) {
      j := SuccessIsSteady(w, at, city, asn, k + 1);
    }
  }

  lemma {:induction false} PresentFilesAreFound(w: World, at: Schedule, city: LogicalPath, asn: LogicalPath, k: nat)
    requires forall i: nat | i < ATTEMPTS :: FollowsLink(w, at, city, asn, i)
    ensures SnapshotFrom(w, at, city, asn, k).Ok? || SnapshotFrom(w, at, city, asn, k) == Err(Incoherent)
    decreases ATTEMPTS - k
  {
    if k < ATTEMPTS {
      assert FollowsLink(w, at, city, asn, k);
      PresentFilesAreFound(w, at, city, asn, k + 1);
    }
  }

  /**
   * Exactly when a snapshot succeeds, however often the link flips: with all targets present, if and only if some
   * attempt resolves both of its paths under the same link. It fails only by running out of attempts.
   */
  lemma SnapshotSucceedsIff(w: World, at: Schedule, city: LogicalPath, asn: LogicalPath, k: nat)
    requires Forward(at) && city.place == asn.place == CurrentLink
    requires AllTargetsPresent(w, at(0), at(4 * ATTEMPTS), city, asn)
    ensures SnapshotFrom(w, at, city, asn, k).Ok? <==> exists j: nat :: k <= j < ATTEMPTS && Steady(w, at, j)
    ensures SnapshotFrom(w, at, city, asn, k).Ok? || SnapshotFrom(w, at, city, asn, k) == Err(Incoherent)
  {
    forall i: nat | i < ATTEMPTS ensures FollowsLink(w, at, city, asn, i) {
      PresentAttemptIff(w, at, city, asn, i);
    }
    PresentFilesAreFound(w, at, city, asn, k);
    if SnapshotFrom(w, at, city, asn, k).Ok? {
      var j := SuccessIsSteady(w, at, city, asn, k);
    } else if j: nat :| k <= j < ATTEMPTS && Steady(w, at, j) {
      SteadyAttemptSucceeds(w, at, city, asn, k, j);
    }
  }

  /** So at most three flips, all targets present, are always survived. */
  lemma ThreeFlipsAreSurvived(w: World, at: Schedule, city: LogicalPath, asn: LogicalPath)
    requires Forward(at) && city.place == asn.place == CurrentLink
    requires AllTargetsPresent(w, at(0), at(4 * ATTEMPTS), city, asn)
    requires Flips(w, at(0), at(4 * ATTEMPTS)) <= 3
    ensures SnapshotFrom(w, at, city, asn, 0).Ok?
  {
    SnapshotSucceedsIff(w, at, city, asn, 0);
    if forall j: nat | 0 <= j < ATTEMPTS :: !Steady(w, at, j) {
      UnsteadyAttemptsTakeFlips(w, at, 0);
    }
  }

  /** The link alternating between two complete directories, flipping in the middle of every attempt. */
  function Alternating(x: string, y: string, files: map<Path, Stat>): World {
    (tick: nat) => View(Some(if (tick + 2) / 4 % 2 == 0 then x else y), files)
  }

  function EveryTick(): Schedule {
    (i: nat) => i
  }

  lemma AlternatingFlips(x: string, y: string, files: map<Path, Stat>, k: nat)
    requires x != y
    ensures var w := Alternating(x, y, files);
      w(4 * k).target == w(4 * k + 1).target != w(4 * k + 2).target == w(4 * k + 3).target == w(4 * k + 4).target
  {
    assert (4 * k + 2) / 4 == k && (4 * k + 3) / 4 == k;
    assert (4 * k + 4) / 4 == k + 1 && (4 * k + 5) / 4 == k + 1 && (4 * k + 6) / 4 == k + 1;
    assert k % 2 != (k + 1) % 2;
  }

  lemma OneFlipPerAttempt(x: string, y: string, files: map<Path, Stat>, k: nat)
    requires x != y
    ensures Flips(Alternating(x, y, files), 4 * k, 4 * k + 4) == 1
  {
    var w := Alternating(x, y, files);
    AlternatingFlips(x, y, files, k);
    assert Flips(w, 4 * k + 4, 4 * k + 4) == 0;
    assert Flips(w, 4 * k + 3, 4 * k + 4) == 0;
    assert Flips(w, 4 * k + 2, 4 * k + 4) == 0;
    assert Flips(w, 4 * k + 1, 4 * k + 4) == 1;
  }

  lemma {:induction false} AlternatingFlipCount(x: string, y: string, files: map<Path, Stat>, n: nat)
    requires x != y
    ensures Flips(Alternating(x, y, files), 0, 4 * n) == n
  {
    if n > 0 {
      AlternatingFlipCount(x, y, files, n - 1);
      OneFlipPerAttempt(x, y, files, n - 1);
      FlipsAdd(Alternating(x, y, files), 0, 4 * (n - 1), 4 * n);
    }
  }

  predicate BothPresent(files: map<Path, Stat>, d: string, city: LogicalPath, asn: LogicalPath) {
    Holds(View(None, files), Path(d, city.base)) && Holds(View(None, files), Path(d, asn.base))
  }

  /** Attempt k finds both files, but in different directories. */
  predicate Mixed(w: World, at: Schedule, city: LogicalPath, asn: LogicalPath, k: nat) {
    var c, a := StampFile(w, city, at(4 * k), at(4 * k + 1)), StampFile(w, asn, at(4 * k + 2), at(4 * k + 3));
    c.Some? && a.Some? && c.value.path.dir != a.value.path.dir
  }

  lemma {:induction false} MixedAttemptsFail(w: World, at: Schedule, city: LogicalPath, asn: LogicalPath, k: nat)
    requires city.place == asn.place && forall j: nat | j < ATTEMPTS :: Mixed(w, at, city, asn, j)
    ensures SnapshotFrom(w, at, city, asn, k) == Err(Incoherent)
    decreases ATTEMPTS - k
  {
    if k < ATTEMPTS {
      assert Mixed(w, at, city, asn, k);
      assert Attempt(w, at, city, asn, k) == Err(Incoherent);
      MixedAttemptsFail(w, at, city, asn, k + 1);
    }
  }

  lemma AlternatingMixes(x: string, y: string, files: map<Path, Stat>, city: LogicalPath, asn: LogicalPath, k: nat)
    requires x != y && city.place == asn.place == CurrentLink
    requires BothPresent(files, x, city, asn) && BothPresent(files, y, city, asn)
    ensures Mixed(Alternating(x, y, files), EveryTick(), city, asn, k)
  {
    AlternatingFlips(x, y, files, k);
  }

  lemma AlternatingIsPresent(x: string, y: string, files: map<Path, Stat>, city: LogicalPath, asn: LogicalPath)
    requires BothPresent(files, x, city, asn) && BothPresent(files, y, city, asn)
    ensures AllTargetsPresent(Alternating(x, y, files), 0, 4 * ATTEMPTS, city, asn)
  {
  }

  /** Three is the exact bound: four flips, one per attempt, defeat it although every file is there all along. */
  lemma FourFlipsCanDefeat(x: string, y: string, files: map<Path, Stat>, city: LogicalPath, asn: LogicalPath)
    requires x != y && city.place == asn.place == CurrentLink
    requires BothPresent(files, x, city, asn) && BothPresent(files, y, city, asn)
    ensures Forward(EveryTick()) && Flips(Alternating(x, y, files), 0, 4 * ATTEMPTS) == 4
    ensures AllTargetsPresent(Alternating(x, y, files), 0, 4 * ATTEMPTS, city, asn)
    ensures SnapshotFrom(Alternating(x, y, files), EveryTick(), city, asn, 0) == Err(Incoherent)
  {
    var w := Alternating(x, y, files);
    AlternatingFlipCount(x, y, files, ATTEMPTS);
    AlternatingIsPresent(x, y, files, city, asn);
    forall j: nat | j < ATTEMPTS ensures Mixed(w, EveryTick(), city, asn, j) {
      AlternatingMixes(x, y, files, city, asn, j);
    }
    MixedAttemptsFail(w, EveryTick(), city, asn, 0);
  }

  /** Without flips every snapshot is the stamps of the one view there is. */
  lemma StableSnapshot(w: World, at: Schedule, city: LogicalPath, asn: LogicalPath, v: View)
    requires Forward(at) && city.place == asn.place == CurrentLink
    requires forall i | at(0) <= i <= at(4 * ATTEMPTS) :: w(i) == v
    requires v.target.Some? && Holds(v, Path(v.target.value, city.base)) && Holds(v, Path(v.target.value, asn.base))
    ensures SnapshotFrom(w, at, city, asn, 0) == Ok(Pair(StampIn(v, city.base), StampIn(v, asn.base)))
  {
    assert at(0) <= at(1) <= at(2) <= at(3) <= at(4 * ATTEMPTS);
    assert w(at(0)) == v && w(at(1)) == v && w(at(2)) == v && w(at(3)) == v;
    assert Attempt(w, at, city, asn, 0) == Ok(Pair(StampIn(v, city.base), StampIn(v, asn.base)));
  }

  function StampIn(v: View, base: string): FileStamp
    requires v.target.Some? && Path(v.target.value, base) in v.files
  {
    var path := Path(v.target.value, base);
    FileStamp(path, v.files[path].modTime, v.files[path].size)
  }

  // ---------------------------------------------------------------- the reader object

  /** An open MMDB file. */
  class Reader {
    const path: Path
    const version: string
    var open: bool

    constructor (path: Path, version: string)
      ensures this.path == path && this.version == version && open
    {
      this.path, this.version, open := path, version, true;
    }

    method Close()
      modifies this
      ensures !open
    {
      open := false;
    }
  }

  /** What opening and verifying the two files will say: a version, or a failure. */
  datatype Opens = Opens(city: Option<string>, asn: Option<string>)

  class MaxMind {
    const cityPath: LogicalPath
    const asnPath: LogicalPath
    var cityReader: Reader?
    var asnReader: Reader?
    var cityVersion: string
    var asnVersion: string
    var cityStamp: FileStamp
    var asnStamp: FileStamp

    /** Both readers are open on the stamped files under the reported versions. */
    ghost predicate Valid()
      reads this, cityReader, asnReader
    {
      && cityReader != null && asnReader != null && cityReader != asnReader
      && cityReader.open && asnReader.open
      && cityReader.path == cityStamp.path && asnReader.path == asnStamp.path
      && cityReader.version == cityVersion && asnReader.version == asnVersion
    }

    /** The installed pair belongs to one generation. */
    ghost predicate Coherent()
      reads this
    {
      && cityStamp.path.base == cityPath.base && asnStamp.path.base == asnPath.base
      && (cityPath.place == asnPath.place ==> cityStamp.path.dir == asnStamp.path.dir)
    }

    constructor (cityPath: LogicalPath, asnPath: LogicalPath)
      ensures this.cityPath == cityPath && this.asnPath == asnPath && cityReader == null && asnReader == null
    {
      this.cityPath, this.asnPath := cityPath, asnPath;
      cityReader, asnReader, cityVersion, asnVersion := null, null, "", "";
      cityStamp, asnStamp := FileStamp(Path("", ""), 0, 0), FileStamp(Path("", ""), 0, 0);
    }

    /**
     * Opens what changed, swaps it in and closes what it replaced. If a file does not open nothing changes,
     * and a half already opened is closed again.
     */
    method Reload(cityChanged: bool, asnChanged: bool, pair: Pair, opens: Opens) returns (ok: bool)
      requires Valid() || (cityReader == null && asnReader == null && cityChanged && asnChanged)
      modifies this, cityReader, asnReader
      ensures ok <==> (cityChanged ==> opens.city.Some?) && (asnChanged ==> opens.asn.Some?)
      ensures ok ==> Valid()
      ensures ok && cityChanged ==> cityStamp == pair.city && cityVersion == opens.city.value && fresh(cityReader)
      ensures ok && asnChanged ==> asnStamp == pair.asn && asnVersion == opens.asn.value && fresh(asnReader)
      ensures !cityChanged ==>
        cityStamp == old(cityStamp) && cityVersion == old(cityVersion) && cityReader == old(cityReader)
      ensures !asnChanged ==> asnStamp == old(asnStamp) && asnVersion == old(asnVersion) && asnReader == old(asnReader)
      ensures ok && cityChanged && old(cityReader) != null ==> !old(cityReader).open
      ensures ok && asnChanged && old(asnReader) != null ==> !old(asnReader).open
      ensures !ok ==> unchanged(this) && (old(Valid()) ==> Valid())
    {
      var newCity: Reader? := null;
      var newASN: Reader? := null;
      if cityChanged {
        if opens.city.None? {
          return false;
        }
        newCity := new Reader(pair.city.path, opens.city.value);
      }
      if asnChanged {
        if opens.asn.None? {
          if newCity != null {
            newCity.Close();
          }
          return false;
        }
        newASN := new Reader(pair.asn.path, opens.asn.value);
      }
      var oldCity, oldASN := cityReader, asnReader;
      if cityChanged {
        cityReader, cityVersion, cityStamp := newCity, opens.city.value, pair.city;
      }
      if asnChanged {
        asnReader, asnVersion, asnStamp := newASN, opens.asn.value, pair.asn;
      }
      if cityChanged && oldCity != null {
        oldCity.Close();
      }
      if asnChanged && oldASN != null {
        oldASN.Close();
      }
      return true;
    }

    /** OpenMaxMind. */
    method Open(w: World, at: Schedule, opens: Opens) returns (ok: bool)
      requires cityReader == null && asnReader == null
      modifies this
      ensures ok <==> SnapshotFrom(w, at, cityPath, asnPath, 0).Ok? && opens.city.Some? && opens.asn.Some?
      ensures ok ==>
        && Valid() && Coherent()
        && Pair(cityStamp, asnStamp) == SnapshotFrom(w, at, cityPath, asnPath, 0).value
        && cityVersion == opens.city.value && asnVersion == opens.asn.value
      ensures !ok ==> unchanged(this)
    {
      var pair := Snapshot(w, at, cityPath, asnPath);
      if pair.Err? {
        return false;
      }
      SnapshotIsCoherent(w, at, cityPath, asnPath, 0);
      ok := Reload(true, true, pair.value, opens);
    }

    /**
     * One poll. It keeps the installed pair coherent whatever the link does meanwhile: when the directory
     * changed both halves are replaced, and a failed poll changes nothing. A successful one leaves exactly
     * the snapshot installed.
     */
    method ReloadIfChanged(w: World, at: Schedule, opens: Opens) returns (changed: bool, failed: bool)
      requires Valid() && Coherent()
      modifies this, cityReader, asnReader
      ensures Valid() && Coherent()
      ensures failed || !changed ==> unchanged(this)
      ensures cityReader == old(cityReader) || fresh(cityReader)
      ensures asnReader == old(asnReader) || fresh(asnReader)
      ensures !(failed && changed)
      ensures var snapshot := SnapshotFrom(w, at, cityPath, asnPath, 0);
        && (failed <==>
              || snapshot.Err?
              || (snapshot.value.city != old(cityStamp) && opens.city.None?)
              || (snapshot.value.asn != old(asnStamp) && opens.asn.None?))
        && (!failed ==>
              && Pair(cityStamp, asnStamp) == snapshot.value
              && (changed <==> snapshot.value != old(Pair(cityStamp, asnStamp)))
              && (if cityStamp == old(cityStamp) then cityReader == old(cityReader)
                  else fresh(cityReader) && cityVersion == opens.city.value && !old(cityReader).open)
              && (if asnStamp == old(asnStamp) then asnReader == old(asnReader)
                  else fresh(asnReader) && asnVersion == opens.asn.value && !old(asnReader).open)
              && (cityPath.place == asnPath.place && cityStamp.path.dir != old(cityStamp.path.dir) ==>
                    fresh(cityReader) && fresh(asnReader)))
    {
      var pair := Snapshot(w, at, cityPath, asnPath);
      if pair.Err? {
        return false, true;
      }
      SnapshotIsCoherent(w, at, cityPath, asnPath, 0);
      var cityChanged := Changed(pair.value.city, cityStamp);
      var asnChanged := Changed(pair.value.asn, asnStamp);
      if !cityChanged && !asnChanged {
        return false, false;
      }
      var ok := Reload(cityChanged, asnChanged, pair.value, opens);
      return ok, !ok;
    }

    /** With the link at rest, one good poll installs the current generation and the next one finds nothing to do. */
    method PollTwice(
        w: World, first: Schedule, second: Schedule, v: View, opens: Opens) returns (changed: bool, again: bool)
      requires Valid() && Coherent() && cityPath.place == asnPath.place == CurrentLink
      requires Forward(first) && Forward(second)
      requires forall i | first(0) <= i <= first(4 * ATTEMPTS) || second(0) <= i <= second(4 * ATTEMPTS) :: w(i) == v
      requires v.target.Some?
      requires Holds(v, Path(v.target.value, cityPath.base)) && Holds(v, Path(v.target.value, asnPath.base))
      requires opens.city.Some? && opens.asn.Some?
      modifies this, cityReader, asnReader
      ensures Valid() && cityStamp == StampIn(v, cityPath.base) && asnStamp == StampIn(v, asnPath.base)
      ensures !again && (changed <==> old(Pair(cityStamp, asnStamp)) != Pair(cityStamp, asnStamp))
    {
      StableSnapshot(w, first, cityPath, asnPath, v);
      StableSnapshot(w, second, cityPath, asnPath, v);
      var failed: bool;
      changed, failed := ReloadIfChanged(w, first, opens);
      again, failed := ReloadIfChanged(w, second, opens);
    }
  }
}
