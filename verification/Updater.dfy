/**
 * The bundle updater of cmd/mmdb-updater/main.go over a disk whose every operation may succeed, fail, or be the last
 * one the process lives to attempt. A crash leaves the disk as the previous operation left it, so the states in
 * which runs may end are exactly the states a reader or the next run may find.
 */
module Updater {
  import opened Common
  import opened ReleaseNames

  const RETAINED_RELEASES := 3

  datatype Fate = Go | Fail | Die

  datatype FileState = Partial | Verified

  /** A directory under releases/, edition by edition. */
  type Dir = map<string, FileState>

  predicate Complete(dir: Dir, editions: seq<string>) {
    forall i | 0 <= i < |editions| :: editions[i] in dir && dir[editions[i]].Verified?
  }

  /** The `current` link, once set, resolves to an existing directory holding every edition, verified. */
  predicate CurrentComplete(dirs: map<string, Dir>, current: Option<string>, editions: seq<string>) {
    current.Some? ==> current.value in dirs && Complete(dirs[current.value], editions)
  }

  function Releases(dirs: map<string, Dir>): set<string> {
    set n | n in dirs && IsRelease(n)
  }

  /** A directory that pruning leaves alone. */
  predicate Spared(dirs: map<string, Dir>, keep: nat, n: string) {
    !IsRelease(n) || Retained(Releases(dirs), keep, n)
  }

  lemma ReleaseNameIsRelease(t: Stamp, suffix: string)
    ensures IsRelease(ReleaseName(t, suffix)) && !IsRelease(StagingName(suffix))
  {
    assert ReleaseName(t, suffix)[..8] == "release-";
    assert StagingName(suffix)[0] == '.';
  }

  // ---------------------------------------------------------------- the disk

  class Disk {
    const fates: nat -> Fate
    var ops: nat
    var alive: bool
    var dirs: map<string, Dir>
    var current: Option<string>
    var links: map<string, string>

    constructor (fates: nat -> Fate)
      ensures this.fates == fates && alive && dirs == map[] && current == None && links == map[]
    {
      this.fates := fates;
      ops, alive, dirs, current, links := 0, true, map[], None, map[];
    }

    ghost predicate Lucky() {
      forall k: nat :: fates(k).Go?
    }

    /** One system call about to happen. */
    method Attempt() returns (go: bool)
      requires alive
      modifies this`ops, this`alive
      ensures go ==> alive
      ensures Lucky() ==> go
      ensures go == fates(old(ops)).Go? && alive == !fates(old(ops)).Die? && ops == old(ops) + 1
    {
      var fate := fates(ops);
      ops := ops + 1;
      alive := !fate.Die?;
      go := fate.Go?;
    }

    /** MkdirTemp. */
    method MakeStaging(suffix: string) returns (ok: bool)
      requires alive
      modifies this`ops, this`alive, this`dirs
      ensures ok ==> alive && StagingName(suffix) !in old(dirs) && dirs == old(dirs)[StagingName(suffix) := map[]]
      ensures !ok ==> dirs == old(dirs)
      ensures Lucky() && StagingName(suffix) !in old(dirs) ==> ok
      ensures ops == old(ops) + 1 && (ok <==> fates(old(ops)).Go? && StagingName(suffix) !in old(dirs))
    {
      var go := Attempt();
      if !go || StagingName(suffix) in dirs {
        return false;
      }
      dirs := dirs[StagingName(suffix) := map[]];
      return true;
    }

    /** downloadEdition: the file appears, is filled and verified; a failure tries to take it away again. */
    method Download(stage: string, edition: string) returns (ok: bool)
      requires alive && stage in dirs
      modifies this`ops, this`alive, this`dirs
      ensures stage in dirs && dirs - {stage} == old(dirs) - {stage}
      ensures var begun := fates(old(ops)).Go? && edition !in old(dirs)[stage];
        && (ok <==> begun && fates(old(ops) + 1).Go?)
        && (!begun ==> dirs == old(dirs))
        // a failure takes the file away again, unless that fails too or the process is dead
        && (begun && !ok ==>
              dirs[stage] == if fates(old(ops) + 1).Fail? && fates(old(ops) + 2).Go? then old(dirs)[stage]
                             else old(dirs)[stage][edition := Partial])
      ensures ok ==> alive && dirs[stage] == old(dirs)[stage][edition := Verified]
      ensures Lucky() && edition !in old(dirs)[stage] ==> ok
      ensures fates(old(ops)).Die? ==> !ok && !alive
    {
      var go := Attempt();
      if !go || edition in dirs[stage] {
        return false;
      }
      dirs := dirs[stage := dirs[stage][edition := Partial]];
      go := Attempt();
      if !go {
        if alive {
          go := Attempt();
          if go {
            dirs := dirs[stage := dirs[stage] - {edition}];
          }
        }
        return false;
      }
      dirs := dirs[stage := dirs[stage][edition := Verified]];
      return true;
    }

    method RenameDir(from: string, to: string) returns (ok: bool)
      requires alive && from in dirs && from != to
      modifies this`ops, this`alive, this`dirs
      ensures ok ==> alive && to !in old(dirs) && dirs == (old(dirs) - {from})[to := old(dirs)[from]]
      ensures !ok ==> dirs == old(dirs)
      ensures Lucky() ==> alive && (ok <==> to !in old(dirs))
    {
      var go := Attempt();
      if !go || to in dirs {
        return false;
      }
      dirs := (dirs - {from})[to := dirs[from]];
      return true;
    }

    /** RemoveAll: file by file, then the directory; interrupted, it leaves a directory with some files gone. */
    method RemoveTree(name: string) returns (ok: bool)
      requires alive && name in dirs
      modifies this`ops, this`alive, this`dirs
      ensures ok ==> alive && dirs == old(dirs) - {name}
      ensures !ok ==> name in dirs && dirs - {name} == old(dirs) - {name}
      ensures Lucky() ==> ok
    {
      var files := dirs[name].Keys;
      while files != {}
        invariant alive && name in dirs && dirs - {name} == old(dirs) - {name} && dirs[name].Keys == files
        decreases files
      {
        var file :| file in files;
        var go := Attempt();
        if !go {
          return false;
        }
        dirs := dirs[name := dirs[name] - {file}];
        files := files - {file};
      }
      var go := Attempt();
      if !go {
        return false;
      }
      dirs := dirs - {name};
      return true;
    }

    method MakeLink(suffix: string, target: string) returns (ok: bool)
      requires alive
      modifies this`ops, this`alive, this`links
      ensures links - {suffix} == old(links) - {suffix}
      ensures ok ==> alive && suffix in links && links[suffix] == target && ops == old(ops) + 2
      ensures ok <==>
                && !fates(old(ops)).Die? && fates(old(ops) + 1).Go?
                && (fates(old(ops)).Go? || suffix !in old(links))
      ensures Lucky() ==> ok
    {
      var go := Attempt();
      if !alive {
        return false;
      }
      if go {
        links := links - {suffix};
      }
      go := Attempt();
      if !go || suffix in links {
        return false;
      }
      links := links[suffix := target];
      return true;
    }

    method RemoveLink(suffix: string)
      requires alive
      modifies this`ops, this`alive, this`links
      ensures links == old(links) || links == old(links) - {suffix}
      ensures fates(old(ops)).Go? ==> links == old(links) - {suffix}
    {
      var go := Attempt();
      if go {
        links := links - {suffix};
      }
    }

    /** Renaming the temporary link over `current` is atomic. */
    method Activate(suffix: string) returns (ok: bool)
      requires alive && suffix in links
      modifies this`ops, this`alive, this`links, this`current
      ensures ok ==> alive && current == Some(old(links)[suffix]) && links == old(links) - {suffix}
      ensures ops == old(ops) + 1 && (ok <==> fates(old(ops)).Go?)
      ensures !ok ==> current == old(current) && links == old(links)
      ensures Lucky() ==> ok
    {
      var go := Attempt();
      if !go {
        return false;
      }
      current := Some(links[suffix]);
      links := links - {suffix};
      return true;
    }
  }

  // ---------------------------------------------------------------- pruning

  method MaxName(names: set<string>) returns (max: string)
    requires names != {}
    ensures max in names && forall n | n in names && n != max :: Less(n, max)
  {
    max :| max in names;
    var rest := names - {max};
    while rest != {}
      invariant rest <= names && max in names && max !in rest
      invariant forall n | n in names && n !in rest && n != max :: Less(n, max)
      decreases rest
    {
      var n :| n in rest;
      rest := rest - {n};
      LessTotal(n, max);
      if Less(max, n) {
        forall m | m in names && m !in rest && m != n ensures Less(m, n) {
          if m != max {
            LessTransitive(m, max, n);
          }
        }
        max := n;
      }
    }
  }

  method SortDescending(names: set<string>) returns (sorted: seq<string>)
    ensures Enumerates(sorted, names)
  {
    sorted := [];
    var rest := names;
    while rest != {}
      invariant rest <= names && Descending(sorted)
      invariant forall i, n | 0 <= i < |sorted| && n in rest :: Less(n, sorted[i])
      invariant forall i | 0 <= i < |sorted| :: sorted[i] in names
      invariant forall n | n in names && n !in rest :: n in sorted
      decreases rest
    {
      var max := MaxName(rest);
      sorted := sorted + [max];
      rest := rest - {max};
    }
  }

  /**
   * Removes the releases beyond the newest `keep`. Whatever happens on the way, everything retained and
   * everything that is not a release stays exactly as it was; a complete pass leaves nothing else.
   */
  method PruneReleases(disk: Disk, keep: int) returns (ok: bool)
    requires disk.alive
    modifies disk`ops, disk`alive, disk`dirs
    ensures disk.dirs.Keys <= old(disk.dirs).Keys
    ensures forall n | n in old(disk.dirs) && (keep < 0 || Spared(old(disk.dirs), keep, n)) ::
              n in disk.dirs && disk.dirs[n] == old(disk.dirs)[n]
    ensures ok ==> keep >= 0 && disk.alive
                   && forall n | n in disk.dirs :: n in old(disk.dirs) && Spared(old(disk.dirs), keep, n)
    ensures disk.Lucky() && keep >= 0 ==> ok
  {
    if keep < 0 {
      return false;
    }
    var go := disk.Attempt();
    if !go {
      return false;
    }
    ghost var before := disk.dirs;
    var all := Releases(disk.dirs);
    var names := SortDescending(all);
    if |names| <= keep {
      forall n | n in all ensures Retained(all, keep, n) {
        TailIsNotRetained(names, all, keep, n);
      }
      ok := disk.Attempt();
      return;
    }
    for i := keep to |names|
      invariant disk.alive && disk.dirs.Keys == before.Keys - set k | keep <= k < i :: names[k]
      invariant forall n | n in disk.dirs :: disk.dirs[n] == before[n]
    {
      assert names[i] in disk.dirs by {
        forall k | keep <= k < i ensures names[k] != names[i] {
          LessIrreflexive(names[k]);
        }
      }
      ghost var previous := disk.dirs;
      ok := disk.RemoveTree(names[i]);
      OthersUntouched(previous, disk.dirs, names[i]);
      if !ok {
        SparedAreNotDoomed(before, names, keep);
        return false;
      }
    }
    SparedAreNotDoomed(before, names, keep);
    ok := disk.Attempt();
  }

  lemma OthersUntouched(before: map<string, Dir>, after: map<string, Dir>, name: string)
    requires after - {name} == before - {name}
    ensures forall n | n in before && n != name :: n in after && after[n] == before[n]
    ensures forall n | n in after && n != name :: n in before
  {
    forall n | n in before && n != name ensures n in after && after[n] == before[n] {
      assert n in before - {name};
    }
    forall n | n in after && n != name ensures n in before {
      assert n in after - {name};
    }
  }

  lemma SparedAreNotDoomed(dirs: map<string, Dir>, names: seq<string>, keep: nat)
    requires Enumerates(names, Releases(dirs)) && keep <= |names|
    ensures forall k | keep <= k < |names| :: !Spared(dirs, keep, names[k])
    ensures forall n | n in dirs && !Spared(dirs, keep, n) :: exists k :: keep <= k < |names| && names[k] == n
  {
    forall k | keep <= k < |names| ensures !Spared(dirs, keep, names[k]) {
      assert names[keep..][k - keep] == names[k];
      TailIsNotRetained(names, Releases(dirs), keep, names[k]);
    }
    forall n | n in dirs && !Spared(dirs, keep, n) ensures exists k :: keep <= k < |names| && names[k] == n {
      TailIsNotRetained(names, Releases(dirs), keep, n);
      var j :| 0 <= j < |names[keep..]| && names[keep..][j] == n;
      assert names[keep + j] == n;
    }
  }

  // ---------------------------------------------------------------- one run

  datatype RunResult = Activated | FailedRun | Crashed

  /** Downloads every edition into the staging directory. */
  method StageEditions(disk: Disk, stage: string, editions: seq<string>) returns (ok: bool)
    requires disk.alive && stage in disk.dirs && disk.dirs[stage] == map[]
    modifies disk`ops, disk`alive, disk`dirs
    ensures stage in disk.dirs && disk.dirs - {stage} == old(disk.dirs) - {stage}
    ensures ok ==> disk.alive && Complete(disk.dirs[stage], editions)
    ensures ok ==> forall e :: e in disk.dirs[stage] <==> e in editions
    ensures disk.Lucky() && Distinct(editions) ==> ok
    ensures disk.fates(old(disk.ops)).Die? ==> !ok && !disk.alive
  {
    for i := 0 to |editions|
      invariant disk.alive && stage in disk.dirs && disk.dirs - {stage} == old(disk.dirs) - {stage}
      invariant Complete(disk.dirs[stage], editions[..i])
      invariant forall e :: e in disk.dirs[stage] <==> e in editions[..i]
      invariant if i == 0 then disk.ops == old(disk.ops) else !disk.fates(old(disk.ops)).Die?
    {
      assert editions[..i + 1] == editions[..i] + [editions[i]];
      ok := disk.Download(stage, editions[i]);
      if !ok {
        return false;
      }
    }
    assert editions[..|editions|] == editions;
    ok := disk.Attempt();
  }

  /** The deferred removal of a staging directory that never became a release; a dead process defers nothing. */
  method CleanUp(disk: Disk, stage: string)
    requires stage in disk.dirs
    modifies disk`ops, disk`alive, disk`dirs
    ensures disk.dirs - {stage} == old(disk.dirs) - {stage}
    ensures disk.Lucky() && old(disk.alive) ==> disk.alive && disk.dirs == old(disk.dirs) - {stage}
    ensures !old(disk.alive) ==> !disk.alive && disk.dirs == old(disk.dirs)
  {
    if disk.alive {
      var _ := disk.RemoveTree(stage);
    }
  }

  /** Everything on disk before is still there, as it was. */
  ghost predicate Keeps(before: map<string, Dir>, after: map<string, Dir>) {
    forall n | n in before :: n in after && after[n] == before[n]
  }

  /** The process dies at the first system call after making its staging directory. */
  ghost predicate DiesAfterStaging(disk: Disk, ops: nat) {
    disk.fates(ops).Go? && disk.fates(ops + 1).Go? && disk.fates(ops + 2).Go? && disk.fates(ops + 3).Die?
  }

  predicate Distinct(editions: seq<string>) {
    forall i, j | 0 <= i < j < |editions| :: editions[i] != editions[j]
  }

  /** Nothing fails, the staging name is new, and no edition is asked for twice. */
  ghost predicate FaultFree(disk: Disk, dirs: map<string, Dir>, suffix: string, editions: seq<string>) {
    disk.Lucky() && StagingName(suffix) !in dirs && Distinct(editions)
  }

  /** Every directory there, other than a release, was there before. */
  ghost predicate LeavesNoStaging(before: map<string, Dir>, after: map<string, Dir>) {
    forall n | n in after && !IsRelease(n) :: n in before
  }

  /** Makes a staging directory and fills it; unless that succeeds, tries to take it away again. */
  method StageRelease(disk: Disk, editions: seq<string>, suffix: string) returns (ok: bool)
    requires disk.alive
    modifies disk`ops, disk`alive, disk`dirs
    ensures Keeps(old(disk.dirs), disk.dirs)
    ensures forall n | n in disk.dirs && n != StagingName(suffix) :: n in old(disk.dirs)
    ensures ok ==>
      && disk.alive && StagingName(suffix) in disk.dirs && StagingName(suffix) !in old(disk.dirs)
      && Complete(disk.dirs[StagingName(suffix)], editions)
      && (forall e :: e in disk.dirs[StagingName(suffix)] <==> e in editions)
    ensures FaultFree(disk, old(disk.dirs), suffix, editions) ==> ok
    ensures DiesAfterStaging(disk, old(disk.ops)) && StagingName(suffix) !in old(disk.dirs) ==>
      !ok && !disk.alive && StagingName(suffix) in disk.dirs
  {
    ghost var start := disk.dirs;
    ok := disk.Attempt();
    if ok {
      ok := disk.Attempt();
    }
    if !ok {
      return;
    }
    var stage := StagingName(suffix);
    ok := disk.MakeStaging(suffix);
    if !ok {
      return;
    }
    assert disk.dirs - {stage} == start - {stage};
    ok := StageEditions(disk, stage, editions);
    if !ok {
      CleanUp(disk, stage);
    }
    OthersUntouched(start, disk.dirs, stage);
  }

  /**
   * The first half of updateBundle: stage, verify, rename into releases/. Stops without a release, or leaves a
   * complete one beside everything that was there.
   */
  method PublishRelease(disk: Disk, editions: seq<string>, suffix: string, t: Stamp) returns (stopped: bool)
    requires disk.alive
    modifies disk`ops, disk`alive, disk`dirs
    ensures Keeps(old(disk.dirs), disk.dirs)
    ensures stopped ==> Releases(disk.dirs) == Releases(old(disk.dirs))
    ensures !stopped ==>
      && disk.alive && Releases(disk.dirs) == Releases(old(disk.dirs)) + {ReleaseName(t, suffix)}
      && ReleaseName(t, suffix) !in old(disk.dirs)
      && ReleaseName(t, suffix) in disk.dirs && Complete(disk.dirs[ReleaseName(t, suffix)], editions)
      && (forall e :: e in disk.dirs[ReleaseName(t, suffix)] <==> e in editions)
    ensures DiesAfterStaging(disk, old(disk.ops)) && StagingName(suffix) !in old(disk.dirs) ==>
      stopped && !disk.alive && StagingName(suffix) in disk.dirs
    // without faults it stops only if the name is taken
    ensures FaultFree(disk, old(disk.dirs), suffix, editions) ==>
      && (stopped <==> ReleaseName(t, suffix) in old(disk.dirs)) && disk.alive
      && LeavesNoStaging(old(disk.dirs), disk.dirs)
  {
    ReleaseNameIsRelease(t, suffix);
    var stage, release := StagingName(suffix), ReleaseName(t, suffix);
    var ok := StageRelease(disk, editions, suffix);
    if !ok {
      return true;
    }
    ghost var staged := disk.dirs;
    ok := disk.RenameDir(stage, release);
    if !ok {
      CleanUp(disk, stage);
      OthersUntouched(staged, disk.dirs, stage);
      return true;
    }
    return false;
  }

  /**
   * The second half: point `current` at the published release and prune. It stops with the old link, or with the
   * new one; only after switching does it remove anything, and the new release only if it is not retained.
   */
  method ActivateRelease(disk: Disk, release: string, suffix: string) returns (done: bool)
    requires disk.alive && release in disk.dirs && IsRelease(release)
    modifies disk
    ensures disk.current == old(disk.current) || disk.current == Some(release)
    ensures disk.current == old(disk.current) != Some(release) ==> disk.dirs == old(disk.dirs)
    ensures disk.dirs.Keys <= old(disk.dirs).Keys
    ensures forall n | n in old(disk.dirs) && Spared(old(disk.dirs), RETAINED_RELEASES, n) ::
              n in disk.dirs && disk.dirs[n] == old(disk.dirs)[n]
    ensures disk.links - {suffix} == old(disk.links) - {suffix}
    ensures done ==> disk.current == Some(release)
    // nothing is pruned before the new link is made durable
    ensures done <==>
              && disk.fates(old(disk.ops)).Go? && !disk.fates(old(disk.ops) + 1).Die?
              && (disk.fates(old(disk.ops) + 1).Go? || suffix !in old(disk.links))
              && disk.fates(old(disk.ops) + 2).Go? && disk.fates(old(disk.ops) + 3).Go?
              && disk.fates(old(disk.ops) + 4).Go?
    ensures !done ==> disk.dirs == old(disk.dirs)
    ensures disk.Lucky() ==>
      && done && disk.alive && Releases(disk.dirs) == Newest(Releases(old(disk.dirs)))
      && disk.links == old(disk.links) - {suffix}
  {
    ghost var before := disk.dirs;
    var ok := disk.Attempt();
    if !ok {
      return false;
    }
    ok := disk.MakeLink(suffix, release);
    if !ok {
      return false;
    }
    ok := disk.Activate(suffix);
    if !ok {
      if disk.alive {
        disk.RemoveLink(suffix);
      }
      return false;
    }
    ok := disk.Attempt();
    if !ok {
      return false;
    }
    var _ := PruneReleases(disk, RETAINED_RELEASES);
    if disk.Lucky() {
      PrunedReleases(before, disk.dirs);
    }
    return true;
  }

  /** What a complete pruning leaves of a set of releases: those that at most two others sort above. */
  function Newest(releases: set<string>): set<string> {
    set n | n in releases && Retained(releases, 3, n)
  }

  /**
   * The guard of a run: its release name is taken, and then the rename refuses, or fewer than three of the
   * releases there would sort above it, and then pruning spares it.
   */
  predicate RunIsSafe(releases: set<string>, release: string) {
    release in releases || Retained(releases + {release}, RETAINED_RELEASES, release)
  }

  /** `current` names a release, and one that is complete. */
  predicate Serving(dirs: map<string, Dir>, current: Option<string>, editions: seq<string>) {
    CurrentComplete(dirs, current, editions) && (current.Some? ==> IsRelease(current.value))
  }

  /**
   * updateBundle on any disk. Under the guard, wherever it stops, `current` still resolves to a complete
   * release: the old one, untouched, or the new one. The guard is exact: a run without faults keeps `current`
   * complete if and only if the guard holds; otherwise it ends with `current` naming what it just pruned.
   */
  method UpdateBundle(disk: Disk, editions: seq<string>, suffix: string, t: Stamp) returns (r: RunResult)
    requires disk.alive
    modifies disk
    ensures old(Serving(disk.dirs, disk.current, editions))
            && RunIsSafe(Releases(old(disk.dirs)), ReleaseName(t, suffix)) ==>
      Serving(disk.dirs, disk.current, editions)
    ensures Releases(disk.dirs) <= Releases(old(disk.dirs)) + {ReleaseName(t, suffix)}
    ensures disk.current == old(disk.current) || disk.current == Some(ReleaseName(t, suffix))
    ensures old(Serving(disk.dirs, disk.current, editions))
            && disk.current == old(disk.current) && disk.current.Some? ==>
      disk.current.value in disk.dirs && disk.dirs[disk.current.value] == old(disk.dirs)[disk.current.value]
    ensures r.Activated? ==> disk.current == Some(ReleaseName(t, suffix))
    ensures r.Crashed? <==> !disk.alive
    // what is not a release is never removed, not even what a crashed run has left; nor is a retained release
    ensures forall n | n in old(disk.dirs)
                       && (!IsRelease(n)
                           || Retained(Releases(old(disk.dirs)) + {ReleaseName(t, suffix)}, 3, n)) ::
              n in disk.dirs && disk.dirs[n] == old(disk.dirs)[n]
    ensures disk.links - {suffix} == old(disk.links) - {suffix}
    ensures DiesAfterStaging(disk, old(disk.ops)) && StagingName(suffix) !in old(disk.dirs) ==>
      r.Crashed? && StagingName(suffix) in disk.dirs
    // without faults it activates and retains exactly the newest releases, unless the name is taken
    ensures FaultFree(disk, old(disk.dirs), suffix, editions) ==>
      && LeavesNoStaging(old(disk.dirs), disk.dirs)
      && if ReleaseName(t, suffix) in old(disk.dirs) then
           && r.FailedRun? && disk.current == old(disk.current) && disk.links == old(disk.links)
           && Releases(disk.dirs) == Releases(old(disk.dirs))
         else
           && r.Activated? && disk.links == old(disk.links) - {suffix}
           && Releases(disk.dirs) == Newest(Releases(old(disk.dirs)) + {ReleaseName(t, suffix)})
    ensures FaultFree(disk, old(disk.dirs), suffix, editions) && old(Serving(disk.dirs, disk.current, editions)) ==>
      (Serving(disk.dirs, disk.current, editions) <==> RunIsSafe(Releases(old(disk.dirs)), ReleaseName(t, suffix)))
    ensures FaultFree(disk, old(disk.dirs), suffix, editions) ==>
      || RunIsSafe(Releases(old(disk.dirs)), ReleaseName(t, suffix))
      || (disk.current == Some(ReleaseName(t, suffix)) && ReleaseName(t, suffix) !in disk.dirs)
  {
    ReleaseNameIsRelease(t, suffix);
    ghost var start := disk.dirs;
    var release := ReleaseName(t, suffix);
    assert release in start <==> release in Releases(start);
    var stopped := PublishRelease(disk, editions, suffix, t);
    if stopped {
      return if disk.alive then FailedRun else Crashed;
    }
    ghost var published := disk.dirs;
    var done := ActivateRelease(disk, release, suffix);
    assert Releases(disk.dirs) <= Releases(published);
    assert release in disk.dirs <==> release in Releases(disk.dirs);
    r := if !disk.alive then Crashed else if done then Activated else FailedRun;
  }

  lemma PrunedReleases(before: map<string, Dir>, after: map<string, Dir>)
    requires forall n | n in before && Spared(before, RETAINED_RELEASES, n) :: n in after
    requires forall n | n in after :: n in before && Spared(before, RETAINED_RELEASES, n)
    ensures Releases(after) == Newest(Releases(before))
  {
  }

  // ---------------------------------------------------------------- any number of runs

  /** An updater run, or an operator pointing `current` at another complete release between runs. */
  datatype Operation = Update(suffix: string, stamp: Stamp) | Rollback(release: string)

  /** The releases an operation may add. */
  function Adds(op: Operation): set<string> {
    if op.Update? then {ReleaseName(op.stamp, op.suffix)} else {}
  }

  /** `at[i]` are the releases before operation i, `at[|ops|]` those at the end; operations add only their own. */
  ghost predicate History(at: seq<set<string>>, ops: seq<Operation>) {
    && |at| == |ops| + 1 && at[0] == {}
    && forall i | 0 <= i < |ops| :: at[i + 1] <= at[i] + Adds(ops[i])
  }

  /** An operation meets its guard; a rollback has none. */
  predicate IsSafe(releases: set<string>, op: Operation) {
    op.Update? ==> RunIsSafe(releases, ReleaseName(op.stamp, op.suffix))
  }

  predicate AllSafe(at: seq<set<string>>, ops: seq<Operation>)
    requires |at| == |ops| + 1
  {
    forall i | 0 <= i < |ops| :: IsSafe(at[i], ops[i])
  }

  /** The clock increases from run to run. */
  ghost predicate ClockIncreases(ops: seq<Operation>) {
    && (forall i | 0 <= i < |ops| && ops[i].Update? :: Printable(ops[i].stamp))
    && (forall i, j | 0 <= i < j < |ops| && ops[i].Update? && ops[j].Update? :: Before(ops[i].stamp, ops[j].stamp))
  }

  /** Whatever is on disk before operation i was added by an earlier one. */
  lemma {:induction false} AddedEarlier(at: seq<set<string>>, ops: seq<Operation>, i: nat, n: string)
    requires History(at, ops) && i <= |ops| && n in at[i]
    ensures exists j :: 0 <= j < i && n in Adds(ops[j])
  {
    if i > 0 {
      assert at[i - 1 + 1] <= at[i - 1] + Adds(ops[i - 1]);
      if n !in Adds(ops[i - 1]) {
        AddedEarlier(at, ops, i - 1, n);
      }
    }
  }

  /** Under an increasing clock every run meets its guard, however earlier runs failed or crashed. */
  lemma IncreasingClockIsSafe(at: seq<set<string>>, ops: seq<Operation>)
    requires History(at, ops) && ClockIncreases(ops)
    ensures AllSafe(at, ops)
  {
    forall i | 0 <= i < |ops| && ops[i].Update? ensures IsSafe(at[i], ops[i]) {
      var release := ReleaseName(ops[i].stamp, ops[i].suffix);
      forall m | m in at[i] + {release} && m != release ensures Less(m, release) {
        AddedEarlier(at, ops, i, m);
        var j :| 0 <= j < i && m in Adds(ops[j]);
        NamesOrder(ops[j].stamp, ops[j].suffix, ops[i].stamp, ops[i].suffix);
      }
      NewestIsRetained(at[i] + {release}, RETAINED_RELEASES, release);
    }
  }

  /** What an operation does when nothing fails: an update adds its release, unless the name is taken. */
  function After(releases: set<string>, op: Operation): set<string> {
    match op
    case Rollback(_) => releases
    case Update(suffix, stamp) =>
      var release := ReleaseName(stamp, suffix);
      if release in releases then releases else Newest(releases + {release})
  }

  /** One operation, whatever state the last one, or its crash, has left. */
  method Operate(disk: Disk, editions: seq<string>, op: Operation)
    modifies disk
    ensures op.Rollback? ==>
      && disk.dirs == old(disk.dirs) && disk.links == old(disk.links)
      && disk.current == if op.release in old(disk.dirs) && IsRelease(op.release)
                            && Complete(old(disk.dirs)[op.release], editions)
                         then Some(op.release) else old(disk.current)
    ensures op.Update? && FaultFree(disk, old(disk.dirs), op.suffix, editions) ==>
      && LeavesNoStaging(old(disk.dirs), disk.dirs)
      && Releases(disk.dirs) == After(Releases(old(disk.dirs)), op)
      && disk.current == if ReleaseName(op.stamp, op.suffix) in old(disk.dirs) then old(disk.current)
                         else Some(ReleaseName(op.stamp, op.suffix))
    ensures Releases(disk.dirs) <= Releases(old(disk.dirs)) + Adds(op)
    ensures forall n | n in old(disk.dirs) && !IsRelease(n) :: n in disk.dirs && disk.dirs[n] == old(disk.dirs)[n]
    ensures old(Serving(disk.dirs, disk.current, editions)) && IsSafe(Releases(old(disk.dirs)), op) ==>
      Serving(disk.dirs, disk.current, editions)
  {
    match op {
      case Update(suffix, stamp) =>
        disk.alive := true;
        ReleaseNameIsRelease(stamp, suffix);
        var _ := UpdateBundle(disk, editions, suffix, stamp);
      case Rollback(release) =>
        if release in disk.dirs && IsRelease(release) && Complete(disk.dirs[release], editions) {
          disk.current := Some(release);
        }
    }
  }

  /** Every operation did what it does when nothing fails, and the last run, if its name was new, is `current`. */
  ghost predicate AsPlanned(at: seq<set<string>>, ops: seq<Operation>, current: Option<string>) {
    && |at| == |ops| + 1
    && (forall i | 0 <= i < |ops| :: at[i + 1] == After(at[i], ops[i]))
    && (ops != [] && ops[|ops| - 1].Update? ==>
          var release := ReleaseName(ops[|ops| - 1].stamp, ops[|ops| - 1].suffix);
          release in at[|ops| - 1] || current == Some(release))
  }

  ghost predicate OnlyReleases(dirs: map<string, Dir>) {
    forall n | n in dirs :: IsRelease(n)
  }

  /** What holds between operations: the history so far, and what it means for `current`. */
  ghost predicate Underway(disk: Disk, editions: seq<string>, at: seq<set<string>>, done: seq<Operation>)
    reads disk
  {
    && History(at, done) && at[|done|] == Releases(disk.dirs)
    && (AllSafe(at, done) ==> Serving(disk.dirs, disk.current, editions))
    && (disk.Lucky() && Distinct(editions) ==> OnlyReleases(disk.dirs) && AsPlanned(at, done, disk.current))
  }

  lemma HistoryExtends(at: seq<set<string>>, done: seq<Operation>, op: Operation, next: set<string>)
    requires History(at, done) && next <= at[|done|] + Adds(op)
    ensures History(at + [next], done + [op])
    ensures AllSafe(at + [next], done + [op]) <==> AllSafe(at, done) && IsSafe(at[|done|], op)
  {
    var longer, ops := at + [next], done + [op];
    forall i | 0 <= i < |ops| ensures longer[i + 1] <= longer[i] + Adds(ops[i]) {
      if i < |done| {
        assert at[i + 1] <= at[i] + Adds(done[i]);
      }
    }
    SafeSplits(at, done, op, next);
  }

  lemma SafeSplits(at: seq<set<string>>, done: seq<Operation>, op: Operation, next: set<string>)
    requires |at| == |done| + 1
    ensures AllSafe(at + [next], done + [op]) <==> AllSafe(at, done) && IsSafe(at[|done|], op)
  {
    var longer, ops := at + [next], done + [op];
    forall i | 0 <= i < |done| ensures IsSafe(longer[i], ops[i]) <==> IsSafe(at[i], done[i]) {
      assert longer[i] == at[i] && ops[i] == done[i];
    }
    assert longer[|done|] == at[|done|] && ops[|done|] == op;
  }

  /** One more operation of a campaign. */
  method Step(disk: Disk, editions: seq<string>, done: seq<Operation>, op: Operation, ghost at: seq<set<string>>)
    returns (ghost longer: seq<set<string>>)
    requires Underway(disk, editions, at, done)
    modifies disk
    ensures Underway(disk, editions, longer, done + [op])
  {
    if op.Update? {
      ReleaseNameIsRelease(op.stamp, op.suffix);
      assert ReleaseName(op.stamp, op.suffix) in disk.dirs <==> ReleaseName(op.stamp, op.suffix) in at[|done|];
    }
    Operate(disk, editions, op);
    longer := at + [Releases(disk.dirs)];
    HistoryExtends(at, done, op, Releases(disk.dirs));
  }

  /**
   * From an empty disk, through any sequence of runs and rollbacks, each run failing or crashing at any system
   * call: if every run meets its guard, and so whenever the clock increases, `current`, once set, resolves to
   * an existing release with every edition verified.
   */
  method Campaign(fates: nat -> Fate, editions: seq<string>, operations: seq<Operation>)
    returns (disk: Disk, ghost at: seq<set<string>>)
    ensures fresh(disk) && History(at, operations) && at[|operations|] == Releases(disk.dirs)
    ensures (AllSafe(at, operations) || ClockIncreases(operations)) && disk.current.Some? ==>
      && disk.current.value in disk.dirs
      && forall e | e in editions ::
           e in disk.dirs[disk.current.value] && disk.dirs[disk.current.value][e].Verified?
    // without faults each run adds its release and prunes, and `current` is the last run's
    ensures (forall k: nat :: fates(k).Go?) && Distinct(editions) ==> AsPlanned(at, operations, disk.current)
  {
    disk := new Disk(fates);
    at := [{}];
    assert Releases(disk.dirs) == {};
    for i := 0 to |operations|
      invariant fresh(disk) && Underway(disk, editions, at, operations[..i])
    {
      at := Step(disk, editions, operations[..i], operations[i], at);
      assert operations[..i] + [operations[i]] == operations[..i + 1];
    }
    assert operations[..|operations|] == operations;
    if ClockIncreases(operations) {
      IncreasingClockIsSafe(at, operations);
    }
  }

  /**
   * A run that dies right after making its staging directory leaves it behind for good: it is still there after
   * any later runs and rollbacks, whatever happens to them.
   */
  method CrashLeavesStaging(
      disk: Disk, editions: seq<string>, suffix: string, t: Stamp, later: seq<Operation>)
    requires disk.alive && DiesAfterStaging(disk, disk.ops) && StagingName(suffix) !in disk.dirs
    modifies disk
    ensures StagingName(suffix) in disk.dirs
  {
    ReleaseNameIsRelease(t, suffix);
    var _ := UpdateBundle(disk, editions, suffix, t);
    for i := 0 to |later|
      invariant StagingName(suffix) in disk.dirs
    {
      Operate(disk, editions, later[i]);
    }
  }
}
