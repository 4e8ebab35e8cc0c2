/**
 `computeDryRunDiff` and `ExecutePlan`: staging, then either the diff or merge and cleanup.
 */
module Engine {
  import opened Options
  import opened Paths
  import opened FileTree
  import opened Walk
  import opened Excludes
  import opened Staging
  import opened Overlay
  import opened Effects
  import opened Merge
  import opened OrphanWalk

  datatype Diff = Diff(added: seq<Path>, modified: seq<Path>, deleted: seq<Path>)

  datatype Plan = Plan(mappings: seq<Mapping>, excludes: seq<string>, dryRun: bool)

  datatype SyncResult = Failed | Synced(added: nat, modified: nat, deleted: nat, diff: Option<Diff>)

  // ----- Dry run -----

  /** `s` enumerates `xs` without repetition. */
  ghost predicate Lists(s: seq<Path>, xs: set<Path>) {
    |s| == |xs| && forall p :: p in s <==> p in xs
  }

  lemma ListsStep(s: seq<Path>, xs: set<Path>, done: set<Path>, p: Path)
    requires Lists(s, xs * done) && p !in done
    ensures Lists(if p in xs then s + [p] else s, xs * (done + {p}))
  {
    GoneStep(xs, done, p);
  }

  lemma ListsAll(s: seq<Path>, xs: set<Path>, done: set<Path>)
    requires Lists(s, xs * done) && xs <= done
    ensures Lists(s, xs)
  {
    assert xs * done == xs;
  }

  method DiffStaged(hash: Content -> string, s: Tree, live: Tree) returns (added: seq<Path>, modified: seq<Path>)
    requires CollisionFree(hash) && WellFormed(s)
    ensures Lists(added, AddedFiles(s, live)) && Lists(modified, ModifiedFiles(s, live))
  {
    ghost var adds, mods, done := AddedFiles(s, live), ModifiedFiles(s, live), {};
    added, modified := [], [];
    var pending := Kids(s, []);
    WalkStart(s, DirsIn(s));
    assert adds * {} == {} && mods * {} == {};
    while pending != {}
      invariant WalkInv(s, DirsIn(s), pending, done)
      invariant Lists(added, adds * done) && Lists(modified, mods * done)
      decreases s.Keys - done
    {
      var p :| p in pending;
      VisitsStaged(s, pending, done, p);
      ListsStep(added, adds, done, p);
      ListsStep(modified, mods, done, p);
      WalkStep(s, DirsIn(s), pending, done, p);
      if s[p].File? {
        if IsMissing(live, p) {
          added := added + [p];
        } else if !FilesEqual(hash, s[p].content, live, p) {
          modified := modified + [p];
        }
      }
      pending := Advance(s, pending, p, s[p].Dir?);
      done := done + {p};
    }
    MergedWhole(s, done);
    ListsAll(added, adds, done);
    ListsAll(modified, mods, done);
  }

  method DiffOrphans(r: Rules, roots: set<string>, s: Tree, live: Tree) returns (deleted: seq<Path>)
    requires WellFormed(live)
    ensures Lists(deleted, Orphans(r, roots, live, s))
  {
    ghost var open, orphans, done := OpenLive(r, roots, live), Orphans(r, roots, live, s), {};
    deleted := [];
    var pending := Kids(live, []);
    WalkStart(live, open);
    assert orphans * {} == {};
    while pending != {}
      invariant WalkInv(live, open, pending, done)
      invariant Lists(deleted, orphans * done)
      decreases live.Keys - done
    {
      var p :| p in pending;
      assert Sound(live, open, done, p);
      VisitedOrphan(r, roots, live, s, done, p);
      ListsStep(deleted, orphans, done, p);
      WalkStep(live, open, pending, done, p);
      var enter, candidate := Inspect(r, roots, p, live[p]);
      if candidate && IsMissing(s, p) {
        deleted := deleted + [p];
      }
      pending := Advance(live, pending, p, enter);
      done := done + {p};
    }
    AllOrphansVisited(r, roots, live, s, done);
    ListsAll(deleted, orphans, done);
  }

  // ----- The whole run -----

  ghost function Roots(ms: seq<Mapping>): (roots: set<string>) {
    set i | 0 <= i < |ms| :: ms[i].destination
  }

  method ComputeManagedRoots(ms: seq<Mapping>) returns (roots: set<string>)
    ensures roots == Roots(ms)
  {
    roots := {};
    for i := 0 to |ms|
      invariant roots == set j | 0 <= j < i :: ms[j].destination
    {
      roots := roots + {ms[i].destination};
    }
  }

  /** The rules a plan runs under: its excludes merged with the fixed ones. */
  ghost function RulesOf(glob: Glob, hash: Content -> string, plan: Plan): (r: Rules) {
    Rules(glob, hash, Distinct(Offered(plan.excludes)))
  }

  /** The report of a successful run, live or dry, counts the three sets; a dry run lists them too. */
  ghost predicate Reports(result: SyncResult, dryRun: bool, r: Rules, roots: set<string>, live: Tree, s: Tree) {
    && result.Synced?
    && result.added == |AddedFiles(s, live)|
    && result.modified == |ModifiedFiles(s, live)|
    && result.deleted == |Orphans(r, roots, live, s)|
    && (result.diff.Some? <==> dryRun)
    && (dryRun ==>
          && Lists(result.diff.value.added, AddedFiles(s, live))
          && Lists(result.diff.value.modified, ModifiedFiles(s, live))
          && Lists(result.diff.value.deleted, Orphans(r, roots, live, s)))
  }

  method ComputeDryRunDiff(r: Rules, roots: set<string>, disk: Disk) returns (result: SyncResult)
    requires CollisionFree(r.hash) && WellFormed(disk.staging) && WellFormed(disk.live)
    ensures Reports(result, true, r, roots, disk.live, disk.staging)
  {
    var added, modified := DiffStaged(r.hash, disk.staging, disk.live);
    var deleted := DiffOrphans(r, roots, disk.staging, disk.live);
    result := Synced(|added|, |modified|, |deleted|, Some(Diff(added, modified, deleted)));
  }

  method Publish(r: Rules, roots: set<string>, disk: Disk) returns (result: SyncResult)
    requires CollisionFree(r.hash) && WellFormed(disk.live) && WellFormed(disk.staging)
    requires NoLinks(disk.staging) && NoLinkAt(disk.staging, disk.live)
    modifies disk`live
    ensures result.Synced? <==> Compatible(old(disk.live), disk.staging)
    ensures WellFormed(disk.live)
    ensures result.Synced? ==> disk.live == Effect(r, roots, old(disk.live), disk.staging)
    ensures result.Synced? ==> Reports(result, false, r, roots, old(disk.live), disk.staging)
    ensures result.Failed? ==> PartlyMerged(old(disk.live), disk.staging, disk.live)
  {
    ghost var live0 := disk.live;
    var merged, added, modified := MergeStagingToLive(r.hash, disk);
    if !merged {
      return Failed;
    }
    EffectWellFormed(r, roots, live0, disk.staging);
    OrphansBeforeMerge(r, roots, live0, disk.staging);
    var deleted := CleanOrphans(r, roots, disk);
    result := Synced(added, modified, deleted, None);
  }

  /** What a run of mappings `ms` does, case by case, from live tree `live0` to `live`. */
  ghost predicate Outcome(r: Rules, ms: seq<Mapping>, dryRun: bool, live0: Tree, live: Tree, result: SyncResult) {
    var s, roots := Overlaid(r, ms), Roots(ms);
    if !StagingSucceeds(r, ms) then
      result.Failed? && live == live0
    else if dryRun then
      Reports(result, true, r, roots, live0, s) && live == live0
    else if Compatible(live0, s) then
      Reports(result, false, r, roots, live0, s) && live == Effect(r, roots, live0, s)
    else
      result.Failed? && PartlyMerged(live0, s, live)
  }

  /** What a run asks of live: no symbolic link where it would write. */
  ghost predicate WritesNoLink(r: Rules, ms: seq<Mapping>, dryRun: bool, live: Tree) {
    StagingSucceeds(r, ms) && !dryRun ==> NoLinkAt(Overlaid(r, ms), live)
  }

  method Execute(r: Rules, ms: seq<Mapping>, dryRun: bool, disk: Disk) returns (result: SyncResult)
    requires CollisionFree(r.hash) && ValidMappings(ms) && WellFormed(disk.live)
    requires WritesNoLink(r, ms, dryRun, disk.live)
    modifies disk
    ensures Outcome(r, ms, dryRun, old(disk.live), disk.live, result)
    ensures WellFormed(disk.live) && (result.Synced? ==> disk.staging == map[])
  {
    var staged := BuildStaging(r, ms, disk);
    if !staged {
      return Failed;
    }
    var roots := ComputeManagedRoots(ms);
    if dryRun {
      result := ComputeDryRunDiff(r, roots, disk);
    } else {
      result := Publish(r, roots, disk);
      if result.Failed? {
        return;
      }
    }
    disk.staging := map[];
  }

  /** Whatever the staging directory held before has no influence on the outcome. */
  method ExecutePlan(glob: Glob, hash: Content -> string, plan: Plan, disk: Disk) returns (result: SyncResult)
    requires CollisionFree(hash) && ValidMappings(plan.mappings) && WellFormed(disk.live)
    requires WritesNoLink(RulesOf(glob, hash, plan), plan.mappings, plan.dryRun, disk.live)
    modifies disk
    ensures Outcome(RulesOf(glob, hash, plan), plan.mappings, plan.dryRun, old(disk.live), disk.live, result)
    ensures WellFormed(disk.live) && (result.Synced? ==> disk.staging == map[])
  {
    var excludes := MergeExcludes(plan.excludes);
    result := Execute(Rules(glob, hash, excludes), plan.mappings, plan.dryRun, disk);
  }

  // ----- Consequences for plans -----

  /** What a plan skips: what matches one of its own patterns, trimmed, or one of the three fixed ones. */
  lemma SkipIff(glob: Glob, hash: Content -> string, plan: Plan, path: string)
    ensures Skip(RulesOf(glob, hash, plan), path) <==>
            || (exists i :: 0 <= i < |plan.excludes| && TrimSpace(plan.excludes[i]) != "" && glob(TrimSpace(plan.excludes[i]), path))
            || glob("**/.sync-staging/**", path) || glob("**/.resources/**", path) || glob("**/.resources", path)
  {
    MergePreservesMatching(glob, plan.excludes, path);
    if Matches(glob, HARDCODED, path) {
      assert glob(HARDCODED[0], path);
    }
    if glob("**/.sync-staging/**", path) {
      assert glob(HARDCODED[0], path);
    }
    if glob("**/.resources/**", path) {
      assert glob(PROTECTED[0], path);
    }
    if glob("**/.resources", path) {
      assert glob(PROTECTED[1], path);
    }
  }

  /** A directory mapping without its source, or a file mapping that is not skipped and whose source is no
      file, aborts the run, live or dry, with live untouched. */
  lemma BrokenSourceAborts(r: Rules, ms: seq<Mapping>, dryRun: bool, live0: Tree, live: Tree, result: SyncResult, i: nat)
    requires Outcome(r, ms, dryRun, live0, live, result) && i < |ms|
    requires if ms[i].isFile then !Skip(r, ms[i].destination) && !ms[i].source.SourceFile? else ms[i].source.Missing?
    ensures result.Failed? && live == live0
  {
    assert !Stageable(r, ms[i]);
  }

  /** A run succeeds exactly when no mapping is defective, no two clash in staging and, for a live run, no
      staged entry clashes with live. */
  lemma SucceedsIff(r: Rules, ms: seq<Mapping>, dryRun: bool, live0: Tree, live: Tree, result: SyncResult)
    requires ValidMappings(ms) && Outcome(r, ms, dryRun, live0, live, result)
    ensures result.Synced? <==>
            && (forall i :: 0 <= i < |ms| ==> !Defective(r, ms[i]))
            && (forall i: nat, j: nat, p :: !Clash(r, ms, i, j, p))
            && (dryRun || Compatible(live0, Overlaid(r, ms)))
    ensures dryRun ==> live == live0
  {
    StagingFailsIff(r, ms);
  }

  /** Dry run and live run of the same plan from the same live tree report the same counts, and the
      dry run's lists are exactly what the live run adds, rewrites and deletes. */
  lemma DryRunAgreesWithLiveRun(r: Rules, ms: seq<Mapping>, live0: Tree, live: Tree, dry: SyncResult, wet: SyncResult)
    requires ValidMappings(ms) && WellFormed(live0) && NoLinkAt(Overlaid(r, ms), live0)
    requires Outcome(r, ms, true, live0, live0, dry) && Outcome(r, ms, false, live0, live, wet) && wet.Synced?
    ensures dry.Synced? && dry.(diff := None) == wet
    ensures dry.diff.Some?
    ensures Lists(dry.diff.value.added, Files(live) - Files(live0))
    ensures Lists(dry.diff.value.deleted, Files(live0) - Files(live))
    ensures Lists(dry.diff.value.modified, set p | p in Files(live0) && p in Files(live) && live[p] != live0[p])
  {
    OverlaidWellFormed(r, ms);
    DryRunPredicts(r, Roots(ms), live0, Overlaid(r, ms));
  }

  /** Running a plan again on unchanged sources succeeds, reports nothing and changes no file. */
  lemma SecondRunChangesNothing(r: Rules, ms: seq<Mapping>, live0: Tree, live1: Tree, live2: Tree,
                                first: SyncResult, second: SyncResult)
    requires ValidMappings(ms) && WellFormed(live0) && NoLinkAt(Overlaid(r, ms), live0)
    requires Outcome(r, ms, false, live0, live1, first) && first.Synced?
    requires Outcome(r, ms, false, live1, live2, second)
    ensures second == Synced(0, 0, 0, None)
    ensures Files(live2) == Files(live1) && forall p :: p in Files(live1) ==> live2[p] == live1[p]
  {
    OverlaidWellFormed(r, ms);
    Idempotence(r, Roots(ms), live0, Overlaid(r, ms));
  }

  /** File count after a live run. */
  lemma LiveRunConservesCount(r: Rules, ms: seq<Mapping>, live0: Tree, live: Tree, result: SyncResult)
    requires ValidMappings(ms) && WellFormed(live0) && NoLinkAt(Overlaid(r, ms), live0)
    requires Outcome(r, ms, false, live0, live, result) && result.Synced?
    ensures |Files(live)| == |Files(live0)| + result.added - result.deleted
  {
    OverlaidWellFormed(r, ms);
    Conservation(r, Roots(ms), live0, Overlaid(r, ms));
  }

  lemma RootOfManaged(ms: seq<Mapping>, p: Path) returns (i: nat)
    requires ValidPath(p) && Managed(p, Roots(ms))
    ensures i < |ms| && Canonical(ms[i].destination) && Dest(ms[i]) <= p
  {
    var k :| 1 <= k <= |p| && Render(p[..k]) in Roots(ms);
    i :| 0 <= i < |ms| && ms[i].destination == Render(p[..k]);
    assert ValidPath(p[..k]);
    CleanRender(p[..k]);
  }

  lemma BelowCanonical(ms: seq<Mapping>, p: Path, i: nat)
    requires i < |ms| && Canonical(ms[i].destination) && Dest(ms[i]) <= p
    ensures Managed(p, Roots(ms))
  {
    var d :| ValidPath(d) && Render(d) == ms[i].destination;
    CleanRender(d);
    assert p[..|d|] == d;
    assert ms[i].destination in Roots(ms);
  }

  /** What a plan manages: exactly the paths at or below its canonically spelt destinations. */
  lemma ManagedIff(ms: seq<Mapping>, p: Path)
    requires ValidPath(p)
    ensures Managed(p, Roots(ms)) <==> exists i :: 0 <= i < |ms| && Canonical(ms[i].destination) && Dest(ms[i]) <= p
  {
    if Managed(p, Roots(ms)) {
      var i := RootOfManaged(ms, p);
    }
    if exists i :: 0 <= i < |ms| && Canonical(ms[i].destination) && Dest(ms[i]) <= p {
      var i :| 0 <= i < |ms| && Canonical(ms[i].destination) && Dest(ms[i]) <= p;
      BelowCanonical(ms, p, i);
    }
  }

  lemma StagedBelowDestination(r: Rules, ms: seq<Mapping>, p: Path) returns (i: nat)
    requires ValidMappings(ms) && StagingSucceeds(r, ms) && p in Files(Overlaid(r, ms))
    ensures i < |ms| && Dest(ms[i]) <= p
  {
    OrderedOverlay(r, ms, p);
    i :| 0 <= i < |ms| && Contributes(r, ms[i], p);
  }

  /** A live run never touches a file outside every mapping's destination. */
  lemma OutsideDestinations(r: Rules, ms: seq<Mapping>, live: Tree, after: Tree, result: SyncResult, p: Path)
    requires ValidMappings(ms) && WellFormed(live) && NoLinkAt(Overlaid(r, ms), live)
    requires Outcome(r, ms, false, live, after, result) && result.Synced?
    requires p in Files(live) && forall i :: 0 <= i < |ms| ==> !(Dest(ms[i]) <= p)
    ensures p in after && after[p] == live[p]
  {
    OverlaidWellFormed(r, ms);
    var s := Overlaid(r, ms);
    if p in s {
      assert live[p].Dir? <==> s[p].Dir?;
      var i := StagedBelowDestination(r, ms, p);
      assert false;
    }
    if Managed(p, Roots(ms)) {
      var i := RootOfManaged(ms, p);
      assert false;
    }
    UnmanagedUntouched(r, Roots(ms), live, s, p);
    assert p in Files(Effect(r, Roots(ms), live, s));
  }

  /** A plan none of whose destinations is canonical deletes nothing. */
  lemma NoCanonicalDeletesNothing(r: Rules, ms: seq<Mapping>, t: Tree, s: Tree)
    requires WellFormed(t) && forall i :: 0 <= i < |ms| ==> !Canonical(ms[i].destination)
    ensures Orphans(r, Roots(ms), t, s) == {}
  {
    forall p | p in t
      ensures !Managed(p, Roots(ms))
    {
      ManagedIff(ms, p);
    }
  }

  /** The plan's cleanup covers `p`: it lies at or below a canonical destination and no part is skipped. */
  ghost predicate Covers(r: Rules, ms: seq<Mapping>, p: Path) {
    ValidPath(p) && !Blocked(r, p) && exists i :: 0 <= i < |ms| && Canonical(ms[i].destination) && Dest(ms[i]) <= p
  }

  lemma CoveredIsOrphan(r: Rules, ms: seq<Mapping>, p: Path) returns (t: Tree)
    requires Covers(r, ms, p)
    ensures WellFormed(t) && p in Orphans(r, Roots(ms), t, map[])
  {
    ManagedIff(ms, p);
    t := Put(map[], p, "");
    PutWellFormed(map[], p, "");
  }

  /** Exactly which paths a plan can delete: `p` is an orphan of some live and staging tree if and only if
      the plan covers it. */
  lemma DeletesIff(r: Rules, ms: seq<Mapping>, p: Path)
    ensures (exists t: Tree, s: Tree :: WellFormed(t) && p in Orphans(r, Roots(ms), t, s)) <==> Covers(r, ms, p)
  {
    if Covers(r, ms, p) {
      var t := CoveredIsOrphan(r, ms, p);
    }
    if ValidPath(p) {
      ManagedIff(ms, p);
    }
  }

  /** In particular destinations with a trailing slash, `.` and the empty one. */
  lemma SlashDestinationsDeleteNothing(r: Rules, ms: seq<Mapping>, t: Tree, s: Tree)
    requires WellFormed(t)
    requires forall i :: 0 <= i < |ms| ==>
               var d := ms[i].destination; d == "" || d == "." || d[|d| - 1] == '/'
    ensures Orphans(r, Roots(ms), t, s) == {}
  {
    forall i | 0 <= i < |ms|
      ensures !Canonical(ms[i].destination)
    {
      forall p | ValidPath(p)
        ensures Render(p) != ms[i].destination
      {
        RenderEnds(p);
      }
    }
    NoCanonicalDeletesNothing(r, ms, t, s);
  }
}
