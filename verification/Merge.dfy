/** `mergeStagingToLive`: copies staging over live and counts what it wrote. */
module Merge {
  import opened Paths
  import opened FileTree
  import opened Walk
  import opened Effects

  function DirsIn(t: Tree): (r: set<Path>) {
    set p | p in t && t[p].Dir?
  }

  ghost function Only(s: Tree, done: set<Path>): (t: Tree) {
    map p | p in s && p in done :: s[p]
  }

  /** Some staging entries have been copied, nothing else changed. */
  ghost predicate PartlyMerged(live0: Tree, s: Tree, live: Tree) {
    WellFormed(live) && exists done :: done <= s.Keys && live == live0 + Only(s, done)
  }

  ghost predicate MergeInv(live0: Tree, s: Tree, done: set<Path>, live: Tree) {
    live == live0 + Only(s, done) && WellFormed(live) && Compatible(live0, Only(s, done))
  }

  lemma ParentsMerged(live0: Tree, s: Tree, done: set<Path>, live: Tree, p: Path)
    requires MergeInv(live0, s, done, live) && WellFormed(s) && p in s
    requires forall k :: 1 <= k < |p| ==> p[..k] in done
    ensures CanMkdirAll(live, Parent(p)) && WithDirs(live, Prefixes(Parent(p))) == live
  {
    forall q | q in Prefixes(Parent(p))
      ensures q in live && live[q].Dir?
    {
      var k :| 1 <= k <= |p| - 1 && q == Parent(p)[..k];
      assert q == p[..k];
      assert q in Only(s, done);
    }
  }

  lemma ParentsWereDirs(live0: Tree, s: Tree, done: set<Path>, p: Path)
    requires Compatible(live0, Only(s, done)) && WellFormed(s) && p in s
    requires forall k :: 1 <= k < |p| ==> p[..k] in done
    ensures IsMissing(live0, p) <==> p !in live0
  {
    forall q | q in Prefixes(Parent(p)) && q in live0
      ensures live0[q].Dir?
    {
      var k :| 1 <= k <= |p| - 1 && q == Parent(p)[..k];
      assert q == p[..k];
      assert q in Only(s, done);
    }
  }

  lemma MergeOne(live0: Tree, s: Tree, done: set<Path>, live: Tree, p: Path)
    requires MergeInv(live0, s, done, live) && WellFormed(live0) && WellFormed(s) && p in s && p !in done
    requires forall k :: 1 <= k < |p| ==> p[..k] in done
    requires p in live0 ==> (live0[p].Dir? <==> s[p].Dir?)
    ensures MergeInv(live0, s, done + {p}, live[p := s[p]])
  {
    var live' := live[p := s[p]];
    assert Only(s, done + {p}) == Only(s, done)[p := s[p]];
    forall q, k | q in live' && 1 <= k < |q|
      ensures q[..k] in live' && live'[q[..k]].Dir?
    {
      if q == p {
        assert p[..k] in Only(s, done);
      } else if q[..k] == p {
        assert q in live && p in live && live[p].Dir?;
        assert p in live0;
      }
    }
  }

  lemma MkdirIsInsert(live: Tree, p: Path)
    requires p != [] && WithDirs(live, Prefixes(Parent(p))) == live
    ensures WithDirs(live, Prefixes(p)) == live[p := Dir]
    ensures CanMkdirAll(live, Parent(p)) && !(p in live && !live[p].Dir?) ==> CanMkdirAll(live, p)
  {
    forall q
      ensures q in Prefixes(p) <==> q in Prefixes(Parent(p)) || q == p
    {
      if q in Prefixes(p) {
        var k :| 1 <= k <= |p| && q == p[..k];
        if k == |p| {
          assert p[..k] == p;
        } else {
          assert q == Parent(p)[..k];
        }
      }
      if q in Prefixes(Parent(p)) {
        var k :| 1 <= k <= |Parent(p)| && q == Parent(p)[..k];
        assert q == p[..k];
      }
      assert p[..|p|] == p;
    }
  }

  lemma CountOne(all: set<Path>, done: set<Path>, p: Path)
    requires p !in done
    ensures |all * (done + {p})| == |all * done| + if p in all then 1 else 0
  {
    if p in all {
      assert all * (done + {p}) == all * done + {p};
    } else {
      assert all * (done + {p}) == all * done;
    }
  }

  lemma MergedWhole(s: Tree, done: set<Path>)
    requires WellFormed(s) && WalkInv(s, DirsIn(s), {}, done)
    ensures done == s.Keys && Only(s, done) == s
  {
    WalkEnd(s, DirsIn(s), done);
    forall p | p in s
      ensures p in done
    {
      assert Reachable(s, DirsIn(s), p);
    }
    forall p | p in done
      ensures p in s
    {
      assert Sound(s, DirsIn(s), done, p);
    }
  }

  /** The callback for one staging entry; says whether it created or rewrote a file. */
  method MergeEntry(hash: Content -> string, disk: Disk, p: Path, ghost live0: Tree, ghost done: set<Path>)
    returns (ok: bool, created: bool, rewrote: bool)
    requires CollisionFree(hash) && WellFormed(disk.staging) && NoLinks(disk.staging) && NoLinkAt(disk.staging, live0)
    requires WellFormed(live0) && MergeInv(live0, disk.staging, done, disk.live)
    requires p in disk.staging && p !in done && forall k :: 1 <= k < |p| ==> p[..k] in done
    modifies disk`live
    ensures ok <==> (p in live0 ==> (live0[p].Dir? <==> disk.staging[p].Dir?))
    ensures ok ==> MergeInv(live0, disk.staging, done + {p}, disk.live)
    ensures !ok ==> disk.live == old(disk.live)
    ensures ok ==> (created <==> p in AddedFiles(disk.staging, live0))
    ensures ok ==> (rewrote <==> p in ModifiedFiles(disk.staging, live0))
  {
    var s, node := disk.staging, disk.staging[p];
    assert p in disk.live <==> p in live0;
    assert p in live0 ==> disk.live[p] == live0[p];
    ParentsMerged(live0, s, done, disk.live, p);
    ParentsWereDirs(live0, s, done, p);
    if p in live0 ==> (live0[p].Dir? <==> node.Dir?) {
      MergeOne(live0, s, done, disk.live, p);
    }
    if node.Dir? {
      MkdirIsInsert(disk.live, p);
      if !CanMkdirAll(disk.live, p) {
        return false, false, false;
      }
      assert p in Prefixes(p) by { assert p[..|p|] == p; }
      disk.live := WithDirs(disk.live, Prefixes(p));
      return true, false, false;
    }
    var existed := p in disk.live;
    var copied, written, t := CopyFile(hash, node.content, disk.live, p);
    disk.live := t;
    return copied, written && !existed, written && existed;
  }

  /** Added and modified so far. */
  ghost predicate Counted(live0: Tree, s: Tree, done: set<Path>, added: nat, modified: nat) {
    added == |AddedFiles(s, live0) * done| && modified == |ModifiedFiles(s, live0) * done|
  }

  lemma CountedStep(live0: Tree, s: Tree, done: set<Path>, p: Path, added: nat, modified: nat)
    requires Counted(live0, s, done, added, modified) && p !in done
    ensures Counted(live0, s, done + {p}, if p in AddedFiles(s, live0) then added + 1 else added,
                    if p in ModifiedFiles(s, live0) then modified + 1 else modified)
  {
    CountOne(AddedFiles(s, live0), done, p);
    CountOne(ModifiedFiles(s, live0), done, p);
  }

  lemma CountedAll(live0: Tree, s: Tree, added: nat, modified: nat)
    requires Counted(live0, s, s.Keys, added, modified)
    ensures added == |AddedFiles(s, live0)| && modified == |ModifiedFiles(s, live0)|
  {
    assert AddedFiles(s, live0) * s.Keys == AddedFiles(s, live0);
    assert ModifiedFiles(s, live0) * s.Keys == ModifiedFiles(s, live0);
  }

  lemma VisitsStaged(s: Tree, pending: set<Path>, done: set<Path>, p: Path)
    requires WalkInv(s, DirsIn(s), pending, done) && p in pending
    ensures p in s && p !in done && (forall k :: 1 <= k < |p| ==> p[..k] in done) && done <= s.Keys
  {
    assert Sound(s, DirsIn(s), done, p);
    forall q | q in done
      ensures q in s
    {
      assert Sound(s, DirsIn(s), done, q);
    }
  }

  method MergeStagingToLive(hash: Content -> string, disk: Disk) returns (ok: bool, added: nat, modified: nat)
    requires CollisionFree(hash) && WellFormed(disk.live) && WellFormed(disk.staging)
    requires NoLinks(disk.staging) && NoLinkAt(disk.staging, disk.live)
    modifies disk`live
    ensures ok <==> Compatible(old(disk.live), disk.staging)
    ensures WellFormed(disk.live)
    ensures ok ==> disk.live == old(disk.live) + disk.staging
    ensures ok ==> added == |AddedFiles(disk.staging, old(disk.live))|
    ensures ok ==> modified == |ModifiedFiles(disk.staging, old(disk.live))|
    ensures !ok ==> PartlyMerged(old(disk.live), disk.staging, disk.live)
  {
    var s := disk.staging;
    ghost var live0, done := disk.live, {};
    added, modified := 0, 0;
    var pending := Kids(s, []);
    WalkStart(s, DirsIn(s));
    assert live0 + Only(s, {}) == live0;
    while pending != {}
      invariant WalkInv(s, DirsIn(s), pending, done)
      invariant MergeInv(live0, s, done, disk.live)
      invariant Counted(live0, s, done, added, modified)
      decreases s.Keys - done
    {
      var p :| p in pending;
      VisitsStaged(s, pending, done, p);
      CountedStep(live0, s, done, p, added, modified);
      WalkStep(s, DirsIn(s), pending, done, p);
      var good, created, rewrote := MergeEntry(hash, disk, p, live0, done);
      if !good {
        return false, added, modified;
      }
      if rewrote {
        modified := modified + 1;
      }
      if created {
        added := added + 1;
      }
      pending := Advance(s, pending, p, s[p].Dir?);
      done := done + {p};
    }
    MergedWhole(s, done);
    CountedAll(live0, s, added, modified);
    return true, added, modified;
  }
}
