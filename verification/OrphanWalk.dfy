/**
 `cleanOrphans`: the pruned walk over live that deletes orphans and the directories they leave empty.
 The walk is proved exact against `Orphans` and `Emptied`, which know nothing of pruning or order.
 */
module OrphanWalk {
  import opened Paths
  import opened FileTree
  import opened Walk
  import opened Excludes
  import opened Staging
  import opened Effects

  // ----- Pruning -----

  ghost predicate Leads(q: Path, roots: set<string>) {
    Managed(q, roots) || exists root :: root in roots && AncestorOfRoot(Render(q), root)
  }

  /** Live directories the walk enters. */
  ghost function OpenLive(r: Rules, roots: set<string>, t: Tree): (s: set<Path>) {
    set q | q in t && t[q].Dir? && !Skip(r, Render(q)) && Leads(q, roots)
  }

  /** What the walk does at one live entry: enter a directory, or consider a file for deletion. */
  method Inspect(r: Rules, roots: set<string>, p: Path, node: Node) returns (enter: bool, candidate: bool)
    requires ValidPath(p)
    ensures enter <==> node.Dir? && !Skip(r, Render(p)) && Leads(p, roots)
    ensures candidate <==> node.File? && !Skip(r, Render(p)) && Managed(p, roots)
  {
    if node.Link? {
      return false, false;
    }
    var protected := IsProtected(r.glob, Render(p));
    var excluded := ShouldExclude(r.glob, Render(p), r.excludes);
    if protected || excluded {
      return false, false;
    }
    ManagedIsUnder(p, roots);
    var under := IsUnderManagedRoot(Render(p), roots);
    if !under {
      var above := IsAncestorOfManagedRoot(Render(p), roots);
      return node.Dir? && above, false;
    }
    return node.Dir?, node.File?;
  }

  /** Pruning loses nothing: exactly the candidates with no skipped ancestor are reached. */
  lemma CandidatesReached(r: Rules, roots: set<string>, t: Tree, p: Path)
    requires WellFormed(t) && p in t && t[p].File? && Managed(p, roots)
    ensures Reachable(t, OpenLive(r, roots, t), p) && !Skip(r, Render(p)) <==> !Blocked(r, p)
  {
    assert p[..|p|] == p;
    if !Blocked(r, p) {
      forall k | 1 <= k < |p|
        ensures p[..k] in OpenLive(r, roots, t)
      {
        AncestorsOfManaged(p, k, roots);
      }
    }
    if Reachable(t, OpenLive(r, roots, t), p) && !Skip(r, Render(p)) {
      forall k | 1 <= k <= |p|
        ensures !Skip(r, Render(p[..k]))
      {
        assert k < |p| ==> p[..k] in OpenLive(r, roots, t);
      }
    }
  }

  /** An entry of a finished or running walk is an orphan exactly when the callback says so. */
  lemma VisitedOrphan(r: Rules, roots: set<string>, t: Tree, s: Tree, done: set<Path>, p: Path)
    requires WellFormed(t) && Sound(t, OpenLive(r, roots, t), done, p)
    ensures p in Orphans(r, roots, t, s) <==>
            t[p].File? && !Skip(r, Render(p)) && Managed(p, roots) && IsMissing(s, p)
  {
    if t[p].File? && Managed(p, roots) {
      CandidatesReached(r, roots, t, p);
    }
  }

  lemma AllOrphansVisited(r: Rules, roots: set<string>, t: Tree, s: Tree, done: set<Path>)
    requires WellFormed(t) && WalkInv(t, OpenLive(r, roots, t), {}, done)
    ensures Orphans(r, roots, t, s) <= done
  {
    WalkEnd(t, OpenLive(r, roots, t), done);
    forall p | p in Orphans(r, roots, t, s)
      ensures p in done
    {
      CandidatesReached(r, roots, t, p);
    }
  }

  // ----- Removing directories left empty -----

  lemma RemoveLeaf(t: Tree, p: Path)
    requires WellFormed(t) && Kids(t, p) == {}
    ensures WellFormed(t - {p})
  {
    forall q, k | q in t - {p} && 1 <= k < |q|
      ensures q[..k] in t - {p}
    {
      assert q[..k] in t;
      if q[..k] == p {
        BelowNeedsKid(t, p, q);
        assert false;
      }
    }
  }

  lemma BelowNeedsKid(t: Tree, d: Path, q: Path)
    requires WellFormed(t) && q in t && d < q
    ensures Kids(t, d) != {}
  {
    var c := q[..|d| + 1];
    assert c in t by {
      assert |d| + 1 == |q| ==> c == q;
    }
    assert c[..|d|] == d;
    assert c in Kids(t, d);
  }

  lemma PrefixesNest(d: Path, q: Path, f: Path)
    requires d < q
    ensures q < f ==> d < f
  {
    assert q < f ==> f[..|d|] == q[..|d|];
  }

  lemma EmptiedGrows(roots: set<string>, t: Tree, gone: set<Path>, f: Path)
    ensures Emptied(roots, t, gone) <= Emptied(roots, t, gone + {f})
    ensures forall d :: d in Emptied(roots, t, gone + {f}) && !(d < f) ==> d in Emptied(roots, t, gone)
  {
    forall d | d in Emptied(roots, t, gone)
      ensures Drained(t, gone + {f}, d)
    {
      var g :| g in gone && d < g;
      assert g in gone + {f};
      forall q | q in t && d < q && t[q].Dir?
        ensures exists g :: g in gone + {f} && q < g
      {
        var h :| h in gone && q < h;
        assert h in gone + {f};
      }
    }
    forall d | d in Emptied(roots, t, gone + {f}) && !(d < f)
      ensures Drained(t, gone, d)
    {
      var g :| g in gone + {f} && d < g;
      assert g in gone;
      forall q | q in t && d < q && t[q].Dir?
        ensures exists g :: g in gone && q < g
      {
        var h :| h in gone + {f} && q < h;
        PrefixesNest(d, q, f);
        assert h in gone;
      }
    }
  }

  /** Proper prefixes of `f` longer than `n`. */
  ghost function Chain(f: Path, n: nat): (s: set<Path>) {
    set k | n < k < |f| :: f[..k]
  }

  /** `f` has just been deleted and the directories above it down to length `n` removed. */
  ghost predicate Removing(roots: set<string>, t: Tree, gone: set<Path>, f: Path, n: nat, live: Tree) {
    && n < |f| && WellFormed(live)
    && live == t - (gone + {f}) - (Emptied(roots, t, gone) + Chain(f, n))
    && Chain(f, n) <= Emptied(roots, t, gone + {f})
  }

  lemma DirAboveIsLive(roots: set<string>, t: Tree, gone: set<Path>, f: Path, n: nat, live: Tree)
    requires WellFormed(t) && gone <= Files(t) && f in Files(t) && f !in gone
    requires Removing(roots, t, gone, f, n, live) && n >= 1
    ensures f[..n] in live && live[f[..n]].Dir?
  {
    var d := f[..n];
    assert d in t && t[d].Dir? && d < f;
    assert d !in Emptied(roots, t, gone);
    assert forall k :: n < k < |f| ==> |f[..k]| == k;
  }

  lemma NoKidsIffDrained(roots: set<string>, t: Tree, gone: set<Path>, f: Path, n: nat, live: Tree)
    requires WellFormed(t) && gone <= Files(t) && f in Files(t) && f !in gone
    requires Removing(roots, t, gone, f, n, live) && n >= 1 && Managed(f[..n], roots)
    ensures Kids(live, f[..n]) == {} <==> f[..n] in Emptied(roots, t, gone + {f})
  {
    var d, gone' := f[..n], gone + {f};
    assert d in t && t[d].Dir? && d < f;
    if d in Emptied(roots, t, gone') {
      EmptiedGrows(roots, t, gone, f);
      forall q | q in t && d < q
        ensures q !in live
      {
        if q !in gone' {
          DrainedBelow(roots, t, gone', d, q);
          if q !in Emptied(roots, t, gone) {
            assert q == f[..|q|] && n < |q| < |f|;
          }
        }
      }
      assert forall q :: q in Kids(live, d) ==> d < q;
    }
    if Kids(live, d) == {} {
      assert f in gone' && d < f;
      forall q | q in t && d < q
        ensures (t[q].File? && q in gone') || (t[q].Dir? && exists g :: g in gone' && q < g)
      {
        if q in live {
          BelowNeedsKid(live, d, q);
          assert false;
        }
        if q !in gone' {
          EmptiedGrows(roots, t, gone, f);
          assert q in Emptied(roots, t, gone');
        }
      }
    }
  }

  lemma RemoveOneMore(roots: set<string>, t: Tree, gone: set<Path>, f: Path, n: nat, live: Tree)
    requires WellFormed(t) && gone <= Files(t) && f in Files(t) && f !in gone
    requires Removing(roots, t, gone, f, n, live) && n >= 1 && Managed(f[..n], roots)
    requires Kids(live, f[..n]) == {}
    ensures Removing(roots, t, gone, f, n - 1, live - {f[..n]})
  {
    NoKidsIffDrained(roots, t, gone, f, n, live);
    RemoveLeaf(live, f[..n]);
    ChainStep(f, n);
    var fewer := t - (gone + {f}) - (Emptied(roots, t, gone) + Chain(f, n - 1));
    assert live - {f[..n]} == fewer;
  }

  lemma ChainStep(f: Path, n: nat)
    requires 1 <= n < |f|
    ensures Chain(f, n - 1) == Chain(f, n) + {f[..n]}
  {
  }

  /** When the loop stops, exactly the directories of `Emptied` are gone. */
  lemma RemovalComplete(roots: set<string>, t: Tree, gone: set<Path>, f: Path, n: nat, live: Tree)
    requires WellFormed(t) && gone <= Files(t) && f in Files(t) && f !in gone
    requires Removing(roots, t, gone, f, n, live)
    requires n == 0 || !Managed(f[..n], roots) || Kids(live, f[..n]) != {}
    ensures live == Cleaned(roots, t, gone + {f})
  {
    var gone', d := gone + {f}, f[..n];
    EmptiedGrows(roots, t, gone, f);
    forall x | x in Emptied(roots, t, gone')
      ensures x in Emptied(roots, t, gone) + Chain(f, n)
    {
      if x !in Emptied(roots, t, gone) {
        assert x == f[..|x|];
        if |x| <= n {
          assert x <= d && x != [];
          ManagedExtends(x, d, roots);
          assert d in t && t[d].Dir?;
          if x != d {
            DrainedBelow(roots, t, gone', x, d);
          }
          NoKidsIffDrained(roots, t, gone, f, n, live);
          assert false;
        }
      }
    }
    assert Emptied(roots, t, gone') == Emptied(roots, t, gone) + Chain(f, n);
  }

  lemma FilesHaveNoKids(t: Tree, f: Path)
    requires WellFormed(t) && f in Files(t)
    ensures Kids(t, f) == {}
  {
    forall q | q in t && |q| == |f| + 1
      ensures q[..|f|] != f
    {
      assert q[..|f|] in t && t[q[..|f|]].Dir?;
    }
  }

  lemma RemovalStarts(roots: set<string>, t: Tree, gone: set<Path>, f: Path)
    requires WellFormed(t) && gone <= Files(t) && f in Files(t) && f !in gone
    ensures f in Cleaned(roots, t, gone)
    ensures Removing(roots, t, gone, f, |f| - 1, Cleaned(roots, t, gone) - {f})
  {
    var live := Cleaned(roots, t, gone);
    CleanedWellFormed(roots, t, gone);
    FilesHaveNoKids(live, f);
    RemoveLeaf(live, f);
    assert Chain(f, |f| - 1) == {};
    assert live - {f} == t - (gone + {f}) - (Emptied(roots, t, gone) + {});
  }

  lemma ClimbStep(roots: set<string>, t: Tree, gone: set<Path>, f: Path, n: nat, live: Tree)
    requires WellFormed(t) && gone <= Files(t) && f in Files(t) && f !in gone
    requires n >= 1 && Removing(roots, t, gone, f, n, live)
    ensures f[..n] in live && live[f[..n]].Dir?
    ensures Managed(f[..n], roots) <==> exists root :: root in roots && UnderRoot(Render(f[..n]), root)
    ensures Managed(f[..n], roots) && Kids(live, f[..n]) == {} ==> Removing(roots, t, gone, f, n - 1, live - {f[..n]})
  {
    DirAboveIsLive(roots, t, gone, f, n, live);
    assert ValidPath(f[..n]);
    ManagedIsUnder(f[..n], roots);
    if Managed(f[..n], roots) && Kids(live, f[..n]) == {} {
      RemoveOneMore(roots, t, gone, f, n, live);
    }
  }

  /** Whether the directory `d` is removed; if so the climb goes on above it. */
  method RemoveIfEmpty(roots: set<string>, disk: Disk, d: Path) returns (removed: bool)
    modifies disk`live
    ensures removed <==> (exists root :: root in roots && UnderRoot(Render(d), root)) && Kids(old(disk.live), d) == {}
    ensures disk.live == if removed then old(disk.live) - {d} else old(disk.live)
  {
    var under := IsUnderManagedRoot(Render(d), roots);
    if !under || Kids(disk.live, d) != {} {
      return false;
    }
    disk.live := disk.live - {d};
    return true;
  }

  /** Deletes one orphan, then climbs while the directory above is managed and empty. */
  method RemoveOrphan(roots: set<string>, disk: Disk, f: Path, ghost t: Tree, ghost gone: set<Path>)
    requires WellFormed(t) && gone <= Files(t) && f in Files(t) && f !in gone
    requires disk.live == Cleaned(roots, t, gone)
    modifies disk`live
    ensures disk.live == Cleaned(roots, t, gone + {f})
  {
    RemovalStarts(roots, t, gone, f);
    disk.live := disk.live - {f};
    var n := |f| - 1;
    while n > 0
      invariant 0 <= n < |f|
      invariant Removing(roots, t, gone, f, n, disk.live)
      decreases n
    {
      ClimbStep(roots, t, gone, f, n, disk.live);
      var removed := RemoveIfEmpty(roots, disk, f[..n]);
      if !removed {
        break;
      }
      n := n - 1;
    }
    RemovalComplete(roots, t, gone, f, n, disk.live);
  }

  // ----- The walk -----

  lemma PrefixIsSlice(p: Path, g: Path)
    ensures p < g ==> p == g[..|p|]
  {
  }

  lemma PendingUntouched(r: Rules, roots: set<string>, t: Tree, pending: set<Path>, done: set<Path>, gone: set<Path>, p: Path)
    requires WellFormed(t) && WalkInv(t, OpenLive(r, roots, t), pending, done) && gone <= done
    requires p in t && p !in done
    ensures p in Cleaned(roots, t, gone)
  {
    forall g | g in gone
      ensures !(p < g)
    {
      assert Sound(t, OpenLive(r, roots, t), done, g);
      PrefixIsSlice(p, g);
    }
  }

  /** Nothing the walk has deleted was still to be listed or visited. */
  lemma ListingUntouched(r: Rules, roots: set<string>, t: Tree, pending: set<Path>, done: set<Path>, gone: set<Path>, p: Path)
    requires WellFormed(t) && WalkInv(t, OpenLive(r, roots, t), pending, done) && gone <= done && p in pending
    ensures p in t && p in Cleaned(roots, t, gone) && p !in done && Sound(t, OpenLive(r, roots, t), done, p)
    ensures Kids(Cleaned(roots, t, gone), p) == Kids(t, p)
  {
    assert Sound(t, OpenLive(r, roots, t), done, p);
    PendingUntouched(r, roots, t, pending, done, gone, p);
    KidsAreNew(t, OpenLive(r, roots, t), pending, done, p);
    forall q | q in Kids(t, p)
      ensures q in Cleaned(roots, t, gone)
    {
      PendingUntouched(r, roots, t, pending, done, gone, q);
    }
  }

  lemma GoneStep(orphans: set<Path>, done: set<Path>, p: Path)
    requires p !in done
    ensures orphans * (done + {p}) == orphans * done + if p in orphans then {p} else {}
    ensures |orphans * (done + {p})| == |orphans * done| + if p in orphans then 1 else 0
  {
    if p in orphans {
      assert orphans * (done + {p}) == orphans * done + {p};
    } else {
      assert orphans * (done + {p}) == orphans * done;
    }
  }

  /** The callback for one live entry. */
  method CleanEntry(r: Rules, roots: set<string>, disk: Disk, p: Path,
                    ghost t: Tree, ghost done: set<Path>, ghost gone: set<Path>)
    returns (enter: bool, removed: bool)
    requires WellFormed(t) && gone <= Files(t) && p !in gone && Sound(t, OpenLive(r, roots, t), done, p)
    requires disk.live == Cleaned(roots, t, gone) && p in disk.live
    modifies disk`live
    ensures enter <==> p in OpenLive(r, roots, t)
    ensures removed <==> p in Orphans(r, roots, t, disk.staging)
    ensures disk.live == Cleaned(roots, t, gone + if removed then {p} else {})
  {
    VisitedOrphan(r, roots, t, disk.staging, done, p);
    var candidate;
    enter, candidate := Inspect(r, roots, p, disk.live[p]);
    removed := candidate && IsMissing(disk.staging, p);
    if removed {
      RemoveOrphan(roots, disk, p, t, gone);
    } else {
      assert gone + {} == gone;
    }
  }

  method CleanOrphans(r: Rules, roots: set<string>, disk: Disk) returns (deleted: nat)
    requires WellFormed(disk.live)
    modifies disk`live
    ensures var gone := Orphans(r, roots, old(disk.live), disk.staging);
            disk.live == Cleaned(roots, old(disk.live), gone) && deleted == |gone|
  {
    ghost var t, done := disk.live, {};
    ghost var open, orphans := OpenLive(r, roots, t), Orphans(r, roots, t, disk.staging);
    deleted := 0;
    var pending := Kids(disk.live, []);
    WalkStart(t, open);
    NothingGone(roots, t);
    assert orphans * {} == {};
    while pending != {}
      invariant WalkInv(t, open, pending, done)
      invariant disk.live == Cleaned(roots, t, orphans * done)
      invariant deleted == |orphans * done|
      decreases t.Keys - done
    {
      var p :| p in pending;
      ListingUntouched(r, roots, t, pending, done, orphans * done, p);
      GoneStep(orphans, done, p);
      WalkStep(t, open, pending, done, p);
      var entries := Kids(disk.live, p);
      var enter, removed := CleanEntry(r, roots, disk, p, t, done, orphans * done);
      if removed {
        deleted := deleted + 1;
      }
      pending := pending - {p} + if enter then entries else {};
      done := done + {p};
    }
    AllOrphansVisited(r, roots, t, disk.staging, done);
    assert orphans * done == orphans;
  }
}
