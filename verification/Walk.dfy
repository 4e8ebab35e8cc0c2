/**
 `filepath.WalkDir` as a worklist: entries still to visit and entries visited. The callback's answer
 decides whether a directory is entered; `open` collects the directories for which it says yes.
 Any visiting order is allowed, so what is proved holds in particular for the lexical order.
 */
module Walk {
  import opened Paths
  import opened FileTree

  /** The walk visits exactly the entries all of whose proper ancestors it enters. */
  ghost predicate Reachable(t: Tree, open: set<Path>, p: Path) {
    p in t && forall k :: 1 <= k < |p| ==> p[..k] in open
  }

  /** `p` is a legitimate visit and its directories were visited before it. */
  ghost predicate Sound(t: Tree, open: set<Path>, done: set<Path>, p: Path) {
    Reachable(t, open, p) && ValidPath(p) && forall k :: 1 <= k < |p| ==> p[..k] in done
  }

  ghost predicate Covered(pending: set<Path>, done: set<Path>, p: Path) {
    p in done || exists k :: 1 <= k <= |p| && p[..k] in pending
  }

  ghost predicate WalkInv(t: Tree, open: set<Path>, pending: set<Path>, done: set<Path>) {
    && done !! pending
    && (forall p :: p in done || p in pending ==> Sound(t, open, done, p))
    && (forall p {:trigger Covered(pending, done, p)} :: Reachable(t, open, p) ==> Covered(pending, done, p))
  }

  function Advance(t: Tree, pending: set<Path>, p: Path, enter: bool): (r: set<Path>) {
    pending - {p} + (if enter then Kids(t, p) else {})
  }

  lemma WalkStart(t: Tree, open: set<Path>)
    requires WellFormed(t)
    ensures WalkInv(t, open, Kids(t, []), {})
  {
    forall p | Reachable(t, open, p)
      ensures Covered(Kids(t, []), {}, p)
    {
      if |p| == 1 {
        assert p[..1] == p;
      }
      assert p[..1][..0] == [];
      assert p[..1] in Kids(t, []);
    }
  }

  lemma KidsAreNew(t: Tree, open: set<Path>, pending: set<Path>, done: set<Path>, p: Path)
    requires WalkInv(t, open, pending, done) && p in pending
    ensures Kids(t, p) !! done && Kids(t, p) !! pending
  {
    forall q | q in Kids(t, p)
      ensures q !in done && q !in pending
    {
      assert Sound(t, open, done, p);
      assert q[..|p|] == p && p !in done;
    }
  }

  lemma KidIsSound(t: Tree, open: set<Path>, done: set<Path>, p: Path, q: Path)
    requires WellFormed(t) && Sound(t, open, done, p) && p in open && q in Kids(t, p)
    ensures Sound(t, open, done + {p}, q)
  {
    forall k | 1 <= k < |q|
      ensures q[..k] in open && q[..k] in done + {p}
    {
      assert q[..k] == p[..k];
      if k == |p| {
        assert p[..k] == p;
      }
    }
  }

  lemma StillCovered(t: Tree, open: set<Path>, pending: set<Path>, done: set<Path>, p: Path, q: Path)
    requires WellFormed(t) && p in pending && Reachable(t, open, q) && Covered(pending, done, q)
    ensures Covered(Advance(t, pending, p, p in open), done + {p}, q)
  {
    if q !in done + {p} {
      var k :| 1 <= k <= |q| && q[..k] in pending;
      if q[..k] == p {
        assert q[..|q|] == q;
        var c := q[..k + 1];
        assert c in t by { if k + 1 == |q| { assert c == q; } }
        assert c[..|p|] == p;
        assert c in Kids(t, p);
      }
    }
  }

  lemma WalkStep(t: Tree, open: set<Path>, pending: set<Path>, done: set<Path>, p: Path)
    requires WellFormed(t) && WalkInv(t, open, pending, done) && p in pending
    ensures WalkInv(t, open, Advance(t, pending, p, p in open), done + {p})
  {
    var pending', done' := Advance(t, pending, p, p in open), done + {p};
    KidsAreNew(t, open, pending, done, p);
    assert p !in Kids(t, p);
    forall q | q in done' || q in pending'
      ensures Sound(t, open, done', q)
    {
      if q in done || q in pending {
        assert Sound(t, open, done, q);
      } else {
        KidIsSound(t, open, done, p, q);
      }
    }
    forall q | Reachable(t, open, q)
      ensures Covered(pending', done', q)
    {
      StillCovered(t, open, pending, done, p, q);
    }
  }

  lemma WalkEnd(t: Tree, open: set<Path>, done: set<Path>)
    requires WalkInv(t, open, {}, done)
    ensures forall p :: p in done <==> Reachable(t, open, p)
  {
    forall p
      ensures p in done <==> Reachable(t, open, p)
    {
      if Reachable(t, open, p) {
        assert Covered({}, done, p);
      }
      if p in done {
        assert Sound(t, open, done, p);
      }
    }
  }
}
