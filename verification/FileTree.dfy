/**
 Directory trees as finite maps from paths to nodes, the primitive operations the engine performs
 on them, and `copyFile` with its equal-content fast path.
 */
module FileTree {
  import opened Paths

  type Content = string

  datatype Node = File(content: Content) | Dir | Link

  type Tree = map<Path, Node>

  /** Every entry has a proper name and sits in directories that exist. */
  ghost predicate WellFormed(t: Tree) {
    forall p :: p in t ==> ValidPath(p) && forall k :: 1 <= k < |p| ==> p[..k] in t && t[p[..k]].Dir?
  }

  ghost predicate NoLinks(t: Tree) {
    forall p :: p in t ==> !t[p].Link?
  }

  /** No path is a directory in one tree and something else in the other. */
  ghost predicate Compatible(a: Tree, b: Tree) {
    forall p :: p in a && p in b ==> (a[p].Dir? <==> b[p].Dir?)
  }

  function Files(t: Tree): (r: set<Path>) {
    set p | p in t && t[p].File?
  }

  /** The entries of directory `d`. */
  function Kids(t: Tree, d: Path): (r: set<Path>) {
    set p | p in t && |p| == |d| + 1 && p[..|d|] == d
  }

  function Parent(p: Path): (r: Path)
    requires p != []
  {
    p[..|p| - 1]
  }

  function Prefixes(d: Path): (r: set<Path>) {
    set k | 1 <= k <= |d| :: d[..k]
  }

  predicate CanMkdirAll(t: Tree, d: Path) {
    forall q :: q in Prefixes(d) && q in t ==> t[q].Dir?
  }

  /** `Lstat` reports that `p` does not exist. A file on the way to `p` gives another error instead. */
  predicate IsMissing(t: Tree, p: Path)
    requires p != []
  {
    p !in t && CanMkdirAll(t, Parent(p))
  }

  /** `t` with the directories `ds` present. */
  function WithDirs(t: Tree, ds: set<Path>): (r: Tree) {
    t + map q | q in ds :: Dir
  }

  predicate CanPut(t: Tree, p: Path)
    requires p != []
  {
    CanMkdirAll(t, Parent(p)) && !(p in t && t[p].Dir?)
  }

  function Put(t: Tree, p: Path, c: Content): (r: Tree)
    requires p != []
  {
    WithDirs(t, Prefixes(Parent(p)))[p := File(c)]
  }

  // ----- copyFile -----

  /** SHA-256 taken as injective on contents of equal size. */
  ghost predicate CollisionFree(hash: Content -> string) {
    forall a, b :: |a| == |b| && hash(a) == hash(b) ==> a == b
  }

  predicate FilesEqual(hash: Content -> string, src: Content, t: Tree, dst: Path) {
    dst in t && t[dst].File? && |src| == |t[dst].content| && hash(src) == hash(t[dst].content)
  }

  lemma PrefixesBelow(t: Tree, p: Path)
    requires WellFormed(t) && p in t
    ensures WithDirs(t, Prefixes(Parent(p))) == t
    ensures CanMkdirAll(t, Parent(p))
  {
    forall q | q in Prefixes(Parent(p))
      ensures q in t && t[q].Dir?
    {
      var k :| 1 <= k <= |p| - 1 && q == Parent(p)[..k];
      assert q == p[..k];
    }
  }

  /** The copy has the same effect whether or not the fast path is taken. */
  method CopyFile(hash: Content -> string, src: Content, t: Tree, dst: Path)
    returns (ok: bool, written: bool, t': Tree)
    requires CollisionFree(hash) && WellFormed(t) && ValidPath(dst)
    requires dst in t ==> !t[dst].Link?
    ensures ok <==> CanPut(t, dst)
    ensures t' == if ok then Put(t, dst, src) else t
    ensures written <==> ok && !(dst in t && t[dst] == File(src))
  {
    if FilesEqual(hash, src, t, dst) {
      PrefixesBelow(t, dst);
      return true, false, t;
    }
    if !CanMkdirAll(t, Parent(dst)) {
      return false, false, t;
    }
    t' := WithDirs(t, Prefixes(Parent(dst)));
    if dst in t && t[dst].Dir? {
      PrefixesBelow(t, dst);
      return false, false, t';
    }
    t' := t'[dst := File(src)];
    return true, true, t';
  }

  // ----- Well-formedness is kept -----

  lemma PrefixesOfPrefix(d: Path, q: Path, k: nat)
    requires q in Prefixes(d) && 1 <= k <= |q|
    ensures q[..k] in Prefixes(d)
  {
    var n :| 1 <= n <= |d| && q == d[..n];
    assert q[..k] == d[..k];
  }

  lemma MkdirAllWellFormed(t: Tree, d: Path)
    requires WellFormed(t) && CanMkdirAll(t, d) && (d == [] || ValidPath(d))
    ensures WellFormed(WithDirs(t, Prefixes(d)))
  {
    var t' := WithDirs(t, Prefixes(d));
    forall p | p in t'
      ensures ValidPath(p) && forall k :: 1 <= k < |p| ==> p[..k] in t' && t'[p[..k]].Dir?
    {
      if p in Prefixes(d) {
        forall k | 1 <= k < |p| { PrefixesOfPrefix(d, p, k); }
      }
    }
  }

  lemma PutWellFormed(t: Tree, p: Path, c: Content)
    requires WellFormed(t) && ValidPath(p) && CanPut(t, p)
    requires p in t ==> !t[p].Link?
    ensures WellFormed(Put(t, p, c))
  {
    var d := Parent(p);
    assert d == [] || ValidPath(d);
    MkdirAllWellFormed(t, d);
    var t1 := WithDirs(t, Prefixes(d));
    var t' := Put(t, p, c);
    forall q | q in t'
      ensures ValidPath(q) && forall k :: 1 <= k < |q| ==> q[..k] in t' && t'[q[..k]].Dir?
    {
      forall k | 1 <= k < |q|
        ensures q[..k] in t' && t'[q[..k]].Dir?
      {
        if q == p {
          assert p[..k] == d[..k];
          assert p[..k] in Prefixes(d);
        } else {
          assert q in t1;
          assert q[..k] in t1 && t1[q[..k]].Dir?;
          if q[..k] == p {
            NoPrefixTooLong(d, p);
          }
        }
      }
    }
  }

  lemma MergedWellFormed(live: Tree, s: Tree)
    requires WellFormed(live) && WellFormed(s) && Compatible(live, s)
    ensures WellFormed(live + s)
  {
    var t := live + s;
    forall p, k | p in t && 1 <= k < |p|
      ensures p[..k] in t && t[p[..k]].Dir?
    {
      var q := p[..k];
      if p in s {
        assert q in s && s[q].Dir?;
      } else {
        assert q in live && live[q].Dir?;
      }
    }
  }

  /** In a tree compatible with one that has `p`, not holding `p` and missing `p` are the same. */
  lemma AbsentIsMissing(a: Tree, b: Tree, p: Path)
    requires WellFormed(a) && p in a && (Compatible(a, b) || Compatible(b, a))
    ensures IsMissing(b, p) <==> p !in b
  {
    forall q | q in Prefixes(Parent(p)) && q in b
      ensures b[q].Dir?
    {
      var k :| 1 <= k <= |p| - 1 && q == Parent(p)[..k];
      assert q == p[..k];
    }
  }

  lemma NoPrefixTooLong(d: Path, p: Path)
    requires |p| > |d|
    ensures p !in Prefixes(d)
  {
  }

  /** The mutable part of the file system: the live directory and the staging directory beside it. */
  class Disk {
    var live: Tree
    var staging: Tree

    constructor (live: Tree, staging: Tree)
      ensures this.live == live && this.staging == staging
    {
      this.live, this.staging := live, staging;
    }
  }
}
