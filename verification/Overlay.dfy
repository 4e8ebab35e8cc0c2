/**
 The ordered overlay: all mappings staged one after the other, and what the result holds at each path.
 */
module Overlay {
  import opened Options
  import opened Paths
  import opened FileTree
  import opened Staging

  ghost predicate ValidMappings(ms: seq<Mapping>) {
    forall i :: 0 <= i < |ms| ==> ValidMapping(ms[i])
  }

  /** Later layers over earlier ones. */
  ghost function Stack(layers: seq<Tree>): (t: Tree) {
    if layers == [] then map[] else Stack(layers[..|layers| - 1]) + layers[|layers| - 1]
  }

  ghost predicate AllCompatible(layers: seq<Tree>) {
    forall i, j :: 0 <= i < j < |layers| ==> Compatible(layers[i], layers[j])
  }

  ghost function Layers(r: Rules, ms: seq<Mapping>): (layers: seq<Tree>)
    ensures |layers| == |ms| && forall i :: 0 <= i < |ms| ==> layers[i] == Layer(r, ms[i])
  {
    seq(|ms|, i requires 0 <= i < |ms| => Layer(r, ms[i]))
  }

  ghost function Overlaid(r: Rules, ms: seq<Mapping>): (t: Tree) {
    Stack(Layers(r, ms))
  }

  /** Every mapping can be staged on its own and no two need a path as a file and as a directory. */
  ghost predicate StagingSucceeds(r: Rules, ms: seq<Mapping>) {
    (forall i :: 0 <= i < |ms| ==> Stageable(r, ms[i])) && AllCompatible(Layers(r, ms))
  }

  lemma MergeCompatible(a: Tree, b: Tree, t: Tree)
    requires Compatible(a, b)
    ensures Compatible(a + b, t) <==> Compatible(a, t) && Compatible(b, t)
  {
    if Compatible(a + b, t) {
      forall p | p in a && p in t
        ensures a[p].Dir? <==> t[p].Dir?
      {
        assert p in a + b;
      }
      forall p | p in b && p in t
        ensures b[p].Dir? <==> t[p].Dir?
      {
        assert p in a + b;
      }
    }
  }

  lemma {:induction false} CompatibleWithStack(layers: seq<Tree>, t: Tree)
    requires AllCompatible(layers)
    ensures Compatible(Stack(layers), t) <==> forall i :: 0 <= i < |layers| ==> Compatible(layers[i], t)
  {
    if layers != [] {
      var init, last := layers[..|layers| - 1], layers[|layers| - 1];
      CompatibleWithStack(init, t);
      CompatibleWithStack(init, last);
      MergeCompatible(Stack(init), last, t);
    }
  }

  /** What the stack holds at a path: the entry of the topmost layer that has one. */
  lemma {:induction false} StackAt(layers: seq<Tree>, p: Path) returns (top: nat)
    ensures p in Stack(layers) <==> exists i :: 0 <= i < |layers| && p in layers[i]
    ensures p in Stack(layers) ==> top < |layers| && p in layers[top] && Stack(layers)[p] == layers[top][p]
    ensures p in Stack(layers) ==> forall j :: top < j < |layers| ==> p !in layers[j]
  {
    if layers == [] {
      top := 0;
    } else {
      var init, last := layers[..|layers| - 1], layers[|layers| - 1];
      top := StackAt(init, p);
      if p in last {
        top := |layers| - 1;
      } else if p in Stack(init) {
        assert p in layers[top];
      }
    }
  }

  lemma SameKind(a: Tree, b: Tree, p: Path)
    requires Compatible(a, b) && NoLinks(a) && NoLinks(b) && p in a && p in b
    ensures p in Files(a) <==> p in Files(b)
  {
  }

  lemma StackFiles(layers: seq<Tree>, p: Path)
    requires AllCompatible(layers) && forall i :: 0 <= i < |layers| ==> NoLinks(layers[i])
    ensures p in Files(Stack(layers)) <==> exists i :: 0 <= i < |layers| && p in Files(layers[i])
    ensures forall i :: 0 <= i < |layers| && p in Files(layers[i]) && (forall j :: i < j < |layers| ==> p !in Files(layers[j]))
              ==> p in Stack(layers) && Stack(layers)[p] == layers[i][p]
  {
    var top := StackAt(layers, p);
    if p in Stack(layers) {
      forall i | 0 <= i < |layers| && p in layers[i]
        ensures p in Files(layers[i]) <==> p in Files(layers[top])
      {
        if i < top {
          SameKind(layers[i], layers[top], p);
        }
      }
    }
  }

  lemma SucceedsStep(r: Rules, ms: seq<Mapping>, n: nat)
    requires n < |ms| && StagingSucceeds(r, ms[..n])
    ensures StagingSucceeds(r, ms[..n + 1]) <==>
            Stageable(r, ms[n]) && Compatible(Overlaid(r, ms[..n]), Layer(r, ms[n]))
    ensures Overlaid(r, ms[..n + 1]) == Overlaid(r, ms[..n]) + Layer(r, ms[n])
  {
    var before, after := Layers(r, ms[..n]), Layers(r, ms[..n + 1]);
    var top := Layer(r, ms[n]);
    assert after == before + [top];
    assert after[..n] == before;
    CompatibleWithStack(before, top);
    if AllCompatible(after) {
      assert forall i :: 0 <= i < n ==> Compatible(after[i], after[n]);
    }
    assert forall i :: 0 <= i <= n ==> ms[..n + 1][i] == ms[i];
  }

  lemma SucceedsPrefix(r: Rules, ms: seq<Mapping>, n: nat)
    requires n <= |ms| && StagingSucceeds(r, ms)
    ensures StagingSucceeds(r, ms[..n])
  {
    assert Layers(r, ms[..n]) == Layers(r, ms)[..n];
  }

  /** Phase 1 of `ExecutePlan`: whatever staging held before, it now holds the overlay. */
  method BuildStaging(r: Rules, ms: seq<Mapping>, disk: Disk) returns (ok: bool)
    requires ValidMappings(ms) && CollisionFree(r.hash)
    modifies disk`staging
    ensures ok <==> StagingSucceeds(r, ms)
    ensures ok ==> disk.staging == Overlaid(r, ms) && WellFormed(disk.staging) && NoLinks(disk.staging)
  {
    disk.staging := map[];
    for i := 0 to |ms|
      invariant StagingSucceeds(r, ms[..i])
      invariant disk.staging == Overlaid(r, ms[..i]) && WellFormed(disk.staging) && NoLinks(disk.staging)
    {
      var m := ms[i];
      SucceedsStep(r, ms, i);
      if m.isFile {
        ok := StageSingleFile(r, m, disk);
      } else {
        ok := StageDirectory(r, m, disk);
      }
      if !ok {
        if StagingSucceeds(r, ms) {
          SucceedsPrefix(r, ms, i + 1);
          assert false;
        }
        return;
      }
    }
    assert ms[..|ms|] == ms;
    return true;
  }

  // ----- What the overlay holds -----

  /** Mapping `m` supplies the file at `p`: for a directory mapping there is a source file at the
      matching place and nothing on the way to it, below the destination, is skipped. */
  ghost predicate Contributes(r: Rules, m: Mapping, p: Path) {
    if m.isFile then
      p == Dest(m) && p != [] && !Skip(r, m.destination)
    else
      m.source.SourceDir? && |Dest(m)| < |p| && Dest(m) <= p &&
      var rel := p[|Dest(m)|..];
      rel in m.source.tree && m.source.tree[rel].File? &&
      forall k :: |Dest(m)| < k <= |p| ==> !Skip(r, Render(p[..k]))
  }

  lemma ContributesReaches(r: Rules, m: Mapping, rel: Path)
    requires m.source.SourceDir? && WellFormed(m.source.tree) && rel in m.source.tree
    requires forall k :: 1 <= k <= |rel| ==> !Skip(r, Render(Dest(m) + rel[..k]))
    ensures rel in Contributed(r, m)
    ensures !m.source.tree[rel].Link? ==> Kept(r, m, rel)
  {
    forall k | 1 <= k < |rel|
      ensures rel[..k] in OpenDirs(r, m)
    {
      assert rel[..k] in m.source.tree;
    }
    assert rel[..|rel|] == rel;
  }

  lemma ReachesContributes(r: Rules, m: Mapping, rel: Path, k: nat)
    requires m.source.SourceDir? && rel in Contributed(r, m) && Kept(r, m, rel) && 1 <= k <= |rel|
    ensures !Skip(r, Render(Dest(m) + rel[..k]))
  {
    if k == |rel| {
      assert rel[..k] == rel;
    } else {
      assert rel[..k] in OpenDirs(r, m);
    }
  }

  lemma ContributesIsStaged(r: Rules, m: Mapping, p: Path)
    requires ValidMapping(m) && !m.isFile && Contributes(r, m, p)
    ensures p in FilesOf(r, m, Contributed(r, m))
  {
    var dest := Dest(m);
    var rel := p[|dest|..];
    forall k | 1 <= k <= |rel|
      ensures !Skip(r, Render(dest + rel[..k]))
    {
      assert p[..|dest| + k] == dest + rel[..k];
    }
    ContributesReaches(r, m, rel);
    assert p == dest + rel;
  }

  lemma StagedContributes(r: Rules, m: Mapping, rel: Path)
    requires ValidMapping(m) && !m.isFile && m.source.SourceDir?
    requires rel in Contributed(r, m) && Kept(r, m, rel) && m.source.tree[rel].File?
    ensures Contributes(r, m, Dest(m) + rel)
  {
    var dest, p := Dest(m), Dest(m) + rel;
    assert p[|dest|..] == rel && ValidPath(rel);
    forall k | |dest| < k <= |p|
      ensures !Skip(r, Render(p[..k]))
    {
      ReachesContributes(r, m, rel, k - |dest|);
      assert p[..k] == dest + rel[..k - |dest|];
    }
  }

  lemma ContributedFiles(r: Rules, m: Mapping, p: Path)
    requires ValidMapping(m) && !m.isFile && m.source.SourceDir?
    ensures p in FilesOf(r, m, Contributed(r, m)) <==> Contributes(r, m, p)
  {
    if Contributes(r, m, p) {
      ContributesIsStaged(r, m, p);
    }
    if p in FilesOf(r, m, Contributed(r, m)) {
      var rel :| rel in Contributed(r, m) && Kept(r, m, rel) && m.source.tree[rel].File? && p == Dest(m) + rel;
      StagedContributes(r, m, rel);
    }
  }

  lemma LayerFiles(r: Rules, m: Mapping, p: Path)
    requires ValidMapping(m)
    ensures p in Layer(r, m) && Layer(r, m)[p].File? <==> Contributes(r, m, p)
    ensures Contributes(r, m, p) ==> Layer(r, m)[p] == File(Produced(m, p))
  {
    if !m.isFile && m.source.SourceDir? {
      ContributedFiles(r, m, p);
      DirsAndFilesDisjoint(r, m, Contributed(r, m), Contributed(r, m));
    }
  }

  ghost predicate LastContributor(r: Rules, ms: seq<Mapping>, i: nat, p: Path) {
    i < |ms| && Contributes(r, ms[i], p) && forall j :: i < j < |ms| ==> !Contributes(r, ms[j], p)
  }

  /** Ordered overlay: the files in staging are those some mapping supplies, and each holds what the
      last mapping to supply it makes of its source file. */
  lemma OrderedOverlay(r: Rules, ms: seq<Mapping>, p: Path)
    requires ValidMappings(ms) && StagingSucceeds(r, ms)
    ensures p in Files(Overlaid(r, ms)) <==> exists i :: 0 <= i < |ms| && Contributes(r, ms[i], p)
    ensures forall i: nat :: LastContributor(r, ms, i, p) ==>
              p in Overlaid(r, ms) && Overlaid(r, ms)[p] == File(Produced(ms[i], p))
  {
    var layers := Layers(r, ms);
    forall i | 0 <= i < |ms|
      ensures NoLinks(layers[i])
      ensures p in Files(layers[i]) <==> Contributes(r, ms[i], p)
      ensures Contributes(r, ms[i], p) ==> layers[i][p] == File(Produced(ms[i], p))
    {
      LayersHaveNoLinks(r, ms[i]);
      LayerFiles(r, ms[i], p);
    }
    StackFiles(layers, p);
  }

  /** The content, followed from the source: where mapping `i` is the last to supply `p`, staging holds what
      its transformation makes of the source's own content at the matching place. */
  lemma StagedContent(r: Rules, ms: seq<Mapping>, i: nat, p: Path, src: Content, out: Content)
    requires ValidMappings(ms) && StagingSucceeds(r, ms) && LastContributor(r, ms, i, p)
    requires var m := ms[i];
             m.source == SourceFile(src) ||
             (m.source.SourceDir? && exists rel :: rel in m.source.tree && m.source.tree[rel] == File(src) && p == Dest(m) + rel)
    requires ms[i].transform(p, src) == Some(out)
    ensures p in Overlaid(r, ms) && Overlaid(r, ms)[p] == File(out)
  {
    var m := ms[i];
    if m.source.SourceDir? {
      var rel :| rel in m.source.tree && m.source.tree[rel] == File(src) && p == Dest(m) + rel;
      assert p[|Dest(m)|..] == rel;
    }
    OrderedOverlay(r, ms, p);
  }

  // ----- Which directories are staged -----

  /** Directory mapping `m` supplies the directory `d`: there is a source directory at the matching place
      and nothing on the way to it, below the destination, is skipped. */
  ghost predicate ContributesDir(r: Rules, m: Mapping, d: Path) {
    !m.isFile && m.source.SourceDir? && Dest(m) < d &&
    var rel := d[|Dest(m)|..];
    rel in m.source.tree && m.source.tree[rel].Dir? &&
    forall k :: |Dest(m)| < k <= |d| ==> !Skip(r, Render(d[..k]))
  }

  /** `p` is a directory on the way to something `m` supplies, or supplied itself. */
  ghost predicate StagesDir(r: Rules, m: Mapping, p: Path) {
    p != [] && exists q :: (Contributes(r, m, q) && p < q) || (ContributesDir(r, m, q) && p <= q)
  }

  lemma ReachedDirContributes(r: Rules, m: Mapping, rel: Path)
    requires ValidMapping(m) && !m.isFile && m.source.SourceDir?
    requires rel in Contributed(r, m) && Kept(r, m, rel) && m.source.tree[rel].Dir?
    ensures ContributesDir(r, m, Dest(m) + rel)
  {
    var dest, d := Dest(m), Dest(m) + rel;
    assert d[|dest|..] == rel && ValidPath(rel);
    forall k | |dest| < k <= |d|
      ensures !Skip(r, Render(d[..k]))
    {
      ReachesContributes(r, m, rel, k - |dest|);
      assert d[..k] == dest + rel[..k - |dest|];
    }
  }

  lemma ContributedDirReached(r: Rules, m: Mapping, d: Path) returns (rel: Path)
    requires ValidMapping(m) && ContributesDir(r, m, d)
    ensures rel in Contributed(r, m) && Kept(r, m, rel) && rel != [] && m.source.tree[rel].Dir? && d == Dest(m) + rel
  {
    var dest := Dest(m);
    rel := d[|dest|..];
    forall k | 1 <= k <= |rel|
      ensures !Skip(r, Render(dest + rel[..k]))
    {
      assert d[..|dest| + k] == dest + rel[..k];
    }
    ContributesReaches(r, m, rel);
    assert d == dest + rel;
  }

  lemma PrefixesAre(d: Path, q: Path)
    ensures q in Prefixes(d) <==> q != [] && q <= d
  {
    if q != [] && q <= d {
      assert q == d[..|q|];
    }
  }

  lemma DirIsLayered(r: Rules, m: Mapping, q: Path, p: Path)
    requires ValidMapping(m) && ContributesDir(r, m, q) && p != [] && p <= q
    ensures p in DirsOf(r, m, Contributed(r, m))
  {
    var rel := ContributedDirReached(r, m, q);
    PrefixesAre(q, p);
    assert DirFor(m, rel) == q;
  }

  lemma ParentIsLayered(r: Rules, m: Mapping, q: Path, p: Path)
    requires ValidMapping(m) && !m.isFile && Contributes(r, m, q) && p != [] && p < q
    ensures p in DirsOf(r, m, Contributed(r, m))
  {
    ContributesIsStaged(r, m, q);
    var rel :| rel in Contributed(r, m) && Kept(r, m, rel) && m.source.tree[rel].File? && q == Dest(m) + rel;
    assert ValidPath(rel);
    assert DirFor(m, rel) == Parent(q);
    assert p <= Parent(q);
    PrefixesAre(Parent(q), p);
  }

  lemma LayeredDirIsStaged(r: Rules, m: Mapping, p: Path)
    requires ValidMapping(m) && !m.isFile && m.source.SourceDir? && p in DirsOf(r, m, Contributed(r, m))
    ensures StagesDir(r, m, p)
  {
    var rel :| rel in Contributed(r, m) && rel != [] && Kept(r, m, rel) && p in Prefixes(DirFor(m, rel));
    PrefixesAre(DirFor(m, rel), p);
    if m.source.tree[rel].Dir? {
      ReachedDirContributes(r, m, rel);
    } else {
      StagedContributes(r, m, rel);
      assert Parent(Dest(m) + rel) < Dest(m) + rel;
    }
  }

  /** The directories of a layer: those it supplies, empty ones included, and the parents of what it supplies. */
  lemma LayerDirs(r: Rules, m: Mapping, p: Path)
    requires ValidMapping(m)
    ensures p in Layer(r, m) && Layer(r, m)[p].Dir? <==> StagesDir(r, m, p)
  {
    if m.isFile {
      if !Skip(r, m.destination) && Dest(m) != [] {
        NoPrefixTooLong(Parent(Dest(m)), Dest(m));
        PrefixesAre(Parent(Dest(m)), p);
        assert Contributes(r, m, Dest(m));
      }
    } else if m.source.SourceDir? {
      DirsAndFilesDisjoint(r, m, Contributed(r, m), Contributed(r, m));
      if StagesDir(r, m, p) {
        var q :| (Contributes(r, m, q) && p < q) || (ContributesDir(r, m, q) && p <= q);
        if ContributesDir(r, m, q) && p <= q {
          DirIsLayered(r, m, q, p);
        } else {
          ParentIsLayered(r, m, q, p);
        }
      }
      if p in DirsOf(r, m, Contributed(r, m)) {
        LayeredDirIsStaged(r, m, p);
      }
    }
  }

  // ----- When staging fails -----

  /** The mapping cannot be staged: a directory that is not there, a file that is not a file or has no
      place, or a supplied file whose templating or patching fails. */
  ghost predicate Defective(r: Rules, m: Mapping) {
    if m.isFile then
      !Skip(r, m.destination) && (Dest(m) == [] || !m.source.SourceFile? || m.transform(Dest(m), m.source.content).None?)
    else
      m.source.Missing? ||
      (m.source.SourceDir? && exists rel ::
         rel in Files(m.source.tree) && Contributes(r, m, Dest(m) + rel) &&
         m.transform(Dest(m) + rel, m.source.tree[rel].content).None?)
  }

  ghost predicate Clash(r: Rules, ms: seq<Mapping>, i: nat, j: nat, p: Path) {
    i < |ms| && j < |ms| && Contributes(r, ms[i], p) && StagesDir(r, ms[j], p)
  }

  lemma DefectiveIff(r: Rules, m: Mapping)
    requires ValidMapping(m)
    ensures Stageable(r, m) <==> !Defective(r, m)
  {
    if !m.isFile && m.source.SourceDir? {
      var files := FilesOf(r, m, Contributed(r, m));
      forall p | p in files && m.transform(p, Original(m, p)).None?
        ensures Defective(r, m)
      {
        ContributedFiles(r, m, p);
        var rel := p[|Dest(m)|..];
        assert p == Dest(m) + rel;
      }
      forall rel | rel in Files(m.source.tree) && Contributes(r, m, Dest(m) + rel)
        ensures Dest(m) + rel in files && Original(m, Dest(m) + rel) == m.source.tree[rel].content
      {
        ContributedFiles(r, m, Dest(m) + rel);
        assert (Dest(m) + rel)[|Dest(m)|..] == rel;
      }
    }
  }

  lemma LayerKinds(r: Rules, m: Mapping, p: Path)
    requires ValidMapping(m)
    ensures p in Layer(r, m) <==> Contributes(r, m, p) || StagesDir(r, m, p)
    ensures p in Layer(r, m) ==> (Layer(r, m)[p].Dir? <==> StagesDir(r, m, p)) && (Layer(r, m)[p].File? <==> Contributes(r, m, p))
  {
    LayerFiles(r, m, p);
    LayerDirs(r, m, p);
    LayersHaveNoLinks(r, m);
  }

  lemma ClashIsIncompatible(r: Rules, ms: seq<Mapping>, i: nat, j: nat, p: Path)
    requires ValidMappings(ms) && Clash(r, ms, i, j, p)
    ensures !AllCompatible(Layers(r, ms))
  {
    LayerKinds(r, ms[i], p);
    LayerKinds(r, ms[j], p);
    var a, b := Layers(r, ms)[i], Layers(r, ms)[j];
    assert !Compatible(a, b) && !Compatible(b, a) && i != j;
  }

  lemma IncompatibleIsClash(r: Rules, ms: seq<Mapping>) returns (i: nat, j: nat, p: Path)
    requires ValidMappings(ms) && !AllCompatible(Layers(r, ms))
    ensures Clash(r, ms, i, j, p)
  {
    var layers: seq<Tree> := Layers(r, ms);
    i, j :| i < j < |layers| && !Compatible(layers[i], layers[j]);
    p :| p in layers[i] && p in layers[j] && !(layers[i][p].Dir? <==> layers[j][p].Dir?);
    LayerKinds(r, ms[i], p);
    LayerKinds(r, ms[j], p);
    if layers[i][p].Dir? {
      i, j := j, i;
    }
  }

  lemma ClashIff(r: Rules, ms: seq<Mapping>)
    requires ValidMappings(ms)
    ensures AllCompatible(Layers(r, ms)) <==> forall i: nat, j: nat, p :: !Clash(r, ms, i, j, p)
  {
    forall i: nat, j: nat, p | Clash(r, ms, i, j, p)
      ensures !AllCompatible(Layers(r, ms))
    {
      ClashIsIncompatible(r, ms, i, j, p);
    }
    if !AllCompatible(Layers(r, ms)) {
      var i, j, p := IncompatibleIsClash(r, ms);
    }
  }

  /** Staging fails exactly when some mapping cannot be staged, or one supplies a file where another needs a
      directory. */
  lemma StagingFailsIff(r: Rules, ms: seq<Mapping>)
    requires ValidMappings(ms)
    ensures !StagingSucceeds(r, ms) <==>
            (exists i :: 0 <= i < |ms| && Defective(r, ms[i])) || (exists i: nat, j: nat, p :: Clash(r, ms, i, j, p))
  {
    forall i | 0 <= i < |ms|
      ensures Stageable(r, ms[i]) <==> !Defective(r, ms[i])
    {
      DefectiveIff(r, ms[i]);
    }
    ClashIff(r, ms);
  }

  lemma LayersHaveNoLinks(r: Rules, m: Mapping)
    ensures NoLinks(Layer(r, m))
  {
  }

  lemma FileParentsAreDirs(m: Mapping, dirs: set<Path>, files: set<Path>)
    requires dirs !! files
    requires forall q :: q in dirs || q in files ==> ValidPath(q)
    requires forall q, k :: (q in dirs || q in files) && 1 <= k < |q| ==> q[..k] in dirs
    ensures WellFormed(TreeOf(m, dirs, files))
  {
  }

  lemma PrefixOfPath(p: Path, k: nat)
    requires 1 <= k < |p|
    ensures p[..k] in Prefixes(Parent(p))
  {
    assert p[..k] == Parent(p)[..k];
  }

  lemma PrefixesValid(d: Path, q: Path)
    requires ValidPath(d) && q in Prefixes(d)
    ensures ValidPath(q)
  {
  }

  lemma LayerWellFormed(r: Rules, m: Mapping)
    requires ValidMapping(m)
    ensures WellFormed(Layer(r, m))
  {
    DestNames(m);
    if m.isFile {
      if !Skip(r, m.destination) && Dest(m) != [] {
        var p := Dest(m);
        var dirs, files := Prefixes(Parent(p)), {p};
        NoPrefixTooLong(Parent(p), p);
        forall q, k | (q in dirs || q in files) && 1 <= k < |q|
          ensures q[..k] in dirs
        {
          if q == p {
            PrefixOfPath(p, k);
          } else {
            PrefixesOfPrefix(Parent(p), q, k);
          }
        }
        FileParentsAreDirs(m, dirs, files);
      }
    } else if m.source.SourceDir? {
      var all := Contributed(r, m);
      DirsAndFilesDisjoint(r, m, all, all);
      forall q | q in DirsOf(r, m, all)
        ensures ValidPath(q) && forall k :: 1 <= k < |q| ==> q[..k] in DirsOf(r, m, all)
      {
        DirsClosed(r, m, all, q);
      }
      forall q | q in FilesOf(r, m, all)
        ensures ValidPath(q) && forall k :: 1 <= k < |q| ==> q[..k] in DirsOf(r, m, all)
      {
        FilesHoused(r, m, all, q);
      }
      FileParentsAreDirs(m, DirsOf(r, m, all), FilesOf(r, m, all));
    }
  }

  lemma DirsClosed(r: Rules, m: Mapping, rels: set<Path>, q: Path)
    requires ValidMapping(m) && m.source.SourceDir? && q in DirsOf(r, m, rels)
    ensures ValidPath(q) && forall k :: 1 <= k < |q| ==> q[..k] in DirsOf(r, m, rels)
  {
    DestNames(m);
    var rel :| rel in rels && rel != [] && Kept(r, m, rel) && q in Prefixes(DirFor(m, rel));
    forall k | 1 <= k < |q|
      ensures q[..k] in DirsOf(r, m, rels)
    {
      PrefixesOfPrefix(DirFor(m, rel), q, k);
    }
    assert ValidPath(Dest(m) + rel);
    PrefixesValid(DirFor(m, rel), q);
  }

  lemma FilesHoused(r: Rules, m: Mapping, rels: set<Path>, q: Path)
    requires ValidMapping(m) && m.source.SourceDir? && q in FilesOf(r, m, rels)
    ensures ValidPath(q) && forall k :: 1 <= k < |q| ==> q[..k] in DirsOf(r, m, rels)
  {
    DestNames(m);
    var rel :| rel in rels && Kept(r, m, rel) && m.source.tree[rel].File? && q == Dest(m) + rel;
    assert ValidPath(rel);
    forall k | 1 <= k < |q|
      ensures q[..k] in DirsOf(r, m, rels)
    {
      PrefixOfPath(q, k);
      assert q[..k] in Prefixes(DirFor(m, rel));
    }
  }

  lemma {:induction false} StackWellFormed(layers: seq<Tree>)
    requires AllCompatible(layers) && forall i :: 0 <= i < |layers| ==> WellFormed(layers[i]) && NoLinks(layers[i])
    ensures WellFormed(Stack(layers)) && NoLinks(Stack(layers))
  {
    if layers != [] {
      var init, last := layers[..|layers| - 1], layers[|layers| - 1];
      StackWellFormed(init);
      CompatibleWithStack(init, last);
      MergedWellFormed(Stack(init), last);
    }
  }

  lemma OverlaidWellFormed(r: Rules, ms: seq<Mapping>)
    requires ValidMappings(ms) && StagingSucceeds(r, ms)
    ensures WellFormed(Overlaid(r, ms)) && NoLinks(Overlaid(r, ms))
  {
    var layers := Layers(r, ms);
    forall i | 0 <= i < |layers|
      ensures WellFormed(layers[i]) && NoLinks(layers[i])
    {
      LayerWellFormed(r, ms[i]);
      LayersHaveNoLinks(r, ms[i]);
    }
    StackWellFormed(layers);
  }
}
