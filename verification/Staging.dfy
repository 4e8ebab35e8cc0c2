/**
 Building the staging tree. Each mapping contributes a layer, described without reference to any
 walk; the staging methods are proved to succeed exactly when the layers can be stacked, and then to
 leave the stack of layers behind.
 */
module Staging {
  import opened Options
  import opened Paths
  import opened FileTree
  import opened Walk
  import opened Excludes

  datatype Source = Missing | SourceFile(content: Content) | SourceDir(tree: Tree)

  /** `transform` stands for templating followed by patching of the staged file at a path. */
  datatype Mapping = Mapping(source: Source, destination: string, isFile: bool,
                             transform: (Path, Content) -> Option<Content>)

  datatype Rules = Rules(glob: Glob, hash: Content -> string, excludes: seq<string>)

  ghost predicate Skip(r: Rules, path: string) {
    Skipped(r.glob, r.excludes, path)
  }

  /** What plan building guarantees: the destination passed the agent's test. */
  ghost predicate ValidMapping(m: Mapping) {
    ValidateResolvedPath(m.destination) && (m.source.SourceDir? ==> WellFormed(m.source.tree))
  }

  function Dest(m: Mapping): (r: Path) {
    CleanSegments(m.destination)
  }

  lemma DestNames(m: Mapping)
    requires ValidMapping(m)
    ensures Dest(m) == [] || ValidPath(Dest(m))
  {
    AgentAcceptsIff(m.destination);
  }

  /** `filepath.Join(destination, rel)` is the destination's segments followed by `rel`. */
  lemma JoinedPath(m: Mapping, rel: Path)
    requires ValidMapping(m) && m.destination != "" && ValidPath(rel)
    ensures JoinSegments(m.destination, Render(rel)) == Dest(m) + rel
  {
    CleanRender(rel);
    AgentAcceptsIff(Render(rel));
    JoinStaysBelow(m.destination, Render(rel));
  }

  // ----- The layer of one mapping -----

  /** Source directories the walk enters. */
  ghost function OpenDirs(r: Rules, m: Mapping): (s: set<Path>)
    requires m.source.SourceDir?
  {
    set rel | rel in m.source.tree && m.source.tree[rel].Dir? && !Skip(r, Render(Dest(m) + rel))
  }

  /** Source entries that reach staging: no part of them below the source root is skipped. */
  ghost function Contributed(r: Rules, m: Mapping): (s: set<Path>)
    requires m.source.SourceDir?
  {
    set rel | rel in m.source.tree && Reachable(m.source.tree, OpenDirs(r, m), rel)
  }

  ghost predicate Kept(r: Rules, m: Mapping, rel: Path)
    requires m.source.SourceDir?
  {
    rel in m.source.tree && !m.source.tree[rel].Link? && !Skip(r, Render(Dest(m) + rel))
  }

  ghost function DirFor(m: Mapping, rel: Path): (d: Path)
    requires m.source.SourceDir? && rel in m.source.tree && rel != []
  {
    if m.source.tree[rel].Dir? then Dest(m) + rel else Parent(Dest(m) + rel)
  }

  ghost function DirsOf(r: Rules, m: Mapping, rels: set<Path>): (s: set<Path>)
    requires m.source.SourceDir?
  {
    set rel, q | rel in rels && rel != [] && Kept(r, m, rel) && q in Prefixes(DirFor(m, rel)) :: q
  }

  ghost function FilesOf(r: Rules, m: Mapping, rels: set<Path>): (s: set<Path>)
    requires m.source.SourceDir?
  {
    set rel | rel in rels && Kept(r, m, rel) && m.source.tree[rel].File? :: Dest(m) + rel
  }

  /** The source content behind staged path `p`. */
  ghost function Original(m: Mapping, p: Path): (c: Content) {
    match m.source
    case Missing => ""
    case SourceFile(c) => c
    case SourceDir(tree) =>
      if |Dest(m)| <= |p| && p[|Dest(m)|..] in tree && tree[p[|Dest(m)|..]].File?
      then tree[p[|Dest(m)|..]].content else ""
  }

  ghost function Produced(m: Mapping, p: Path): (c: Content) {
    var out := m.transform(p, Original(m, p));
    if out.Some? then out.value else ""
  }

  ghost function TreeOf(m: Mapping, dirs: set<Path>, files: set<Path>): (t: Tree) {
    (map q | q in dirs :: Dir) + (map p | p in files :: File(Produced(m, p)))
  }

  ghost function PartOf(r: Rules, m: Mapping, rels: set<Path>): (t: Tree)
    requires m.source.SourceDir?
  {
    TreeOf(m, DirsOf(r, m, rels), FilesOf(r, m, rels))
  }

  ghost function Layer(r: Rules, m: Mapping): (t: Tree) {
    if m.isFile then
      if Skip(r, m.destination) || Dest(m) == [] then map[]
      else TreeOf(m, Prefixes(Parent(Dest(m))), {Dest(m)})
    else if m.source.SourceDir? then PartOf(r, m, Contributed(r, m))
    else map[]
  }

  ghost predicate Transforms(m: Mapping, files: set<Path>) {
    forall p :: p in files ==> m.transform(p, Original(m, p)).Some?
  }

  /** The mapping on its own can be staged. A missing source is an error even when optional. */
  ghost predicate Stageable(r: Rules, m: Mapping) {
    if m.isFile then
      Skip(r, m.destination) || (Dest(m) != [] && m.source.SourceFile? && Transforms(m, {Dest(m)}))
    else
      !m.source.Missing? && (m.source.SourceDir? ==> Transforms(m, FilesOf(r, m, Contributed(r, m))))
  }

  // ----- Staging one directory mapping -----

  lemma PrefixAfter(dest: Path, rel: Path, k: nat, f: Path)
    requires k <= |dest + rel| && (dest + rel)[..k] == dest + f
    ensures |f| <= |rel| && f == rel[..|f|]
  {
    assert f == (dest + f)[|dest|..] == (dest + rel)[..k][|dest|..] == rel[..|f|];
  }

  lemma DirIsNoFile(m: Mapping, rel: Path, k: nat, f: Path)
    requires ValidMapping(m) && m.source.SourceDir?
    requires rel in m.source.tree && rel != [] && 1 <= k <= |DirFor(m, rel)|
    requires f in m.source.tree && m.source.tree[f].File?
    ensures DirFor(m, rel)[..k] != Dest(m) + f
  {
    var dest, d := Dest(m), DirFor(m, rel);
    assert d[..k] == (dest + rel)[..k] && rel[..|rel|] == rel;
    if d[..k] == dest + f {
      PrefixAfter(dest, rel, k, f);
    }
  }

  lemma DirsAndFilesDisjoint(r: Rules, m: Mapping, rels: set<Path>, rels': set<Path>)
    requires ValidMapping(m) && m.source.SourceDir?
    ensures DirsOf(r, m, rels) !! FilesOf(r, m, rels')
  {
    forall q | q in DirsOf(r, m, rels)
      ensures q !in FilesOf(r, m, rels')
    {
      var rel :| rel in rels && rel != [] && Kept(r, m, rel) && q in Prefixes(DirFor(m, rel));
      var k :| 1 <= k <= |DirFor(m, rel)| && q == DirFor(m, rel)[..k];
      forall f | f in rels' && Kept(r, m, f) && m.source.tree[f].File?
        ensures q != Dest(m) + f
      {
        DirIsNoFile(m, rel, k, f);
      }
    }
  }

  /** What one source entry adds to the layer. */
  ghost function NewDirs(r: Rules, m: Mapping, rel: Path): (s: set<Path>)
    requires m.source.SourceDir?
  {
    if rel != [] && Kept(r, m, rel) then Prefixes(DirFor(m, rel)) else {}
  }

  ghost function NewFiles(r: Rules, m: Mapping, rel: Path): (s: set<Path>)
    requires m.source.SourceDir?
  {
    if Kept(r, m, rel) && m.source.tree[rel].File? then {Dest(m) + rel} else {}
  }

  lemma AddToPart(r: Rules, m: Mapping, rels: set<Path>, rel: Path)
    requires m.source.SourceDir?
    ensures DirsOf(r, m, rels + {rel}) == DirsOf(r, m, rels) + NewDirs(r, m, rel)
    ensures FilesOf(r, m, rels + {rel}) == FilesOf(r, m, rels) + NewFiles(r, m, rel)
  {
  }

  lemma PartsGrow(r: Rules, m: Mapping, done: set<Path>, all: set<Path>)
    requires m.source.SourceDir? && done <= all
    ensures DirsOf(r, m, done) <= DirsOf(r, m, all)
    ensures FilesOf(r, m, done) <= FilesOf(r, m, all)
  {
  }

  /** `t` is `t0` with the directories `dirs` and the files `files` of mapping `m` on top. */
  ghost predicate Stacked(m: Mapping, t0: Tree, dirs: set<Path>, files: set<Path>, t: Tree) {
    t == t0 + TreeOf(m, dirs, files) && Compatible(t0, TreeOf(m, dirs, files)) &&
    dirs !! files && Transforms(m, files) && WellFormed(t) && NoLinks(t)
  }

  lemma AddDirs(m: Mapping, t0: Tree, dirs: set<Path>, files: set<Path>, more: set<Path>)
    requires more !! files
    ensures WithDirs(t0 + TreeOf(m, dirs, files), more) == t0 + TreeOf(m, dirs + more, files)
  {
  }

  lemma AddFile(m: Mapping, t0: Tree, dirs: set<Path>, files: set<Path>, p: Path)
    ensures (t0 + TreeOf(m, dirs, files))[p := File(Produced(m, p))] == t0 + TreeOf(m, dirs, files + {p})
  {
  }

  lemma CompatibleMore(m: Mapping, t0: Tree, dirs: set<Path>, files: set<Path>, moreDirs: set<Path>, moreFiles: set<Path>)
    requires Compatible(t0, TreeOf(m, dirs, files)) && dirs + moreDirs !! files + moreFiles
    requires forall q :: q in moreDirs && q in t0 ==> t0[q].Dir?
    requires forall q :: q in moreFiles && q in t0 ==> !t0[q].Dir?
    ensures Compatible(t0, TreeOf(m, dirs + moreDirs, files + moreFiles))
  {
    var part, part' := TreeOf(m, dirs, files), TreeOf(m, dirs + moreDirs, files + moreFiles);
    forall q | q in t0 && q in part'
      ensures t0[q].Dir? <==> part'[q].Dir?
    {
      if q in part {
        assert part[q] == part'[q];
      }
    }
  }

  lemma StackDir(m: Mapping, t0: Tree, dirs: set<Path>, files: set<Path>, t: Tree, d: Path)
    requires Stacked(m, t0, dirs, files, t) && CanMkdirAll(t, d)
    requires d == [] || ValidPath(d)
    requires Prefixes(d) !! files
    ensures Stacked(m, t0, dirs + Prefixes(d), files, WithDirs(t, Prefixes(d)))
  {
    MkdirAllWellFormed(t, d);
    AddDirs(m, t0, dirs, files, Prefixes(d));
    CompatibleMore(m, t0, dirs, files, Prefixes(d), {}) by {
      assert forall q :: q in Prefixes(d) && q in t0 ==> q in t && t[q].Dir?;
      assert forall q :: q in t0 && t[q].Dir? ==> t0[q].Dir?;
    }
    assert files + {} == files;
  }

  lemma StackTop(m: Mapping, t0: Tree, dirs: set<Path>, files: set<Path>, t: Tree, p: Path, c: Content)
    requires Stacked(m, t0, dirs, files, t) && (p in t ==> !t[p].Dir?)
    requires dirs !! files + {p} && m.transform(p, Original(m, p)) == Some(c)
    requires WellFormed(t[p := File(c)])
    ensures Stacked(m, t0, dirs, files + {p}, t[p := File(c)])
  {
    AddFile(m, t0, dirs, files, p);
    assert p in t0 ==> !t0[p].Dir? by {
      assert p in t0 ==> p in t;
    }
    CompatibleMore(m, t0, dirs, files, {}, {p});
    assert dirs + {} == dirs;
  }

  lemma StackFile(m: Mapping, t0: Tree, dirs: set<Path>, files: set<Path>, t: Tree, p: Path, c: Content)
    requires Stacked(m, t0, dirs, files, t) && ValidPath(p) && CanPut(t, p)
    requires dirs + Prefixes(Parent(p)) !! files + {p}
    requires m.transform(p, Original(m, p)) == Some(c)
    ensures Stacked(m, t0, dirs + Prefixes(Parent(p)), files + {p}, Put(t, p, c))
  {
    var d := Parent(p);
    PutWellFormed(t, p, c);
    assert d == [] || ValidPath(d);
    StackDir(m, t0, dirs, files, t, d);
    StackTop(m, t0, dirs + Prefixes(d), files, WithDirs(t, Prefixes(d)), p, c);
  }

  /** A failing operation means that the whole layer cannot go on top of `t0`. */
  lemma ClashDir(m: Mapping, t0: Tree, dirs: set<Path>, files: set<Path>, t: Tree, d: Path,
                 allDirs: set<Path>, allFiles: set<Path>)
    requires Stacked(m, t0, dirs, files, t)
    requires files <= allFiles && Prefixes(d) <= allDirs && allDirs !! allFiles
    requires !CanMkdirAll(t, d)
    ensures !Compatible(t0, TreeOf(m, allDirs, allFiles))
  {
    var q :| q in Prefixes(d) && q in t && !t[q].Dir?;
    assert q in t0 && t0[q] == t[q] && TreeOf(m, allDirs, allFiles)[q].Dir?;
  }

  lemma ClashFile(m: Mapping, t0: Tree, dirs: set<Path>, files: set<Path>, t: Tree, p: Path,
                  allDirs: set<Path>, allFiles: set<Path>)
    requires Stacked(m, t0, dirs, files, t)
    requires dirs <= allDirs && p in allFiles && allDirs !! allFiles
    requires p in t && t[p].Dir?
    ensures !Compatible(t0, TreeOf(m, allDirs, allFiles))
  {
    assert p in t0 && t0[p].Dir? && TreeOf(m, allDirs, allFiles)[p].File?;
  }

  lemma StackNothing(m: Mapping, t: Tree)
    requires WellFormed(t) && NoLinks(t)
    ensures Stacked(m, t, {}, {}, t)
  {
    assert t + TreeOf(m, {}, {}) == t;
  }

  lemma StackOrClashDir(m: Mapping, t0: Tree, dirs: set<Path>, files: set<Path>, t: Tree, d: Path,
                        allDirs: set<Path>, allFiles: set<Path>)
    requires Stacked(m, t0, dirs, files, t) && ValidPath(d)
    requires dirs + Prefixes(d) <= allDirs && files <= allFiles && allDirs !! allFiles
    ensures if CanMkdirAll(t, d)
            then Stacked(m, t0, dirs + Prefixes(d), files, WithDirs(t, Prefixes(d)))
            else !Compatible(t0, TreeOf(m, allDirs, allFiles))
  {
    if CanMkdirAll(t, d) {
      StackDir(m, t0, dirs, files, t, d);
    } else {
      ClashDir(m, t0, dirs, files, t, d, allDirs, allFiles);
    }
  }

  lemma StackOrClashFile(m: Mapping, t0: Tree, dirs: set<Path>, files: set<Path>, t: Tree, p: Path,
                         allDirs: set<Path>, allFiles: set<Path>)
    requires Stacked(m, t0, dirs, files, t) && ValidPath(p)
    requires dirs + Prefixes(Parent(p)) <= allDirs && files + {p} <= allFiles && allDirs !! allFiles
    ensures var out := m.transform(p, Original(m, p));
            if CanPut(t, p) && out.Some?
            then Stacked(m, t0, dirs + Prefixes(Parent(p)), files + {p}, Put(t, p, out.value))
            else !(Transforms(m, allFiles) && Compatible(t0, TreeOf(m, allDirs, allFiles)))
  {
    var out := m.transform(p, Original(m, p));
    if !CanMkdirAll(t, Parent(p)) {
      ClashDir(m, t0, dirs, files, t, Parent(p), allDirs, allFiles);
    } else if p in t && t[p].Dir? {
      ClashFile(m, t0, dirs, files, t, p, allDirs, allFiles);
    } else if out.Some? {
      StackFile(m, t0, dirs, files, t, p, out.value);
    }
  }

  /** Copies a source file to its staged place, then templates and patches it there. */
  method StageOne(r: Rules, m: Mapping, disk: Disk, p: Path, src: Content) returns (ok: bool)
    requires CollisionFree(r.hash) && WellFormed(disk.staging) && NoLinks(disk.staging) && ValidPath(p)
    modifies disk`staging
    ensures ok <==> CanPut(old(disk.staging), p) && m.transform(p, src).Some?
    ensures ok ==> disk.staging == Put(old(disk.staging), p, m.transform(p, src).value)
  {
    if !CanMkdirAll(disk.staging, Parent(p)) {
      return false;
    }
    var copied, written, t := CopyFile(r.hash, src, disk.staging, p);
    disk.staging := t;
    if !copied {
      return false;
    }
    match m.transform(p, src)
    case None => return false;
    case Some(c) =>
      disk.staging := disk.staging[p := File(c)];
      return true;
  }

  method StageFileEntry(r: Rules, m: Mapping, disk: Disk, p: Path, src: Content, ghost t0: Tree, ghost dirs: set<Path>,
                        ghost files: set<Path>, ghost allDirs: set<Path>, ghost allFiles: set<Path>)
    returns (ok: bool)
    requires CollisionFree(r.hash) && ValidPath(p) && src == Original(m, p)
    requires Stacked(m, t0, dirs, files, disk.staging)
    requires dirs + Prefixes(Parent(p)) <= allDirs && files + {p} <= allFiles && allDirs !! allFiles
    modifies disk`staging
    ensures ok ==> Stacked(m, t0, dirs + Prefixes(Parent(p)), files + {p}, disk.staging)
    ensures !ok ==> !(Transforms(m, allFiles) && Compatible(t0, TreeOf(m, allDirs, allFiles)))
  {
    StackOrClashFile(m, t0, dirs, files, disk.staging, p, allDirs, allFiles);
    ok := StageOne(r, m, disk, p, src);
  }

  /** Stages the file at `p`, with its parents, on top of what is there. */
  method StageAlone(r: Rules, m: Mapping, disk: Disk, p: Path, src: Content) returns (ok: bool)
    requires CollisionFree(r.hash) && ValidPath(p) && src == Original(m, p)
    requires WellFormed(disk.staging) && NoLinks(disk.staging)
    modifies disk`staging
    ensures ok <==> Transforms(m, {p}) && Compatible(old(disk.staging), TreeOf(m, Prefixes(Parent(p)), {p}))
    ensures ok ==> disk.staging == old(disk.staging) + TreeOf(m, Prefixes(Parent(p)), {p})
    ensures ok ==> WellFormed(disk.staging) && NoLinks(disk.staging)
  {
    ghost var t0 := disk.staging;
    StackNothing(m, t0);
    NoPrefixTooLong(Parent(p), p);
    assert {} + Prefixes(Parent(p)) == Prefixes(Parent(p)) && {} + {p} == {p};
    ok := StageFileEntry(r, m, disk, p, src, t0, {}, {}, Prefixes(Parent(p)), {p});
  }

  method StageSingleFile(r: Rules, m: Mapping, disk: Disk) returns (ok: bool)
    requires ValidMapping(m) && m.isFile && CollisionFree(r.hash)
    requires WellFormed(disk.staging) && NoLinks(disk.staging)
    modifies disk`staging
    ensures ok <==> Stageable(r, m) && Compatible(old(disk.staging), Layer(r, m))
    ensures ok ==> disk.staging == old(disk.staging) + Layer(r, m)
    ensures ok ==> WellFormed(disk.staging) && NoLinks(disk.staging)
  {
    var excluded := ShouldExclude(r.glob, m.destination, r.excludes);
    var protected := IsProtected(r.glob, m.destination);
    if excluded || protected {
      assert disk.staging + map[] == disk.staging;
      return true;
    }
    var p := Dest(m);
    if p == [] || !m.source.SourceFile? {
      return false;
    }
    DestNames(m);
    ok := StageAlone(r, m, disk, p, m.source.content);
  }

  // ----- Staging a directory mapping -----

  lemma ContributedIsDone(r: Rules, m: Mapping, done: set<Path>)
    requires ValidMapping(m) && m.source.SourceDir?
    requires WalkInv(m.source.tree, OpenDirs(r, m), {}, done)
    ensures done == Contributed(r, m)
  {
    WalkEnd(m.source.tree, OpenDirs(r, m), done);
  }

  method StageSubdirectory(m: Mapping, disk: Disk, d: Path, ghost t0: Tree, ghost dirs: set<Path>,
                           ghost files: set<Path>, ghost allDirs: set<Path>, ghost allFiles: set<Path>)
    returns (ok: bool)
    requires ValidPath(d) && Stacked(m, t0, dirs, files, disk.staging)
    requires dirs + Prefixes(d) <= allDirs && files <= allFiles && allDirs !! allFiles
    modifies disk`staging
    ensures ok ==> Stacked(m, t0, dirs + Prefixes(d), files, disk.staging)
    ensures !ok ==> !Compatible(t0, TreeOf(m, allDirs, allFiles))
  {
    StackOrClashDir(m, t0, dirs, files, disk.staging, d, allDirs, allFiles);
    ok := CanMkdirAll(disk.staging, d);
    if ok {
      disk.staging := WithDirs(disk.staging, Prefixes(d));
    }
  }

  /** The callback of `stageDirectory` for one source entry. */
  method StageEntry(r: Rules, m: Mapping, disk: Disk, rel: Path, ghost t0: Tree, ghost dirs: set<Path>,
                    ghost files: set<Path>, ghost allDirs: set<Path>, ghost allFiles: set<Path>)
    returns (ok: bool, enter: bool)
    requires m.source.SourceDir? && CollisionFree(r.hash)
    requires ValidPath(rel) && rel in m.source.tree && ValidPath(Dest(m) + rel)
    requires Stacked(m, t0, dirs, files, disk.staging)
    requires dirs + NewDirs(r, m, rel) <= allDirs && files + NewFiles(r, m, rel) <= allFiles && allDirs !! allFiles
    modifies disk`staging
    ensures ok ==> Stacked(m, t0, dirs + NewDirs(r, m, rel), files + NewFiles(r, m, rel), disk.staging)
    ensures ok ==> (enter <==> m.source.tree[rel].Dir? && !Skip(r, Render(Dest(m) + rel)))
    ensures !ok ==> !(Transforms(m, allFiles) && Compatible(t0, TreeOf(m, allDirs, allFiles)))
  {
    var node, p := m.source.tree[rel], Dest(m) + rel;
    assert dirs + {} == dirs && files + {} == files;
    if node.Link? {
      return true, false;
    }
    var excluded := ShouldExclude(r.glob, Render(p), r.excludes);
    var protected := IsProtected(r.glob, Render(p));
    if excluded || protected {
      return true, false;
    }
    if node.Dir? {
      ok := StageSubdirectory(m, disk, p, t0, dirs, files, allDirs, allFiles);
      return ok, true;
    }
    assert p[|Dest(m)|..] == rel;
    ok := StageFileEntry(r, m, disk, p, node.content, t0, dirs, files, allDirs, allFiles);
    enter := false;
  }

  lemma VisitsContributed(r: Rules, m: Mapping, pending: set<Path>, done: set<Path>, rel: Path)
    requires m.source.SourceDir? && rel in pending
    requires WalkInv(m.source.tree, OpenDirs(r, m), pending, done)
    ensures done + {rel} <= Contributed(r, m) && ValidPath(rel)
  {
    forall q | q in done + {rel}
      ensures q in Contributed(r, m)
    {
      assert Sound(m.source.tree, OpenDirs(r, m), done, q);
    }
    assert Sound(m.source.tree, OpenDirs(r, m), done, rel);
  }

  /** One iteration of the walk over the source directory. */
  method StageVisit(r: Rules, m: Mapping, disk: Disk, rel: Path, ghost t0: Tree, ghost done: set<Path>)
    returns (ok: bool, enter: bool)
    requires m.source.SourceDir? && CollisionFree(r.hash)
    requires ValidPath(rel) && ValidPath(Dest(m) + rel) && done + {rel} <= Contributed(r, m)
    requires DirsOf(r, m, Contributed(r, m)) !! FilesOf(r, m, Contributed(r, m))
    requires Stacked(m, t0, DirsOf(r, m, done), FilesOf(r, m, done), disk.staging)
    modifies disk`staging
    ensures ok ==> (enter <==> rel in OpenDirs(r, m))
    ensures ok ==> Stacked(m, t0, DirsOf(r, m, done + {rel}), FilesOf(r, m, done + {rel}), disk.staging)
    ensures !ok ==> !(Transforms(m, FilesOf(r, m, Contributed(r, m))) && Compatible(t0, PartOf(r, m, Contributed(r, m))))
  {
    AddToPart(r, m, done, rel);
    PartsGrow(r, m, done + {rel}, Contributed(r, m));
    ok, enter := StageEntry(r, m, disk, rel, t0, DirsOf(r, m, done), FilesOf(r, m, done),
                            DirsOf(r, m, Contributed(r, m)), FilesOf(r, m, Contributed(r, m)));
  }

  method StageTree(r: Rules, m: Mapping, disk: Disk) returns (ok: bool)
    requires ValidMapping(m) && m.source.SourceDir? && CollisionFree(r.hash)
    requires WellFormed(disk.staging) && NoLinks(disk.staging)
    modifies disk`staging
    ensures var files := FilesOf(r, m, Contributed(r, m));
            ok <==> Transforms(m, files) && Compatible(old(disk.staging), PartOf(r, m, Contributed(r, m)))
    ensures ok ==> disk.staging == old(disk.staging) + PartOf(r, m, Contributed(r, m))
    ensures ok ==> WellFormed(disk.staging) && NoLinks(disk.staging)
  {
    var tree := m.source.tree;
    ghost var t0, open, done := disk.staging, OpenDirs(r, m), {};
    DirsAndFilesDisjoint(r, m, Contributed(r, m), Contributed(r, m));
    DestNames(m);
    var pending := Kids(tree, []);
    WalkStart(tree, open);
    StackNothing(m, t0);
    assert DirsOf(r, m, {}) == {} && FilesOf(r, m, {}) == {};
    while pending != {}
      invariant WalkInv(tree, open, pending, done)
      invariant Stacked(m, t0, DirsOf(r, m, done), FilesOf(r, m, done), disk.staging)
      decreases tree.Keys - done
    {
      var rel :| rel in pending;
      VisitsContributed(r, m, pending, done, rel);
      WalkStep(tree, open, pending, done, rel);
      var enter;
      ok, enter := StageVisit(r, m, disk, rel, t0, done);
      if !ok {
        return;
      }
      pending := Advance(tree, pending, rel, enter);
      done := done + {rel};
    }
    ContributedIsDone(r, m, done);
    return true;
  }

  method StageDirectory(r: Rules, m: Mapping, disk: Disk) returns (ok: bool)
    requires ValidMapping(m) && !m.isFile && CollisionFree(r.hash)
    requires WellFormed(disk.staging) && NoLinks(disk.staging)
    modifies disk`staging
    ensures ok <==> Stageable(r, m) && Compatible(old(disk.staging), Layer(r, m))
    ensures ok ==> disk.staging == old(disk.staging) + Layer(r, m)
    ensures ok ==> WellFormed(disk.staging) && NoLinks(disk.staging)
  {
    match m.source
    case Missing =>
      return false;
    case SourceFile(_) =>
      assert disk.staging + map[] == disk.staging;
      return true;
    case SourceDir(_) =>
      ok := StageTree(r, m, disk);
  }
}
