/**
 What a run does to the live tree, as plain set and map expressions, and the laws of that effect:
 frame, agreement of the dry run with the live run, idempotence and conservation.
 Nothing here mentions a walk.
 */
module Effects {
  import opened Paths
  import opened FileTree
  import opened Staging

  /** The path or a directory above it is excluded or protected. */
  ghost predicate Blocked(r: Rules, p: Path) {
    exists k :: 1 <= k <= |p| && Skip(r, Render(p[..k]))
  }

  /** Hypothesis of a run: live has no symbolic link where staging has an entry. */
  ghost predicate NoLinkAt(s: Tree, live: Tree) {
    forall p :: p in s && p in live ==> !live[p].Link?
  }

  ghost function AddedFiles(s: Tree, live: Tree): (r: set<Path>) {
    set p | p in s && s[p].File? && p != [] && IsMissing(live, p)
  }

  ghost function ModifiedFiles(s: Tree, live: Tree): (r: set<Path>) {
    set p | p in s && s[p].File? && p != [] && !IsMissing(live, p) && !(p in live && live[p] == s[p])
  }

  ghost function Orphans(r: Rules, roots: set<string>, t: Tree, s: Tree): (o: set<Path>) {
    set p | p in t && t[p].File? && Managed(p, roots) && !Blocked(r, p) && p != [] && IsMissing(s, p)
  }

  /** Directory `d` held some file of `gone`, and everything else below it goes too. */
  ghost predicate Drained(t: Tree, gone: set<Path>, d: Path) {
    (exists f :: f in gone && d < f) &&
    (forall q :: q in t && d < q ==>
       (t[q].File? && q in gone) || (t[q].Dir? && exists f :: f in gone && q < f))
  }

  /** The directories a run removes when it deletes the files `gone`. */
  ghost function Emptied(roots: set<string>, t: Tree, gone: set<Path>): (ds: set<Path>) {
    set d | d in t && t[d].Dir? && Managed(d, roots) && Drained(t, gone, d)
  }

  ghost function Cleaned(roots: set<string>, t: Tree, gone: set<Path>): (t': Tree) {
    t - gone - Emptied(roots, t, gone)
  }

  /** The live tree after a successful run with staging `s`. */
  ghost function Effect(r: Rules, roots: set<string>, live: Tree, s: Tree): (t: Tree) {
    var merged := live + s;
    Cleaned(roots, merged, Orphans(r, roots, merged, s))
  }

  /** The hypotheses under which a live run goes through. */
  ghost predicate Mergeable(live: Tree, s: Tree) {
    WellFormed(live) && WellFormed(s) && NoLinks(s) && NoLinkAt(s, live) && Compatible(live, s)
  }

  // ----- Laws -----

  /** Orphans are looked for after merging, yet they are the orphans of the old live tree. */
  lemma OrphansBeforeMerge(r: Rules, roots: set<string>, live: Tree, s: Tree)
    ensures Orphans(r, roots, live + s, s) == Orphans(r, roots, live, s)
  {
  }

  /** The files after a run: the old ones without the orphans, overridden by staging. */
  lemma EffectOnFiles(r: Rules, roots: set<string>, live: Tree, s: Tree)
    requires Mergeable(live, s)
    ensures Files(Effect(r, roots, live, s)) == Files(live) - Orphans(r, roots, live, s) + Files(s)
    ensures forall p :: p in Files(Effect(r, roots, live, s)) ==>
              Effect(r, roots, live, s)[p] == if p in s then s[p] else live[p]
  {
    OrphansBeforeMerge(r, roots, live, s);
    var merged, gone := live + s, Orphans(r, roots, live, s);
    var after := Cleaned(roots, merged, gone);
    forall p
      ensures p in Files(after) <==> p in Files(live) - gone + Files(s)
    {
      if p in live && p in s {
        assert live[p].Dir? <==> s[p].Dir?;
      }
    }
  }

  /** Managed paths that are not excluded or protected hold exactly what staging holds. */
  lemma ManagedMirrorsStaging(r: Rules, roots: set<string>, live: Tree, s: Tree, p: Path)
    requires Mergeable(live, s) && Managed(p, roots) && !Blocked(r, p)
    ensures p in Files(Effect(r, roots, live, s)) <==> p in Files(s)
    ensures p in Files(s) ==> Effect(r, roots, live, s)[p] == s[p]
  {
    EffectOnFiles(r, roots, live, s);
    if p in Files(live) {
      AbsentIsMissing(live, s, p);
    }
  }

  /** Frame: a file or link that is not staged and is unmanaged, excluded or protected stays as it was. */
  lemma UnmanagedUntouched(r: Rules, roots: set<string>, live: Tree, s: Tree, p: Path)
    requires Mergeable(live, s) && p !in s
    requires !Managed(p, roots) || Blocked(r, p)
    ensures p in Files(Effect(r, roots, live, s)) <==> p in Files(live)
    ensures p in Files(live) ==> Effect(r, roots, live, s)[p] == live[p]
    ensures p in live && live[p].Link? ==> p in Effect(r, roots, live, s) && Effect(r, roots, live, s)[p] == Link
  {
    EffectOnFiles(r, roots, live, s);
  }

  /** The dry run's three sets are exactly what a live run adds, rewrites and removes. */
  lemma DryRunPredicts(r: Rules, roots: set<string>, live: Tree, s: Tree)
    requires Mergeable(live, s)
    ensures var after := Effect(r, roots, live, s);
            && AddedFiles(s, live) == Files(after) - Files(live)
            && Orphans(r, roots, live, s) == Files(live) - Files(after)
            && ModifiedFiles(s, live) == set p | p in Files(live) && p in Files(after) && after[p] != live[p]
  {
    var after := Effect(r, roots, live, s);
    EffectOnFiles(r, roots, live, s);
    forall p | p in s
      ensures p != [] && (IsMissing(live, p) <==> p !in live)
      ensures p in live ==> (s[p].File? <==> live[p].File?)
    {
      AbsentIsMissing(s, live, p);
    }
  }

  /** File count after = before + added - deleted. */
  lemma Conservation(r: Rules, roots: set<string>, live: Tree, s: Tree)
    requires Mergeable(live, s)
    ensures |Files(Effect(r, roots, live, s))| ==
            |Files(live)| + |AddedFiles(s, live)| - |Orphans(r, roots, live, s)|
  {
    var after := Files(Effect(r, roots, live, s));
    DryRunPredicts(r, roots, live, s);
    CountChanges(Files(live), after, Orphans(r, roots, live, s), AddedFiles(s, live));
  }

  lemma CountChanges(before: set<Path>, after: set<Path>, lost: set<Path>, won: set<Path>)
    requires lost == before - after && won == after - before
    ensures |after| == |before| + |won| - |lost|
  {
    assert before == (before * after) + lost;
    assert after == (before * after) + won;
  }

  lemma DrainedBelow(roots: set<string>, t: Tree, gone: set<Path>, d: Path, q: Path)
    requires d in Emptied(roots, t, gone) && q in t && d < q && t[q].Dir?
    ensures q in Emptied(roots, t, gone)
  {
    ManagedExtends(d, q, roots);
    forall x | x in t && q < x
      ensures d < x
    {
      assert d == q[..|d|] == x[..|d|];
    }
  }

  lemma CleanedWellFormed(roots: set<string>, t: Tree, gone: set<Path>)
    requires WellFormed(t) && gone <= Files(t)
    ensures WellFormed(Cleaned(roots, t, gone))
  {
    var t' := Cleaned(roots, t, gone);
    forall p, k | p in t' && 1 <= k < |p|
      ensures p[..k] in t' && t'[p[..k]].Dir?
    {
      var d := p[..k];
      assert d in t && t[d].Dir?;
      if d in Emptied(roots, t, gone) {
        assert d < p;
        DrainedBelow(roots, t, gone, d, p);
      }
    }
  }

  /** Only managed directories go, nothing that survives lies below one of them, and none of them held a
      staged, excluded or protected file. */
  lemma RemovedDirectoriesAreSafe(r: Rules, roots: set<string>, live: Tree, s: Tree, d: Path)
    requires Mergeable(live, s) && d in live + s && d !in Effect(r, roots, live, s) && (live + s)[d].Dir?
    ensures Managed(d, roots)
    ensures forall p :: p in Effect(r, roots, live, s) ==> !(d < p)
    ensures forall p :: p in Files(live + s) && (p in s || Blocked(r, p)) ==> !(d < p)
  {
    var merged := live + s;
    var gone := Orphans(r, roots, merged, s);
    assert d in Emptied(roots, merged, gone);
    forall p | p in Effect(r, roots, live, s)
      ensures !(d < p)
    {
      if d < p {
        DrainedBelow(roots, merged, gone, d, p);
      }
    }
  }

  /** Cleanup is complete: no managed directory that lost a file is left empty. */
  lemma NoEmptyDirectoryLeft(r: Rules, roots: set<string>, live: Tree, s: Tree, d: Path, f: Path)
    requires Mergeable(live, s) && d in Effect(r, roots, live, s) && Managed(d, roots)
    requires f in Orphans(r, roots, live, s) && d < f
    ensures exists q :: q in Effect(r, roots, live, s) && d < q
  {
    OrphansBeforeMerge(r, roots, live, s);
    var merged, gone := live + s, Orphans(r, roots, live, s);
    MergedWellFormed(live, s);
    assert f[..|d|] == d && d in merged && merged[d].Dir?;
    assert !Drained(merged, gone, d);
    var q :| q in merged && d < q &&
      !((merged[q].File? && q in gone) || (merged[q].Dir? && exists f :: f in gone && q < f));
    assert q in Effect(r, roots, live, s);
  }

  /** A live file where staging needs a directory, or a staged file where live has one, is not `missing`: the
      dry run calls a staged file below it modified, and a live file below it no orphan. */
  lemma FileInTheWay(r: Rules, roots: set<string>, live: Tree, s: Tree, p: Path, q: Path)
    requires q < p && q != []
    ensures p in Files(s) && q in live && !live[q].Dir? && WellFormed(live) ==> p in ModifiedFiles(s, live) && p !in AddedFiles(s, live)
    ensures q in s && !s[q].Dir? ==> p !in Orphans(r, roots, live, s)
  {
    assert q == Parent(p)[..|q|];
    assert q in Prefixes(Parent(p));
    if p in live && WellFormed(live) {
      assert p[..|q|] == q;
    }
  }

  lemma EffectWellFormed(r: Rules, roots: set<string>, live: Tree, s: Tree)
    requires Mergeable(live, s)
    ensures WellFormed(Effect(r, roots, live, s))
  {
    MergedWellFormed(live, s);
    CleanedWellFormed(roots, live + s, Orphans(r, roots, live + s, s));
  }

  /** A second run of the same plan goes through, reports 0/0/0 and changes no file. */
  lemma Idempotence(r: Rules, roots: set<string>, live: Tree, s: Tree)
    requires Mergeable(live, s)
    ensures var once := Effect(r, roots, live, s);
            var twice := Effect(r, roots, once, s);
            && Mergeable(once, s)
            && AddedFiles(s, once) == {} && ModifiedFiles(s, once) == {} && Orphans(r, roots, once, s) == {}
            && Files(twice) == Files(once) && forall p :: p in Files(once) ==> twice[p] == once[p]
  {
    var once := Effect(r, roots, live, s);
    EffectOnFiles(r, roots, live, s);
    OrphansBeforeMerge(r, roots, live, s);
    EffectWellFormed(r, roots, live, s);
    forall p | p in s && p in once
      ensures once[p] == s[p]
    {
    }
    forall p | p in s && s[p].File?
      ensures p in once
    {
      assert p in Files(once);
    }
    forall p | p in Files(once) && Managed(p, roots) && !Blocked(r, p)
      ensures p in s
    {
      ManagedMirrorsStaging(r, roots, live, s, p);
    }
    EffectOnFiles(r, roots, once, s);
  }

  lemma NothingGone(roots: set<string>, t: Tree)
    ensures Cleaned(roots, t, {}) == t
  {
  }

  lemma SecondRunRestores(r: Rules, roots: set<string>, live: Tree, s: Tree)
    requires Mergeable(live, s)
    ensures var once := Effect(r, roots, live, s);
            Effect(r, roots, once, s) == once + s
  {
    var once := Effect(r, roots, live, s);
    Idempotence(r, roots, live, s);
    OrphansBeforeMerge(r, roots, once, s);
    NothingGone(roots, once + s);
  }

  /** Directories settle one run later: the second run may recreate a staged empty directory that the
      first one removed, and from then on the whole tree is a fixed point. */
  lemma SecondRunIsFixedPoint(r: Rules, roots: set<string>, live: Tree, s: Tree)
    requires Mergeable(live, s)
    ensures var twice := Effect(r, roots, Effect(r, roots, live, s), s);
            Effect(r, roots, twice, s) == twice
  {
    var once := Effect(r, roots, live, s);
    SecondRunRestores(r, roots, live, s);
    Idempotence(r, roots, live, s);
    SecondRunRestores(r, roots, once, s);
    assert once + s + s == once + s;
  }

  /** Staging adds nothing below a directory whose live content is all orphaned. */
  ghost predicate Hollow(live: Tree, s: Tree, gone: set<Path>, d: Path) {
    Drained(live, gone, d) && forall q :: q in s && d < q ==> q in live && live[q].Dir?
  }

  lemma DrainedIsHollow(live: Tree, s: Tree, gone: set<Path>, d: Path)
    requires Mergeable(live, s) && gone <= Files(live) && gone !! s.Keys && Drained(live + s, gone, d)
    ensures Hollow(live, s, gone, d)
  {
    forall q | q in s && d < q
      ensures q in live && live[q].Dir?
    {
      assert q in live + s && q !in gone;
      var f :| f in gone && q < f;
      assert f[..|q|] == q;
    }
    forall q | q in live && d < q
      ensures (live[q].File? && q in gone) || (live[q].Dir? && exists f :: f in gone && q < f)
    {
      assert q in live + s;
    }
  }

  lemma HollowIsDrained(live: Tree, s: Tree, gone: set<Path>, d: Path)
    requires Mergeable(live, s) && gone !! s.Keys && Hollow(live, s, gone, d)
    ensures Drained(live + s, gone, d)
  {
    forall q | q in live + s && d < q
      ensures ((live + s)[q].File? && q in gone) || ((live + s)[q].Dir? && exists f :: f in gone && q < f)
    {
      assert q in live;
    }
  }

  /** Exactly when one run is a fixed point of the whole tree: unless live held a managed directory, staged
      too, with nothing but orphans in it and nothing new staged below. */
  lemma FirstRunIsFixedPointIff(r: Rules, roots: set<string>, live: Tree, s: Tree)
    requires Mergeable(live, s)
    ensures var once := Effect(r, roots, live, s);
            Effect(r, roots, once, s) == once <==>
            forall d :: d in s && s[d].Dir? && Managed(d, roots) ==> !Hollow(live, s, Orphans(r, roots, live, s), d)
  {
    var once, merged, gone := Effect(r, roots, live, s), live + s, Orphans(r, roots, live, s);
    OrphansBeforeMerge(r, roots, live, s);
    SecondRunRestores(r, roots, live, s);
    EffectOnFiles(r, roots, live, s);
    forall d | d in s && s[d].Dir?
      ensures d !in once <==> Managed(d, roots) && Hollow(live, s, gone, d)
    {
      if Drained(merged, gone, d) {
        DrainedIsHollow(live, s, gone, d);
      }
      if Hollow(live, s, gone, d) {
        HollowIsDrained(live, s, gone, d);
      }
    }
    forall p | p in s && s[p].File?
      ensures p in once && once[p] == s[p]
    {
      assert p in Files(once);
    }
    assert once + s == once <==> forall d :: d in s ==> d in once && once[d] == s[d];
    assert forall d :: d in s && d in once ==> once[d] == s[d];
  }

  /** The first run alone need not be a fixed point on directories. */
  lemma FirstRunMayDropStagedDirectory(r: Rules)
    requires !Skip(r, "a") && !Skip(r, "a/f")
    ensures exists live: Tree, s: Tree ::
              Mergeable(live, s) && ["a"] in s && s[["a"]].Dir? && ["a"] !in Effect(r, {"a"}, live, s)
  {
    var d, f, roots := ["a"], ["a", "f"], {"a"};
    var live: Tree, s: Tree := map[d := Dir, f := File("")], map[d := Dir];
    assert ValidName("a") && ValidName("f");
    assert f[..1] == d && f[..2] == f && d[..1] == d;
    assert Render(d) == "a" && Render(f) == "a/f";
    assert Managed(d, roots) && Managed(f, roots);
    assert !Blocked(r, f);
    var merged := live + s;
    assert merged == live;
    var gone := Orphans(r, roots, merged, s);
    assert Parent(f) == d && Prefixes(d) == {d};
    assert gone == {f};
    assert d < f;
    assert Drained(merged, gone, d);
    assert Mergeable(live, s);
  }
}
