/**
 What exclude and protected patterns, and managed roots, keep safe. Staging tests only the parts of a
 path below a mapping's destination, and a file mapping's raw destination; cleanup tests every part.
 */
module Protection {
  import opened Options
  import opened Paths
  import opened FileTree
  import opened Staging
  import opened Overlay
  import opened Effects
  import opened Engine

  // ----- Staged paths and the path's own test -----

  /** No staged file is itself skipped, provided file mappings spell their destination canonically. */
  lemma StagedIsNotSkipped(r: Rules, m: Mapping, p: Path)
    requires ValidMapping(m) && Contributes(r, m, p)
    requires m.isFile ==> Canonical(m.destination)
    ensures !Skip(r, Render(p))
  {
    if m.isFile {
      CanonicalIffClean(m.destination);
    } else {
      assert p[..|p|] == p;
    }
  }

  /** Rules that skip one path and no other. */
  ghost function SkipOnly(target: string): (r: Rules)
    ensures forall path :: Skip(r, path) <==> path == target
  {
    var r := Rules((pattern, path) => path == target, c => c, ["*"]);
    assert r.glob(r.excludes[0], target);
    r
  }

  /** For file mappings the proviso is exact: a destination is canonical if and only if no rules let the
      mapping stage a path they skip. */
  lemma FileMappingObeysIff(m: Mapping)
    requires ValidMapping(m) && m.isFile && Dest(m) != []
    ensures Canonical(m.destination) <==>
            forall r: Rules :: Contributes(r, m, Dest(m)) ==> !Skip(r, Render(Dest(m)))
  {
    var p := Dest(m);
    DestNames(m);
    if Canonical(m.destination) {
      CanonicalIffClean(m.destination);
    } else {
      var r := SkipOnly(Render(p));
      assert m.destination != Render(p);
      assert Contributes(r, m, p) && Skip(r, Render(p));
    }
  }

  /** At plan level: a skipped path is staged exactly when some file mapping denotes it under a spelling
      that is not skipped; with canonical file destinations there is none. */
  lemma SkippedStagedIff(r: Rules, ms: seq<Mapping>, p: Path)
    requires ValidMappings(ms) && StagingSucceeds(r, ms) && Skip(r, Render(p))
    ensures p in Files(Overlaid(r, ms)) <==>
            exists i :: 0 <= i < |ms| && ms[i].isFile && Dest(ms[i]) == p && p != [] && !Skip(r, ms[i].destination)
    ensures (forall i :: 0 <= i < |ms| && ms[i].isFile ==> Canonical(ms[i].destination)) ==> p !in Files(Overlaid(r, ms))
  {
    OrderedOverlay(r, ms, p);
    forall i | 0 <= i < |ms| && Contributes(r, ms[i], p)
      ensures ms[i].isFile && !Canonical(ms[i].destination)
    {
      if !ms[i].isFile || Canonical(ms[i].destination) {
        StagedIsNotSkipped(r, ms[i], p);
      }
    }
  }

  /** Without that proviso it fails: the exclude test of a file mapping sees the raw destination. */
  lemma StagedDespiteExclude(content: Content) returns (r: Rules, m: Mapping, p: Path)
    ensures ValidMapping(m) && Contributes(r, m, p) && Skip(r, Render(p))
  {
    p := ["a", "b"];
    r := Rules((pattern, path) => pattern == path == "a/b", c => c, ["a/b"]);
    m := Mapping(SourceFile(content), "a//b", true, (q, c) => Some(c));
    SplitName("a");
    SplitName("");
    SplitName("b");
    SplitConcat("", "b");
    SplitConcat("a", "" + "/" + "b");
    assert m.destination == "a" + "/" + ("" + "/" + "b");
    assert Split(m.destination) == ["a", "", "b"];
    assert CleanOnto(["a"], ["b"], false) == p;
    assert CleanOnto(["a"], ["", "b"], false) == p;
    AgentAcceptsIff(m.destination);
    assert r.glob(r.excludes[0], Render(p));
    assert !Skip(r, m.destination);
  }

  // ----- Blocked paths: some part of the path is skipped -----

  /** The mapping supplies the file, spelt by where the skipped parts of its path lie. */
  ghost predicate Supplies(r: Rules, m: Mapping, p: Path) {
    if m.isFile then
      Dest(m) == p && p != [] && !Skip(r, m.destination)
    else
      && m.source.SourceDir? && Dest(m) < p && p[|Dest(m)|..] in Files(m.source.tree)
      && forall k :: 1 <= k <= |p| && Skip(r, Render(p[..k])) ==> k <= |Dest(m)|
  }

  /** Staging holds a file, blocked or not, exactly when some mapping has it and every skipped part of its
      path lies at or above that mapping's destination. */
  lemma StagedIff(r: Rules, ms: seq<Mapping>, p: Path)
    requires ValidMappings(ms) && StagingSucceeds(r, ms)
    ensures p in Files(Overlaid(r, ms)) <==> exists i :: 0 <= i < |ms| && Supplies(r, ms[i], p)
  {
    OrderedOverlay(r, ms, p);
    forall i | 0 <= i < |ms|
      ensures Contributes(r, ms[i], p) <==> Supplies(r, ms[i], p)
    {
    }
  }

  /** The rules cannot be got around through this destination: it is not blocked itself, or everything
      directly below it is skipped anyway. */
  ghost predicate Obeys(r: Rules, m: Mapping) {
    || !Blocked(r, Dest(m))
    || (if m.isFile then Skip(r, m.destination) || Dest(m) == []
        else forall n :: ValidName(n) ==> Skip(r, Render(Dest(m) + [n])))
  }

  ghost predicate SameTarget(m: Mapping, m': Mapping) {
    ValidMapping(m') && m'.destination == m.destination && m'.isFile == m.isFile
  }

  lemma ObeyingSuppliesUnblocked(r: Rules, m: Mapping, p: Path)
    requires ValidMapping(m) && Obeys(r, m) && Contributes(r, m, p)
    ensures !Blocked(r, p)
  {
    if !m.isFile {
      var d := Dest(m);
      var n := p[|d|];
      assert p[|d|..][0] == n && ValidName(n);
      assert p[..|d| + 1] == d + [n];
      assert !Blocked(r, d);
      forall k | 1 <= k <= |p|
        ensures !Skip(r, Render(p[..k]))
      {
        if k <= |d| {
          assert p[..k] == d[..k];
        }
      }
    }
  }

  lemma BlockedBelow(r: Rules, d: Path, p: Path)
    requires Blocked(r, d) && d <= p
    ensures Blocked(r, p)
  {
    var k :| 1 <= k <= |d| && Skip(r, Render(d[..k]));
    assert p[..k] == d[..k];
  }

  ghost function OneFile(n: string, content: Content): (t: Tree)
    requires ValidName(n)
    ensures WellFormed(t)
  {
    assert ValidPath([n]);
    map[[n] := File(content)]
  }

  lemma SuppliesOneFile(r: Rules, m: Mapping, n: string, content: Content)
    requires ValidName(n) && !m.isFile && m.source == SourceDir(OneFile(n, content))
    requires !Skip(r, Render(Dest(m) + [n]))
    ensures Contributes(r, m, Dest(m) + [n]) && Original(m, Dest(m) + [n]) == content
  {
    var p := Dest(m) + [n];
    assert p[|Dest(m)|..] == [n] && p[..|p|] == p;
  }

  lemma DisobeyingSuppliesBlocked(r: Rules, m: Mapping) returns (m': Mapping, p: Path)
    requires ValidMapping(m) && !Obeys(r, m)
    ensures SameTarget(m, m') && Contributes(r, m', p) && Blocked(r, p)
  {
    var d := Dest(m);
    if m.isFile {
      m', p := m, d;
    } else {
      var n :| ValidName(n) && !Skip(r, Render(d + [n]));
      m', p := m.(source := SourceDir(OneFile(n, ""))), d + [n];
      SuppliesOneFile(r, m', n, "");
      BlockedBelow(r, d, p);
    }
  }

  /** That condition on destination and rules is exact: it holds if and only if no mapping with this
      destination, whatever its source, stages a blocked path. */
  lemma ObeysIff(r: Rules, m: Mapping)
    requires ValidMapping(m)
    ensures Obeys(r, m) <==>
            forall m': Mapping, p: Path ::
              SameTarget(m, m') && Contributes(r, m', p) ==> !Blocked(r, p)
  {
    if Obeys(r, m) {
      forall m': Mapping, p: Path | SameTarget(m, m') && Contributes(r, m', p)
        ensures !Blocked(r, p)
      {
        ObeyingSuppliesUnblocked(r, m', p);
      }
    } else {
      var m', p := DisobeyingSuppliesBlocked(r, m);
    }
  }

  lemma CanonicalDest(d: Path, m: Mapping)
    requires ValidPath(d) && m.destination == Render(d) && (m.source.SourceDir? ==> WellFormed(m.source.tree))
    ensures ValidMapping(m) && Canonical(m.destination) && Dest(m) == d
  {
    CleanRender(d);
    AgentAcceptsIff(m.destination);
  }

  lemma LoneMapping(r: Rules, m: Mapping)
    requires !m.isFile && m.source.SourceDir? && forall q, c :: m.transform(q, c).Some?
    ensures StagingSucceeds(r, [m])
  {
  }

  /** It can fail for any destination: an exclude of exactly that directory does not keep a mapping to it
      from staging, and so overwriting, the files below. */
  lemma StagedBelowExcluded(d: Path, n: string, content: Content) returns (r: Rules, m: Mapping)
    requires ValidPath(d) && ValidName(n)
    ensures ValidMapping(m) && Canonical(m.destination) && Dest(m) == d && StagingSucceeds(r, [m])
    ensures Contributes(r, m, d + [n]) && Blocked(r, d + [n]) && Produced(m, d + [n]) == content
  {
    r := SkipOnly(Render(d));
    m := Mapping(SourceDir(OneFile(n, content)), Render(d), false, (q, c) => Some(c));
    CanonicalDest(d, m);
    LoneMapping(r, m);
    RenderConcat(d, [n]);
    SuppliesOneFile(r, m, n, content);
    assert d[..|d|] == d && Skip(r, Render(d[..|d|]));
    BlockedBelow(r, d, d + [n]);
  }

  // ----- What a run leaves alone -----

  /** Frame, path by path and exactly: a file that is unmanaged, excluded or protected survives every run
      with this staging tree unchanged if and only if staging does not hold it. */
  lemma FrameIff(r: Rules, roots: set<string>, s: Tree, p: Path)
    requires WellFormed(s) && NoLinks(s) && (!Managed(p, roots) || Blocked(r, p))
    ensures p !in Files(s) <==>
            forall live: Tree :: Mergeable(live, s) && p in Files(live) ==>
              p in Effect(r, roots, live, s) && Effect(r, roots, live, s)[p] == live[p]
  {
    if p in Files(s) {
      var live := s[p := File(s[p].content + "!")];
      assert Mergeable(live, s) && p in Files(live);
      EffectOnFiles(r, roots, live, s);
    } else {
      forall live: Tree | Mergeable(live, s) && p in Files(live)
        ensures p in Effect(r, roots, live, s) && Effect(r, roots, live, s)[p] == live[p]
      {
        assert p !in s;
        UnmanagedUntouched(r, roots, live, s, p);
        assert p in Files(Effect(r, roots, live, s));
      }
    }
  }

  /** The same for a plan: a blocked path is safe in every live tree if and only if no mapping supplies it. */
  lemma BlockedSurvivesIff(r: Rules, ms: seq<Mapping>, p: Path)
    requires ValidMappings(ms) && StagingSucceeds(r, ms) && Blocked(r, p)
    ensures (forall i :: 0 <= i < |ms| ==> !Supplies(r, ms[i], p)) <==>
            forall live: Tree :: Mergeable(live, Overlaid(r, ms)) && p in Files(live) ==>
              var after := Effect(r, Roots(ms), live, Overlaid(r, ms));
              p in after && after[p] == live[p]
  {
    OverlaidWellFormed(r, ms);
    StagedIff(r, ms, p);
    FrameIff(r, Roots(ms), Overlaid(r, ms), p);
  }

  /** What becomes of a live file with a skipped part in its path: no run deletes it, and it keeps its
      content unless a mapping supplies it; then it gets what the last such mapping produces. */
  lemma FateOfBlocked(r: Rules, ms: seq<Mapping>, live: Tree, after: Tree, result: SyncResult, p: Path)
    requires ValidMappings(ms) && WellFormed(live) && NoLinkAt(Overlaid(r, ms), live)
    requires Outcome(r, ms, false, live, after, result) && result.Synced?
    requires p in Files(live) && Blocked(r, p)
    ensures p in Files(after)
    ensures (forall i :: 0 <= i < |ms| ==> !Supplies(r, ms[i], p)) ==> after[p] == live[p]
    ensures forall i: nat :: LastContributor(r, ms, i, p) ==> after[p] == File(Produced(ms[i], p))
  {
    var s := Overlaid(r, ms);
    OverlaidWellFormed(r, ms);
    StagedIff(r, ms, p);
    OrderedOverlay(r, ms, p);
    EffectOnFiles(r, Roots(ms), live, s);
    if p in s {
      assert live[p].Dir? <==> s[p].Dir?;
    }
  }

  /** Excluded and protected live files are never touched when the file mappings are canonical. */
  lemma SkippedUntouched(r: Rules, ms: seq<Mapping>, live: Tree, after: Tree, result: SyncResult, p: Path)
    requires ValidMappings(ms) && WellFormed(live) && NoLinkAt(Overlaid(r, ms), live)
    requires forall i :: 0 <= i < |ms| && ms[i].isFile ==> Canonical(ms[i].destination)
    requires Outcome(r, ms, false, live, after, result) && result.Synced?
    requires p in Files(live) && Skip(r, Render(p))
    ensures p in after && after[p] == live[p]
  {
    var s := Overlaid(r, ms);
    OverlaidWellFormed(r, ms);
    SkippedStagedIff(r, ms, p);
    assert p[..|p|] == p && Blocked(r, p);
    FrameIff(r, Roots(ms), s, p);
  }

  /** Nor are files below an excluded or protected directory, when every destination obeys the rules. */
  lemma BlockedUntouched(r: Rules, ms: seq<Mapping>, live: Tree, after: Tree, result: SyncResult, p: Path)
    requires ValidMappings(ms) && WellFormed(live) && NoLinkAt(Overlaid(r, ms), live)
    requires forall i :: 0 <= i < |ms| ==> Obeys(r, ms[i])
    requires Outcome(r, ms, false, live, after, result) && result.Synced?
    requires p in Files(live) && Blocked(r, p)
    ensures p in after && after[p] == live[p]
  {
    var s := Overlaid(r, ms);
    OverlaidWellFormed(r, ms);
    OrderedOverlay(r, ms, p);
    forall i | 0 <= i < |ms|
      ensures !Contributes(r, ms[i], p)
    {
      if Contributes(r, ms[i], p) {
        ObeyingSuppliesUnblocked(r, ms[i], p);
      }
    }
    FrameIff(r, Roots(ms), s, p);
  }

  /** What a mapping stages is managed through its own destination exactly when that is canonical. */
  lemma StagedIsManagedIff(r: Rules, m: Mapping, p: Path)
    requires ValidMapping(m) && ValidPath(p) && Contributes(r, m, p)
    ensures Managed(p, {m.destination}) <==> Canonical(m.destination)
  {
    if Managed(p, {m.destination}) {
      var k :| 1 <= k <= |p| && Render(p[..k]) in {m.destination};
      assert ValidPath(p[..k]);
    }
    if Canonical(m.destination) {
      var d :| ValidPath(d) && Render(d) == m.destination;
      CleanRender(d);
      assert p[..|d|] == d;
    }
  }
}
