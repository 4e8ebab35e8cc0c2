/**
 Slash-separated paths: rendering and splitting, `filepath.Clean` and `filepath.Join` on
 segments, the two managed-root tests, and the traversal tests of the agent and the controller.
 */
module Paths {

  /** A path below some directory: its segments, outermost first. */
  type Path = seq<string>

  /** A directory entry's name as the file system yields it. */
  predicate ValidName(n: string) {
    n != "" && '/' !in n && n != "." && n != ".."
  }

  predicate ValidPath(p: Path) {
    p != [] && forall i :: 0 <= i < |p| ==> ValidName(p[i])
  }

  predicate HasPrefix(s: string, prefix: string) {
    |prefix| <= |s| && s[..|prefix|] == prefix
  }

  function Render(p: Path): (s: string) {
    if p == [] then "" else if |p| == 1 then p[0] else p[0] + "/" + Render(p[1..])
  }

  lemma {:induction false} RenderConcat(p: Path, q: Path)
    requires p != [] && q != []
    ensures Render(p + q) == Render(p) + "/" + Render(q)
  {
    if |p| == 1 {
      assert (p + q)[1..] == q;
    } else {
      RenderConcat(p[1..], q);
      assert (p + q)[1..] == p[1..] + q;
    }
  }

  // ----- Managed roots -----

  /** The test of `isUnderManagedRoot` for one root, on raw strings. */
  predicate UnderRoot(rel: string, root: string) {
    rel == root || HasPrefix(rel, root + "/")
  }

  /** The test of `isAncestorOfManagedRoot` for one root, on raw strings. */
  predicate AncestorOfRoot(rel: string, root: string) {
    HasPrefix(root, rel + "/")
  }

  /** Segment-wise meaning of being managed: some prefix of `p` is spelt exactly as a root. */
  ghost predicate Managed(p: Path, roots: set<string>) {
    exists k :: 1 <= k <= |p| && Render(p[..k]) in roots
  }

  method IsUnderManagedRoot(rel: string, roots: set<string>) returns (under: bool)
    ensures under <==> exists root :: root in roots && UnderRoot(rel, root)
  {
    var rest := roots;
    while rest != {}
      invariant rest <= roots
      invariant forall root :: root in roots - rest ==> !UnderRoot(rel, root)
    {
      var root :| root in rest;
      if UnderRoot(rel, root) {
        return true;
      }
      rest := rest - {root};
    }
    return false;
  }

  method IsAncestorOfManagedRoot(rel: string, roots: set<string>) returns (above: bool)
    ensures above <==> exists root :: root in roots && AncestorOfRoot(rel, root)
  {
    var rest := roots;
    while rest != {}
      invariant rest <= roots
      invariant forall root :: root in roots - rest ==> !AncestorOfRoot(rel, root)
    {
      var root :| root in rest;
      if AncestorOfRoot(rel, root) {
        return true;
      }
      rest := rest - {root};
    }
    return false;
  }

  /** The raw-string test holds of a path exactly when one of its prefixes is spelt as the root. */
  lemma {:induction false} UnderRootIsPrefix(p: Path, root: string)
    requires ValidPath(p)
    ensures UnderRoot(Render(p), root) <==> exists k :: 1 <= k <= |p| && Render(p[..k]) == root
  {
    if UnderRoot(Render(p), root) {
      var k := RootLength(p, root);
    }
    forall k | 1 <= k <= |p| && Render(p[..k]) == root
      ensures UnderRoot(Render(p), root)
    {
      if k < |p| {
        RenderConcat(p[..k], p[k..]);
        assert p[..k] + p[k..] == p;
      } else {
        assert p[..k] == p;
      }
    }
  }

  lemma FirstSlash(n: string, t: string, root: string)
    requires '/' !in n && HasPrefix(n + t, root + "/")
    ensures |n| <= |root|
  {
    assert (n + t)[|root|] == (n + t)[..|root| + 1][|root|] == '/';
    assert forall i :: 0 <= i < |n| ==> (n + t)[i] == n[i] != '/';
  }

  lemma {:induction false} RootLength(p: Path, root: string) returns (k: nat)
    requires ValidPath(p) && UnderRoot(Render(p), root)
    ensures 1 <= k <= |p| && Render(p[..k]) == root
  {
    var s := Render(p);
    if s == root {
      k := |p|;
      assert p[..k] == p;
    } else if |p| == 1 {
      FirstSlash(p[0], "", root);
      assert false;
    } else {
      var tail := p[1..];
      assert s == p[0] + ("/" + Render(tail));
      FirstSlash(p[0], "/" + Render(tail), root);
      if |root| == |p[0]| {
        assert root == (root + "/")[..|root|] == s[..|root|] == p[0];
        k := 1;
        assert p[..1] == [p[0]];
      } else {
        var rest := root[|p[0]| + 1..];
        var n := |p[0]| + 1;
        assert root == (root + "/")[..|root|] == s[..|root|];
        assert root == p[0] + "/" + rest;
        assert Render(tail) == s[n..];
        assert HasPrefix(Render(tail), rest + "/") by {
          assert rest + "/" == (root + "/")[n..];
          assert s[..|root| + 1][n..] == s[n..][..|rest| + 1];
        }
        var j := RootLength(tail, rest);
        k := j + 1;
        assert p[..k] == [p[0]] + tail[..j];
        RenderConcat([p[0]], tail[..j]);
      }
    }
  }

  lemma ManagedIsUnder(p: Path, roots: set<string>)
    requires ValidPath(p)
    ensures Managed(p, roots) <==> exists root :: root in roots && UnderRoot(Render(p), root)
  {
    if Managed(p, roots) {
      var k :| 1 <= k <= |p| && Render(p[..k]) in roots;
      UnderRootIsPrefix(p, Render(p[..k]));
    }
    if exists root :: root in roots && UnderRoot(Render(p), root) {
      var root :| root in roots && UnderRoot(Render(p), root);
      UnderRootIsPrefix(p, root);
    }
  }

  lemma ManagedExtends(p: Path, q: Path, roots: set<string>)
    requires p <= q && Managed(p, roots)
    ensures Managed(q, roots)
  {
    var k :| 1 <= k <= |p| && Render(p[..k]) in roots;
    assert p[..k] == q[..k];
  }

  /** Why pruning is safe: on the way to a managed path every directory is managed or leads to a root. */
  lemma AncestorsOfManaged(p: Path, n: nat, roots: set<string>)
    requires Managed(p, roots) && 1 <= n <= |p|
    ensures Managed(p[..n], roots) || exists root :: root in roots && AncestorOfRoot(Render(p[..n]), root)
  {
    var k :| 1 <= k <= |p| && Render(p[..k]) in roots;
    if k <= n {
      assert p[..n][..k] == p[..k];
    } else {
      RenderConcat(p[..n], p[n..k]);
      assert p[..n] + p[n..k] == p[..k];
      assert AncestorOfRoot(Render(p[..n]), Render(p[..k]));
    }
  }

  /** A destination spelt the way the file system spells paths. */
  ghost predicate Canonical(root: string) {
    exists r :: ValidPath(r) && Render(r) == root
  }

  /** Among paths spelt by the file system, the test for ancestors of a root is the proper-prefix order. */
  lemma AncestorIsPrefix(d: Path, q: Path)
    requires ValidPath(d) && ValidPath(q)
    ensures AncestorOfRoot(Render(d), Render(q)) <==> d < q
  {
    if d < q {
      RenderConcat(d, q[|d|..]);
      assert q == d + q[|d|..];
    }
    if AncestorOfRoot(Render(d), Render(q)) {
      var k := RootLength(q, Render(d));
      SplitRender(q[..k]);
      SplitRender(d);
      assert q[..|q|] == q;
    }
  }

  /** A raw root manages some path exactly when it is canonical; all others manage nothing. */
  lemma RootMatchesIffCanonical(root: string)
    ensures Canonical(root) <==> exists p :: ValidPath(p) && UnderRoot(Render(p), root)
  {
    forall p | ValidPath(p) && UnderRoot(Render(p), root)
      ensures Canonical(root)
    {
      var k := RootLength(p, root);
      assert ValidPath(p[..k]);
    }
  }

  lemma {:induction false} RenderEnds(p: Path)
    requires ValidPath(p)
    ensures Render(p) != "" && Render(p)[|Render(p)| - 1] != '/' && Render(p) != "."
  {
    if |p| == 1 {
      assert p[0][|p[0]| - 1] in p[0];
    } else {
      RenderEnds(p[1..]);
    }
  }

  /** The quickstart's `projects/`, as well as `.` and the empty destination, manage nothing. */
  lemma SlashRootsMatchNothing(root: string, p: Path)
    requires root == "" || root == "." || root[|root| - 1] == '/'
    requires ValidPath(p)
    ensures !UnderRoot(Render(p), root)
  {
    if UnderRoot(Render(p), root) {
      var k := RootLength(p, root);
      RenderEnds(p[..k]);
      assert false;
    }
  }

  // ----- Clean, Join and the traversal tests -----

  /** One more character in front of a split string. */
  function Prepend(c: char, segs: seq<string>): (r: seq<string>)
    requires segs != []
  {
    if c == '/' then [""] + segs else [[c] + segs[0]] + segs[1..]
  }

  /** `strings.Split(s, "/")`. */
  function Split(s: string): (segs: seq<string>)
    ensures segs != []
    ensures forall i :: 0 <= i < |segs| ==> '/' !in segs[i]
  {
    if s == "" then [""] else Prepend(s[0], Split(s[1..]))
  }

  lemma SplitStep(c: char, t: string)
    ensures Split([c] + t) == Prepend(c, Split(t))
  {
    assert ([c] + t)[1..] == t;
  }

  lemma PrependConcat(c: char, segs: seq<string>, more: seq<string>)
    requires segs != []
    ensures Prepend(c, segs + more) == Prepend(c, segs) + more
  {
    assert (segs + more)[1..] == segs[1..] + more;
  }

  lemma {:induction false} SplitConcat(a: string, b: string)
    ensures Split(a + "/" + b) == Split(a) + Split(b)
  {
    if a == "" {
      SplitStep('/', b);
      assert a + "/" + b == ['/'] + b;
    } else {
      var c, t := a[0], a[1..];
      SplitConcat(t, b);
      SplitStep(c, t);
      SplitStep(c, t + "/" + b);
      PrependConcat(c, Split(t), Split(b));
      assert a == [c] + t;
      assert a + "/" + b == [c] + (t + "/" + b);
    }
  }

  lemma {:induction false} SplitName(n: string)
    requires '/' !in n
    ensures Split(n) == [n]
  {
    if n != "" {
      SplitName(n[1..]);
      assert [n[0]] + n[1..] == n;
    }
  }

  lemma {:induction false} SplitRender(p: Path)
    requires p != [] && forall i :: 0 <= i < |p| ==> '/' !in p[i]
    ensures Split(Render(p)) == p
  {
    SplitName(p[0]);
    if |p| > 1 {
      SplitRender(p[1..]);
      SplitConcat(p[0], Render(p[1..]));
    }
  }

  /** Splitting and joining with slashes are inverse to each other. */
  lemma {:induction false} RenderSplit(s: string)
    ensures Render(Split(s)) == s
  {
    if s != "" {
      var c, t := s[0], s[1..];
      RenderSplit(t);
      var rest := Split(t);
      assert s == [c] + t;
      if c == '/' {
        assert ([""] + rest)[1..] == rest;
      } else {
        assert Split(s)[1..] == rest[1..];
      }
    }
  }

  function Last(p: Path): string
    requires p != []
  {
    p[|p| - 1]
  }

  /** One step of `filepath.Clean`: what the segment `s` does to the segments kept so far. */
  function CleanStep(stack: Path, s: string, rooted: bool): (r: Path) {
    if s == "" || s == "." then stack
    else if s != ".." then stack + [s]
    else if stack != [] && Last(stack) != ".." then stack[..|stack| - 1]
    else if rooted then stack
    else stack + [s]
  }

  function CleanOnto(stack: Path, segs: seq<string>, rooted: bool): (r: Path)
    decreases |segs|
  {
    if segs == [] then stack else CleanOnto(CleanStep(stack, segs[0], rooted), segs[1..], rooted)
  }

  predicate IsAbs(s: string) {
    s != "" && s[0] == '/'
  }

  /** Segments of the cleaned path; `[]` stands for `.` (or `/` when rooted). */
  function CleanSegments(s: string): (r: Path) {
    CleanOnto([], Split(s), IsAbs(s))
  }

  function Clean(s: string): (r: string) {
    var segs := CleanSegments(s);
    if IsAbs(s) then "/" + Render(segs) else if segs == [] then "." else Render(segs)
  }

  /** `filepath.Join(root, rel)` for a non-empty root, as segments. */
  function JoinSegments(root: string, rel: string): (r: Path) {
    CleanSegments(root + "/" + rel)
  }

  predicate Contains(s: string, sub: string) {
    exists i :: 0 <= i <= |s| && HasPrefix(s[i..], sub)
  }

  /** The agent's test. */
  predicate ValidateResolvedPath(path: string) {
    !IsAbs(path) &&
    var cleaned := Clean(path);
    !(cleaned == ".." || HasPrefix(cleaned, "../") || Contains(cleaned, "/../"))
  }

  /** The controller's test. */
  predicate ValidatePath(p: string) {
    !IsAbs(p) && ".." !in Split(p)
  }

  /** Shape of a cleaned relative path: `..` segments first, then proper names. */
  ghost predicate UpsThenNames(p: Path, ups: nat) {
    ups <= |p| &&
    (forall i :: 0 <= i < ups ==> p[i] == "..") &&
    (forall i :: ups <= i < |p| ==> ValidName(p[i]))
  }

  lemma {:induction false} CleanShape(stack: Path, segs: seq<string>, ups: nat) returns (ups': nat)
    requires UpsThenNames(stack, ups)
    requires forall i :: 0 <= i < |segs| ==> '/' !in segs[i]
    ensures ups <= ups' && UpsThenNames(CleanOnto(stack, segs, false), ups')
    decreases |segs|
  {
    if segs == [] {
      ups' := ups;
    } else {
      var next := CleanStep(stack, segs[0], false);
      var n := if |stack| == ups && segs[0] == ".." then ups + 1 else ups;
      ups' := CleanShape(next, segs[1..], n);
    }
  }

  lemma Strip(s: string, prefix: string)
    requires HasPrefix(s, prefix)
    ensures s == prefix + s[|prefix|..]
  {
  }

  lemma FirstSegmentIs(p: Path, u: string)
    requires p != [] && '/' !in u && forall i :: 0 <= i < |p| ==> '/' !in p[i]
    ensures p[0] == u <==> Render(p) == u || HasPrefix(Render(p), u + "/")
  {
    var s := Render(p);
    SplitRender(p);
    SplitName(u);
    if HasPrefix(s, u + "/") {
      Strip(s, u + "/");
      SplitConcat(u, s[|u| + 1..]);
    }
  }

  lemma SegmentBetween(p: Path, a: string, u: string, b: string)
    requires p != [] && forall i :: 0 <= i < |p| ==> '/' !in p[i]
    requires '/' !in u && Render(p) == a + "/" + (u + "/" + b)
    ensures u in p && |p| > 1
  {
    SplitRender(p);
    SplitName(u);
    SplitConcat(u, b);
    SplitConcat(a, u + "/" + b);
    assert p[|Split(a)|] == u;
  }

  lemma CutAround(s: string, u: string) returns (a: string, b: string)
    requires Contains(s, "/" + u + "/")
    ensures s == a + "/" + (u + "/" + b)
  {
    var i :| 0 <= i <= |s| && HasPrefix(s[i..], "/" + u + "/");
    Strip(s[i..], "/" + u + "/");
    a, b := s[..i], s[i..][|u| + 2..];
  }

  /** The agent accepts a path exactly when it is relative and cleans to proper names only,
      and its third test never decides anything the second has not. */
  lemma AgentAcceptsIff(path: string)
    ensures ValidateResolvedPath(path) <==>
            !IsAbs(path) && forall i :: 0 <= i < |CleanSegments(path)| ==> ValidName(CleanSegments(path)[i])
    ensures !IsAbs(path) && Contains(Clean(path), "/../") ==> HasPrefix(Clean(path), "../")
  {
    if !IsAbs(path) {
      var segs := CleanSegments(path);
      var ups := CleanShape([], Split(path), 0);
      if segs != [] {
        FirstSegmentIs(segs, "..");
        assert ".." + "/" == "../" && "/" + ".." + "/" == "/../";
        if Contains(Render(segs), "/../") {
          var a, b := CutAround(Render(segs), "..");
          SegmentBetween(segs, a, "..", b);
        }
      }
    }
  }

  /** How far below its start a path ends: a name goes down, `..` goes up, `.` and empty parts stay. */
  function Net(segs: seq<string>): (n: int) {
    if segs == [] then 0
    else
      var s := segs[|segs| - 1];
      Net(segs[..|segs| - 1]) + if s == "" || s == "." then 0 else if s == ".." then -1 else 1
  }

  /** Read part by part, the path never climbs above where it started. */
  ghost predicate NeverAbove(segs: seq<string>) {
    forall k :: 0 <= k <= |segs| ==> Net(segs[..k]) >= 0
  }

  lemma NeverAboveSnoc(init: seq<string>, s: string)
    ensures NeverAbove(init + [s]) <==> NeverAbove(init) && Net(init + [s]) >= 0
  {
    var segs := init + [s];
    assert forall k :: 0 <= k <= |init| ==> segs[..k] == init[..k];
    assert segs[..|segs|] == segs;
  }

  lemma CleanSnoc(init: seq<string>, s: string, rooted: bool)
    ensures CleanOnto([], init + [s], rooted) == CleanStep(CleanOnto([], init, rooted), s, rooted)
    ensures (init + [s])[..|init|] == init
  {
    var c := CleanOnto([], init, rooted);
    CleanOntoConcat([], init, [s], rooted);
    assert CleanOnto(c, [s], rooted) == CleanStep(c, s, rooted);
  }

  lemma {:induction false} CleanCounts(segs: seq<string>) returns (ups: nat)
    requires forall i :: 0 <= i < |segs| ==> '/' !in segs[i]
    ensures UpsThenNames(CleanOnto([], segs, false), ups) && Net(segs) == |CleanOnto([], segs, false)| - 2 * ups
    ensures ups == 0 <==> NeverAbove(segs)
  {
    ups := 0;
    if segs != [] {
      var n := |segs| - 1;
      var init, s := segs[..n], segs[n];
      assert init + [s] == segs;
      ups := CleanCounts(init);
      CleanSnoc(init, s, false);
      NeverAboveSnoc(init, s);
      if s == ".." && |CleanOnto([], init, false)| == ups {
        ups := ups + 1;
      }
    }
  }

  /** The traversal guard is right: it accepts a path exactly when the path is relative and, read part by
      part, never climbs above where it started. */
  lemma AcceptsIffNeverAbove(path: string)
    ensures ValidateResolvedPath(path) <==> (path == "" || path[0] != '/') && NeverAbove(Split(path))
  {
    AgentAcceptsIff(path);
    if !IsAbs(path) {
      var ups := CleanCounts(Split(path));
      assert UpsThenNames(CleanSegments(path), ups);
      if ups > 0 {
        UpIsNoName(CleanSegments(path), ups);
      }
    }
  }

  /** The documented rules of `filepath.Clean`, which determine it: empty parts and `.` go anywhere, a name
      followed by `..` goes anywhere, `..` at the start of a rooted path goes; and leading `..` of a
      relative path and proper names stay. */
  lemma CleanRules(a: seq<string>, n: string, b: seq<string>, rooted: bool)
    ensures n == "" || n == "." ==> CleanOnto([], a + [n] + b, rooted) == CleanOnto([], a + b, rooted)
    ensures ValidName(n) ==> CleanOnto([], a + [n, ".."] + b, rooted) == CleanOnto([], a + b, rooted)
    ensures CleanOnto([], [".."] + b, true) == CleanOnto([], b, true)
  {
    var c := CleanOnto([], a, rooted);
    CleanOntoConcat([], a, b, rooted);
    CleanOntoConcat([], a + [n], b, rooted);
    CleanOntoConcat([], a, [n], rooted);
    assert CleanOnto(c, [n], rooted) == CleanStep(c, n, rooted);
    if ValidName(n) {
      CleanOntoConcat([], a + [n, ".."], b, rooted);
      CleanOntoConcat([], a, [n, ".."], rooted);
      assert CleanOnto(c, [n, ".."], rooted) == CleanOnto(c + [n], [".."], rooted) == CleanStep(c + [n], "..", rooted) == c;
    }
    assert ([".."] + b)[1..] == b;
  }

  lemma {:induction false} CleanKeeps(ups: nat, p: Path)
    requires UpsThenNames(p, ups)
    ensures CleanOnto([], p, false) == p
    decreases |p|
  {
    if p != [] {
      var n := |p| - 1;
      CleanKeeps(if ups <= n then ups else n, p[..n]);
      CleanSnoc(p[..n], p[n], false);
      assert p[..n] + [p[n]] == p;
    }
  }

  lemma UpIsNoName(p: Path, ups: nat)
    requires UpsThenNames(p, ups) && ups >= 1
    ensures exists i :: 0 <= i < |p| && !ValidName(p[i])
  {
    assert !ValidName(p[0]);
  }

  /** Appending to a base and cleaning never digs into the base while the relative part stays at
      or below where it started. */
  lemma {:induction false} CleanAboveBase(base: Path, stack: Path, segs: seq<string>, rooted: bool)
    requires forall i :: 0 <= i < |stack| ==> ValidName(stack[i])
    requires forall i :: 0 <= i < |segs| ==> '/' !in segs[i]
    requires forall i :: 0 <= i < |CleanOnto(stack, segs, false)| ==> ValidName(CleanOnto(stack, segs, false)[i])
    ensures CleanOnto(base + stack, segs, rooted) == base + CleanOnto(stack, segs, false)
    decreases |segs|
  {
    if segs != [] {
      var next := CleanStep(stack, segs[0], false);
      var out := CleanOnto(next, segs[1..], false);
      assert out == CleanOnto(stack, segs, false);
      if stack == [] && segs[0] == ".." {
        var ups := CleanShape(next, segs[1..], 1);
        UpIsNoName(out, ups);
        assert false;
      } else {
        assert CleanStep(base + stack, segs[0], rooted) == base + next;
        CleanAboveBase(base, next, segs[1..], rooted);
      }
    }
  }

  lemma {:induction false} CleanOntoConcat(stack: Path, a: seq<string>, b: seq<string>, rooted: bool)
    ensures CleanOnto(stack, a + b, rooted) == CleanOnto(CleanOnto(stack, a, rooted), b, rooted)
    decreases |a|
  {
    if a == [] {
      assert a + b == b;
    } else {
      CleanOntoConcat(CleanStep(stack, a[0], rooted), a[1..], b, rooted);
      assert (a + b)[1..] == a[1..] + b;
    }
  }

  /** Path containment: joining an accepted path to any root stays at or below that root. */
  lemma JoinStaysBelow(root: string, rel: string)
    requires root != "" && ValidateResolvedPath(rel)
    ensures JoinSegments(root, rel) == CleanSegments(root) + CleanSegments(rel)
  {
    AgentAcceptsIff(rel);
    SplitConcat(root, rel);
    assert root + "/" + rel == root + ("/" + rel);
    CleanOntoConcat([], Split(root), Split(rel), IsAbs(root));
    CleanAboveBase(CleanSegments(root), [], Split(rel), IsAbs(root));
    assert CleanSegments(root) + [] == CleanSegments(root);
  }

  lemma {:induction false} NoUpsStayNames(stack: Path, segs: seq<string>)
    requires forall i :: 0 <= i < |stack| ==> ValidName(stack[i])
    requires forall i :: 0 <= i < |segs| ==> '/' !in segs[i] && segs[i] != ".."
    ensures forall i :: 0 <= i < |CleanOnto(stack, segs, false)| ==> ValidName(CleanOnto(stack, segs, false)[i])
    decreases |segs|
  {
    if segs != [] {
      NoUpsStayNames(CleanStep(stack, segs[0], false), segs[1..]);
    }
  }

  /** Whatever the controller's component test lets through, the agent's cleaned test does too. */
  lemma ControllerImpliesAgent(path: string)
    requires ValidatePath(path)
    ensures ValidateResolvedPath(path)
  {
    AgentAcceptsIff(path);
    NoUpsStayNames([], Split(path));
  }

  /** The controller's test, part by part: no part is `..`, and the first is empty only if it is the only one. */
  lemma ControllerAcceptsIff(segs: seq<string>)
    requires segs != [] && forall i :: 0 <= i < |segs| ==> '/' !in segs[i]
    ensures ValidatePath(Render(segs)) <==> (forall i :: 0 <= i < |segs| ==> segs[i] != "..") && (segs[0] == "" ==> |segs| == 1)
  {
    SplitRender(segs);
    if segs[0] != "" {
      assert segs[0][0] in segs[0];
    }
  }

  lemma {:induction false} CleanNames(stack: Path, p: Path, rooted: bool)
    requires forall i :: 0 <= i < |p| ==> ValidName(p[i])
    ensures CleanOnto(stack, p, rooted) == stack + p
    decreases |p|
  {
    if p != [] {
      CleanNames(stack + [p[0]], p[1..], rooted);
      assert stack + [p[0]] + p[1..] == stack + p;
    } else {
      assert stack + p == stack;
    }
  }

  /** A rendered path is relative and cleans to itself. */
  lemma CleanRender(p: Path)
    requires ValidPath(p)
    ensures CleanSegments(Render(p)) == p && !IsAbs(Render(p))
  {
    assert p[0][0] in p[0];
    SplitRender(p);
    CleanNames([], p, false);
    assert [] + p == p;
  }

  /** Canonical destinations are exactly the fixed points of `Clean` among accepted paths other than `.`. */
  lemma CanonicalIffClean(root: string)
    requires ValidateResolvedPath(root)
    ensures Canonical(root) <==> Clean(root) == root && root != "."
  {
    AgentAcceptsIff(root);
    if Canonical(root) {
      var r :| ValidPath(r) && Render(r) == root;
      CleanRender(r);
      RenderEnds(r);
    }
  }
}
