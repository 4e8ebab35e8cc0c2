/**
 When the agent's record does not describe live: which plans no live tree can satisfy together, and a run
 that records one of them after applying the other.
 */
module StaleRecord {
  import opened Options
  import opened Paths
  import opened FileTree
  import opened Staging
  import opened Overlay
  import opened Effects
  import opened Engine
  import opened AgentLoop

  /** Two staging trees, with their rules and roots, disagree about the file at `p`: both hold it,
      differently, or one holds it and the other manages its place without holding it. */
  ghost predicate Conflict(ra: Rules, rootsA: set<string>, a: Tree, rb: Rules, rootsB: set<string>, b: Tree, p: Path) {
    || (p in Files(a) && p in Files(b) && a[p] != b[p])
    || (p in Files(a) && p !in Files(b) && Managed(p, rootsB) && !Blocked(rb, p))
    || (p in Files(b) && p !in Files(a) && Managed(p, rootsA) && !Blocked(ra, p))
  }

  lemma UnionReflects(ra: Rules, rootsA: set<string>, a: Tree, rb: Rules, rootsB: set<string>, b: Tree)
    requires Compatible(a, b) && NoLinks(a) && NoLinks(b)
    requires forall p :: !Conflict(ra, rootsA, a, rb, rootsB, b, p)
    ensures Reflects(ra, rootsA, a, a + b) && Reflects(rb, rootsB, b, a + b)
  {
    var live := a + b;
    forall p | p in Files(a)
      ensures live[p] == a[p]
    {
      assert !Conflict(ra, rootsA, a, rb, rootsB, b, p);
    }
    forall p | p in Files(live)
      ensures Managed(p, rootsA) && !Blocked(ra, p) ==> p in Files(a)
      ensures Managed(p, rootsB) && !Blocked(rb, p) ==> p in Files(b)
    {
      assert !Conflict(ra, rootsA, a, rb, rootsB, b, p);
    }
  }

  /** Conflict is exactly what keeps one live tree from reflecting both. */
  lemma ConflictIff(ra: Rules, rootsA: set<string>, a: Tree, rb: Rules, rootsB: set<string>, b: Tree)
    requires Compatible(a, b) && WellFormed(a) && WellFormed(b) && NoLinks(a) && NoLinks(b)
    ensures (exists p :: Conflict(ra, rootsA, a, rb, rootsB, b, p)) <==>
            forall live: Tree :: WellFormed(live) ==> !(Reflects(ra, rootsA, a, live) && Reflects(rb, rootsB, b, live))
  {
    if forall p :: !Conflict(ra, rootsA, a, rb, rootsB, b, p) {
      UnionReflects(ra, rootsA, a, rb, rootsB, b);
      MergedWellFormed(a, b);
    }
  }

  lemma ConflictExcludes(ra: Rules, rootsA: set<string>, a: Tree, rb: Rules, rootsB: set<string>, b: Tree, live: Tree, p: Path)
    requires Conflict(ra, rootsA, a, rb, rootsB, b, p) && Reflects(ra, rootsA, a, live)
    ensures !Reflects(rb, rootsB, b, live)
  {
  }

  /** If the pair used and the pair recorded give conflicting plans, the record does not describe live. */
  lemma MismatchIsStale(w: World, s: State, p: Path)
    requires Good(w, s) && !s.torn && s.lastRun.Some?
    requires Active(w, s.lastRun.value.profiles) && Active(w, s.profiles)
    requires var used := w.build(w.lookup(s.lastRun.value.profiles).value, s.lastRun.value.head);
             var told := w.build(w.lookup(s.profiles).value, s.commit);
             used.Some? && told.Some? &&
             var ra, rb := RulesOf(w.glob, w.hash, used.value), RulesOf(w.glob, w.hash, told.value);
             Conflict(ra, Roots(used.value.mappings), Overlaid(ra, used.value.mappings),
                      rb, Roots(told.value.mappings), Overlaid(rb, told.value.mappings), p)
    ensures !Describes(w, s.live, s.commit, s.profiles)
  {
    var used := w.build(w.lookup(s.lastRun.value.profiles).value, s.lastRun.value.head).value;
    var told := w.build(w.lookup(s.profiles).value, s.commit).value;
    var ra, rb := RulesOf(w.glob, w.hash, used), RulesOf(w.glob, w.hash, told);
    assert Mirrors(ra, used.mappings, s.live);
    ConflictExcludes(ra, Roots(used.mappings), Overlaid(ra, used.mappings),
                     rb, Roots(told.mappings), Overlaid(rb, told.mappings), s.live, p);
  }

  // ----- Exactly when the tree a run leaves reflects another plan -----

  /** A live file that a run with staging `a` neither deletes nor overwrites. */
  ghost predicate Survives(r: Rules, roots: set<string>, live: Tree, a: Tree, p: Path) {
    p in Files(live) && p !in Files(a) && (!Managed(p, roots) || Blocked(r, p))
  }

  /** Stated on the tree before the run: what `b` holds is staged alike or survives alike, and what is
      staged or survives is in `b` wherever `b` manages. */
  ghost predicate Agrees(ra: Rules, rootsA: set<string>, a: Tree, rb: Rules, rootsB: set<string>, b: Tree, live: Tree) {
    && (forall p :: p in Files(b) ==>
          if p in Files(a) then a[p] == b[p] else Survives(ra, rootsA, live, a, p) && live[p] == b[p])
    && (forall p :: (p in Files(a) || Survives(ra, rootsA, live, a, p)) && Managed(p, rootsB) && !Blocked(rb, p) ==>
          p in Files(b))
  }

  /** The files after a run are those it staged and those that survived it. */
  lemma AfterRun(r: Rules, roots: set<string>, live: Tree, a: Tree, p: Path)
    requires Mergeable(live, a)
    ensures p in Files(Effect(r, roots, live, a)) <==> p in Files(a) || Survives(r, roots, live, a, p)
    ensures p in Files(a) ==> Effect(r, roots, live, a)[p] == a[p]
    ensures Survives(r, roots, live, a, p) ==> Effect(r, roots, live, a)[p] == live[p]
  {
    EffectOnFiles(r, roots, live, a);
    if p in Files(live) {
      AbsentIsMissing(live, a, p);
    }
  }

  /** A run of one plan leaves a tree that reflects another if and only if the two agree on the tree the
      run started from. */
  lemma RunReflectsOtherIff(ra: Rules, rootsA: set<string>, a: Tree, rb: Rules, rootsB: set<string>, b: Tree, live: Tree)
    requires Mergeable(live, a)
    ensures Reflects(rb, rootsB, b, Effect(ra, rootsA, live, a)) <==> Agrees(ra, rootsA, a, rb, rootsB, b, live)
  {
    forall p
      ensures var after := Effect(ra, rootsA, live, a);
              && (p in Files(after) <==> p in Files(a) || Survives(ra, rootsA, live, a, p))
              && (p in Files(a) ==> after[p] == a[p])
              && (Survives(ra, rootsA, live, a, p) ==> after[p] == live[p])
    {
      AfterRun(ra, rootsA, live, a, p);
    }
  }

  /** For the agent: right after a live sync, a record of any commit and active profiles describes live if
      and only if its plan can be built and staged and agrees with the plan used on the tree before. */
  lemma DescribesAfterSyncIff(w: World, live: Tree, live': Tree, head: string, second: Option<Metadata>, podRead: bool,
                              commit: string, profiles: string)
    requires ValidWorld(w) && WellFormed(live) && LinksAvoided(w, live) && Active(w, profiles)
    requires EngineStep(w, live, live', head, second, podRead, Done)
    ensures second.Some? && Active(w, second.value.profiles)
    ensures w.build(w.lookup(second.value.profiles).value, head).Some?
    ensures var used := w.build(w.lookup(second.value.profiles).value, head).value;
            var told := w.build(w.lookup(profiles).value, commit);
            Describes(w, live', commit, profiles) <==> told.Some? && PlansAgree(w, used, told.value, live)
  {
    var used := w.build(w.lookup(second.value.profiles).value, head).value;
    var r := RulesOf(w.glob, w.hash, used);
    var s := Overlaid(r, used.mappings);
    assert PlanAvoidsLinks(w, used, live);
    OverlaidWellFormed(r, used.mappings);
    assert live' == Effect(r, Roots(used.mappings), live, s);
    var told := w.build(w.lookup(profiles).value, commit);
    if told.Some? {
      var rb := RulesOf(w.glob, w.hash, told.value);
      RunReflectsOtherIff(r, Roots(used.mappings), s, rb, Roots(told.value.mappings), Overlaid(rb, told.value.mappings), live);
    }
  }

  ghost predicate PlansAgree(w: World, used: Plan, told: Plan, live: Tree) {
    var ra, rb := RulesOf(w.glob, w.hash, used), RulesOf(w.glob, w.hash, told);
    StagingSucceeds(rb, told.mappings) &&
    Agrees(ra, Roots(used.mappings), Overlaid(ra, used.mappings), rb, Roots(told.mappings), Overlaid(rb, told.mappings), live)
  }

  // ----- A run that ends that way -----

  /** A world whose profile string is itself the content of the one file `f`. */
  function EchoMapping(content: Content): (m: Mapping) {
    Mapping(SourceFile(content), "f", true, (q, c) => Some(c))
  }

  function Echo(): (w: World) {
    World((pattern, path) => false, c => c,
          profiles => Some(Profile(false, false, profiles)),
          (pr: Profile, commit) => Some(Plan([EchoMapping(pr.spec)], [], pr.dryRun)))
  }

  ghost function EchoRules(): (r: Rules)
    ensures forall path :: !Skip(r, path)
  {
    RulesOf(Echo().glob, Echo().hash, Plan([], [], false))
  }

  lemma EchoMaps(content: Content)
    ensures ValidMapping(EchoMapping(content)) && Dest(EchoMapping(content)) == ["f"]
  {
    SplitName("f");
    assert CleanOnto([], ["f"], false) == CleanOnto(["f"], [], false) == ["f"];
    AgentAcceptsIff("f");
  }

  lemma EchoStages(content: Content)
    ensures var r, ms := EchoRules(), [EchoMapping(content)];
            && ValidMappings(ms) && StagingSucceeds(r, ms)
            && ["f"] in Files(Overlaid(r, ms)) && Overlaid(r, ms)[["f"]] == File(content)
  {
    var r, m := EchoRules(), EchoMapping(content);
    EchoMaps(content);
    OrderedOverlay(r, [m], ["f"]);
    assert LastContributor(r, [m], 0, ["f"]);
  }

  lemma NothingToAvoid(w: World)
    ensures LinksAvoided(w, map[])
  {
  }

  lemma EchoIsValid()
    ensures ValidWorld(Echo())
  {
    forall pr: Profile, commit: string
      ensures ValidMappings(Echo().build(pr, commit).value.mappings)
    {
      EchoMaps(pr.spec);
    }
  }

  lemma EchoRuns(head: string, meta: Metadata) returns (live: Tree)
    ensures EngineStep(Echo(), map[], live, head, Some(meta), true, Done)
  {
    var r, ms := EchoRules(), [EchoMapping(meta.profiles)];
    EchoStages(meta.profiles);
    var s := Overlaid(r, ms);
    live := Effect(r, Roots(ms), map[], s);
    var result := Synced(|AddedFiles(s, map[])|, |ModifiedFiles(s, map[])|, |Orphans(r, Roots(ms), map[], s)|, None);
    assert Outcome(r, ms, false, map[], live, result);
  }

  function EchoStart(): (s: State) {
    State(map[], "", "", "", 0, 0, None, false)
  }

  function EchoTrigger(a: string, b: string): (e: Event) {
    Trigger(0, Some(Metadata("c", "", a)), Some("c"), "", false, Some(Metadata("c", "", b)), true, 0)
  }

  lemma EchoStep(a: string, b: string) returns (s': State)
    requires a != b
    ensures Next(Echo(), EchoStart(), EchoTrigger(a, b), s')
    ensures s'.lastRun == Some(Run("c", b)) && s'.commit == "c" && s'.profiles == a && !s'.torn
  {
    var second := Metadata("c", "", b);
    var live := EchoRuns("c", second);
    s' := State(live, "c", "c", a, 0, 0, Some(Run("c", b)), false);
    assert SyncStep(Echo(), EchoStart().(head := "c"), s', "c", a, Some(second), true, Done);
    assert s' == AfterSync(s', true, 0);
  }

  lemma EchoIsStale(a: string, b: string, s: State)
    requires a != b && Good(Echo(), s)
    requires s.lastRun == Some(Run("c", b)) && s.commit == "c" && s.profiles == a && !s.torn
    ensures !Describes(Echo(), s.live, s.commit, s.profiles)
  {
    EchoStages(a);
    EchoStages(b);
    MismatchIsStale(Echo(), s, ["f"]);
  }

  lemma EchoStartIsGood()
    ensures Good(Echo(), EchoStart())
  {
    EchoIsValid();
    NothingToAvoid(Echo());
  }

  predicate ReadsRecord(e: Event, s: State) {
    e.Trigger? && e.first.Some? && e.first.value.commit == s.commit && e.first.value.profiles == s.profiles
  }

  /** A real run: one trigger whose two reads see different profiles leaves a record that does not describe
      live, and every later trigger that reads the recorded pair changes nothing. */
  lemma StaleRun(a: string, b: string) returns (w: World, s: State, e: Event, s': State)
    requires a != b
    ensures Good(w, s) && s.live == map[] && s.lastRun.None?
    ensures Next(w, s, e, s') && !Steady(s, e) && s'.lastRun.Some? && !s'.torn
    ensures !Describes(w, s'.live, s'.commit, s'.profiles)
    ensures forall later: Event :: ReadsRecord(later, s') ==> Next(w, s', later, s')
  {
    w, s, e := Echo(), EchoStart(), EchoTrigger(a, b);
    EchoStartIsGood();
    s' := EchoStep(a, b);
    StepKeepsGood(w, s, e, s');
    EchoIsStale(a, b, s');
  }
}
