/**
 The agent's trigger loop: what it records about the last sync, and when that record describes the
 live tree. Metadata reads, git fetches, designer sessions and the clock are inputs of an event.
 Engine runs are serial.
 */
module AgentLoop {
  import opened Options
  import opened Paths
  import opened FileTree
  import opened Excludes
  import opened Staging
  import opened Overlay
  import opened Effects
  import opened Engine
  import opened Backoff

  datatype Metadata = Metadata(commit: string, paused: string, profiles: string)

  datatype Profile = Profile(paused: bool, dryRun: bool, spec: string)

  /** Fixed surroundings: `lookup` parses the profiles string and picks the agent's profile, `build`
      makes the plan from a profile and the checkout of a commit. */
  datatype World = World(glob: Glob, hash: Content -> string,
                         lookup: string -> Option<Profile>,
                         build: (Profile, string) -> Option<Plan>)

  ghost predicate ValidWorld(w: World) {
    CollisionFree(w.hash) &&
    forall pr, c :: w.build(pr, c).Some? ==>
      ValidMappings(w.build(pr, c).value.mappings) && w.build(pr, c).value.dryRun == pr.dryRun
  }

  datatype Event =
    | Startup(meta: Metadata, cloned: string, second: Option<Metadata>, podRead: bool)
    | Trigger(now: int, first: Option<Metadata>, fetched: Option<string>, headAfter: string,
              blocked: bool, second: Option<Metadata>, podRead: bool, later: int)
    | PostCommission(commit: string, second: Option<Metadata>, podRead: bool)

  /** A sync as it happened: the commit checked out and the profiles string the engine used. */
  datatype Run = Run(head: string, profiles: string)

  /** `commit` and `profiles` are what the agent recorded; `lastRun` and `torn` are history:
      the last successful sync, and whether a live run has failed after staging since one completed. */
  datatype State = State(live: Tree, head: string, commit: string, profiles: string,
                         errors: nat, backoffUntil: int, lastRun: Option<Run>, torn: bool)

  // ----- One sync -----

  datatype RunOutcome = Refused | Idle | Done | Torn

  ghost predicate EngineStep(w: World, live: Tree, live': Tree, head: string, second: Option<Metadata>, podRead: bool,
                             o: RunOutcome)
  {
    if second.None? || w.lookup(second.value.profiles).None? then
      o == Refused && live' == live
    else
      var pr := w.lookup(second.value.profiles).value;
      if pr.paused then
        o == Idle && live' == live
      else if !podRead || w.build(pr, head).None? then
        o == Refused && live' == live
      else
        var plan := w.build(pr, head).value;
        var r := RulesOf(w.glob, w.hash, plan);
        exists result ::
          Outcome(r, plan.mappings, plan.dryRun, live, live', result) &&
          o == if result.Synced? then (if plan.dryRun then Idle else Done)
               else if StagingSucceeds(r, plan.mappings) then Torn else Refused
  }

  /** `syncOnce`: runs the engine and, on success, records `commit` and `profiles`. */
  ghost predicate SyncStep(w: World, s: State, s': State, commit: string, profiles: string, second: Option<Metadata>,
                           podRead: bool, o: RunOutcome)
  {
    EngineStep(w, s.live, s'.live, s.head, second, podRead, o) &&
    match o
    case Refused => s' == s
    case Torn => s' == s.(live := s'.live, torn := true)
    case Idle => s' == s.(commit := commit, profiles := profiles, lastRun := Some(Run(s.head, second.value.profiles)))
    case Done => s' == s.(live := s'.live, commit := commit, profiles := profiles,
                          lastRun := Some(Run(s.head, second.value.profiles)), torn := false)
  }

  function BackOff(s: State, later: int): (s': State) {
    s.(errors := s.errors + 1, backoffUntil := later + AgentDelay(s.errors + 1))
  }

  function AfterSync(s: State, ok: bool, later: int): (s': State) {
    if ok then s.(errors := 0, backoffUntil := 0) else BackOff(s, later)
  }

  predicate Skips(s: State, e: Event)
    requires e.Trigger?
  {
    e.now < s.backoffUntil || e.first.None? || e.first.value.paused == "true" ||
    (e.first.value.commit == s.commit && e.first.value.profiles == s.profiles)
  }

  /** The designer check or a missing profile stops the sync after the fetch. */
  predicate Held(w: World, e: Event)
    requires e.Trigger? && e.first.Some?
  {
    var pr := w.lookup(e.first.value.profiles);
    pr.None? || (!pr.value.paused && !pr.value.dryRun && e.blocked)
  }

  ghost predicate Next(w: World, s: State, e: Event, s': State) {
    match e
    case Startup(meta, cloned, second, podRead) =>
      exists o :: SyncStep(w, s.(head := cloned), s', cloned, meta.profiles, second, podRead, o)
    case PostCommission(commit, second, podRead) =>
      exists o :: SyncStep(w, s, s', commit, s.profiles, second, podRead, o)
    case Trigger(_, first, fetched, headAfter, _, second, podRead, later) =>
      if Skips(s, e) then s' == s
      else if fetched.None? then s' == BackOff(s.(head := headAfter), later)
      else if Held(w, e) then s' == s.(head := fetched.value)
      else
        exists s2, o ::
          SyncStep(w, s.(head := fetched.value), s2, fetched.value, first.value.profiles, second, podRead, o) &&
          s' == AfterSync(s2, o == Idle || o == Done, later)
  }

  // ----- What the record means -----

  /** The managed files of `live` are exactly what the mappings stage. */
  ghost predicate Mirrors(r: Rules, ms: seq<Mapping>, live: Tree) {
    StagingSucceeds(r, ms) && Reflects(r, Roots(ms), Overlaid(r, ms), live)
  }

  ghost predicate Reflects(r: Rules, roots: set<string>, s: Tree, live: Tree) {
    (forall p :: p in Files(s) ==> p in live && live[p] == s[p]) &&
    (forall p :: p in Files(live) && Managed(p, roots) && !Blocked(r, p) ==> p in Files(s))
  }

  ghost predicate Active(w: World, profiles: string) {
    var pr := w.lookup(profiles);
    pr.Some? && !pr.value.paused && !pr.value.dryRun
  }

  /** Under an active profile, live is what the engine builds from the commit's checkout. */
  ghost predicate Describes(w: World, live: Tree, commit: string, profiles: string) {
    Active(w, profiles) ==>
      var plan := w.build(w.lookup(profiles).value, commit);
      plan.Some? && Mirrors(RulesOf(w.glob, w.hash, plan.value), plan.value.mappings, live)
  }

  /** No plan of this world writes where live has a symbolic link. */
  ghost predicate LinksAvoided(w: World, live: Tree) {
    forall pr, c :: w.build(pr, c).Some? ==> PlanAvoidsLinks(w, w.build(pr, c).value, live)
  }

  ghost predicate PlanAvoidsLinks(w: World, plan: Plan, live: Tree) {
    WritesNoLink(RulesOf(w.glob, w.hash, plan), plan.mappings, plan.dryRun, live)
  }

  ghost predicate Good(w: World, s: State) {
    && ValidWorld(w) && WellFormed(s.live) && LinksAvoided(w, s.live)
    && (!s.torn && s.lastRun.Some? ==> Describes(w, s.live, s.lastRun.value.head, s.lastRun.value.profiles))
  }

  /** The record says what the last successful sync used. */
  predicate Truthful(s: State) {
    s.lastRun == Some(Run(s.commit, s.profiles))
  }

  /** The two metadata reads agree; a post-commission sync finds the checkout and profiles it assumes. */
  predicate Steady(s: State, e: Event) {
    match e
    case Startup(meta, _, second, _) =>
      second.Some? ==> meta.profiles == second.value.profiles
    case Trigger(_, first, _, _, _, second, _, _) =>
      first.Some? && second.Some? ==> first.value.profiles == second.value.profiles
    case PostCommission(commit, second, _) =>
      second.Some? ==> s.head == commit && s.profiles == second.value.profiles
  }

  // ----- Preservation -----

  lemma EffectMirrors(r: Rules, ms: seq<Mapping>, live: Tree)
    requires ValidMappings(ms) && StagingSucceeds(r, ms) && Mergeable(live, Overlaid(r, ms))
    ensures Mirrors(r, ms, Effect(r, Roots(ms), live, Overlaid(r, ms)))
  {
    var s, roots := Overlaid(r, ms), Roots(ms);
    EffectOnFiles(r, roots, live, s);
    forall p | p in Files(Effect(r, roots, live, s)) && Managed(p, roots) && !Blocked(r, p)
      ensures p in Files(s)
    {
      ManagedMirrorsStaging(r, roots, live, s, p);
    }
  }

  /** A run creates no symbolic link. */
  ghost predicate NoNewLinks(live: Tree, live': Tree) {
    forall p :: p in live' && live'[p].Link? ==> p in live && live[p].Link?
  }

  lemma LinksStayAvoided(w: World, live: Tree, live': Tree)
    requires LinksAvoided(w, live) && NoNewLinks(live, live')
    ensures LinksAvoided(w, live')
  {
    forall pr, c | w.build(pr, c).Some?
      ensures PlanAvoidsLinks(w, w.build(pr, c).value, live')
    {
      assert PlanAvoidsLinks(w, w.build(pr, c).value, live);
    }
  }

  lemma OutcomeKeepsTree(r: Rules, ms: seq<Mapping>, dryRun: bool, live: Tree, live': Tree, result: SyncResult)
    requires ValidMappings(ms) && WellFormed(live) && WritesNoLink(r, ms, dryRun, live)
    requires Outcome(r, ms, dryRun, live, live', result)
    ensures WellFormed(live') && NoNewLinks(live, live')
    ensures result.Synced? && !dryRun ==> Mirrors(r, ms, live')
    ensures result.Synced? ==> StagingSucceeds(r, ms)
    ensures !StagingSucceeds(r, ms) || dryRun ==> live' == live
  {
    if StagingSucceeds(r, ms) && !dryRun {
      OverlaidWellFormed(r, ms);
      var s := Overlaid(r, ms);
      if Compatible(live, s) {
        EffectWellFormed(r, Roots(ms), live, s);
        EffectMirrors(r, ms, live);
      }
    }
  }

  lemma EngineKeeps(w: World, live: Tree, live': Tree, head: string, second: Option<Metadata>, podRead: bool, o: RunOutcome)
    requires ValidWorld(w) && WellFormed(live) && LinksAvoided(w, live)
    requires EngineStep(w, live, live', head, second, podRead, o)
    ensures WellFormed(live') && LinksAvoided(w, live')
    ensures o == Refused || o == Idle ==> live' == live
    ensures o == Idle || o == Done ==> second.Some? && Describes(w, live', head, second.value.profiles)
  {
    if second.Some? && w.lookup(second.value.profiles).Some? {
      var pr := w.lookup(second.value.profiles).value;
      if !pr.paused && podRead && w.build(pr, head).Some? {
        var plan := w.build(pr, head).value;
        var r := RulesOf(w.glob, w.hash, plan);
        var result :| Outcome(r, plan.mappings, plan.dryRun, live, live', result) &&
          o == if result.Synced? then (if plan.dryRun then Idle else Done)
               else if StagingSucceeds(r, plan.mappings) then Torn else Refused;
        assert PlanAvoidsLinks(w, plan, live);
        OutcomeKeepsTree(r, plan.mappings, plan.dryRun, live, live', result);
        LinksStayAvoided(w, live, live');
      }
    }
  }

  lemma SyncKeepsGood(w: World, s: State, s': State, commit: string, profiles: string, second: Option<Metadata>,
                      podRead: bool, o: RunOutcome)
    requires Good(w, s) && SyncStep(w, s, s', commit, profiles, second, podRead, o)
    ensures Good(w, s')
    ensures o == Idle || o == Done ==>
            second.Some? && s'.lastRun == Some(Run(s.head, second.value.profiles)) && s'.commit == commit && s'.profiles == profiles
    ensures o == Refused || o == Torn ==>
            s'.lastRun == s.lastRun && s'.commit == s.commit && s'.profiles == s.profiles
  {
    EngineKeeps(w, s.live, s'.live, s.head, second, podRead, o);
  }

  predicate SameRecord(s: State, s': State) {
    s'.lastRun == s.lastRun && s'.commit == s.commit && s'.profiles == s.profiles
  }

  /** The event changed nothing in the record, or what it left matches exactly if the event was steady. */
  predicate RecordsIffSteady(s: State, e: Event, s': State) {
    SameRecord(s, s') ||
    (s'.lastRun.Some? && (Truthful(s') <==> Steady(s, e)))
  }

  lemma StartupKeepsGood(w: World, s: State, e: Event, s': State)
    requires Good(w, s) && e.Startup? && Next(w, s, e, s')
    ensures Good(w, s') && RecordsIffSteady(s, e, s')
  {
    var started := s.(head := e.cloned);
    var o :| SyncStep(w, started, s', e.cloned, e.meta.profiles, e.second, e.podRead, o);
    SyncKeepsGood(w, started, s', e.cloned, e.meta.profiles, e.second, e.podRead, o);
  }

  lemma PostCommissionKeepsGood(w: World, s: State, e: Event, s': State)
    requires Good(w, s) && e.PostCommission? && Next(w, s, e, s')
    ensures Good(w, s') && RecordsIffSteady(s, e, s')
  {
    var o :| SyncStep(w, s, s', e.commit, s.profiles, e.second, e.podRead, o);
    SyncKeepsGood(w, s, s', e.commit, s.profiles, e.second, e.podRead, o);
  }

  lemma TriggerKeepsGood(w: World, s: State, e: Event, s': State, s2: State, o: RunOutcome)
    requires Good(w, s) && e.Trigger? && e.fetched.Some? && e.first.Some?
    requires SyncStep(w, s.(head := e.fetched.value), s2, e.fetched.value, e.first.value.profiles, e.second, e.podRead, o)
    requires s' == AfterSync(s2, o == Idle || o == Done, e.later)
    ensures Good(w, s') && RecordsIffSteady(s, e, s')
  {
    SyncKeepsGood(w, s.(head := e.fetched.value), s2, e.fetched.value, e.first.value.profiles, e.second, e.podRead, o);
  }

  /** Every event keeps the invariant, and steadiness is exactly what keeps the record truthful:
      an event that records something leaves a matching record if and only if it was steady. */
  lemma StepKeepsGood(w: World, s: State, e: Event, s': State)
    requires Good(w, s) && Next(w, s, e, s')
    ensures Good(w, s') && RecordsIffSteady(s, e, s')
  {
    if e.Startup? {
      StartupKeepsGood(w, s, e, s');
    } else if e.PostCommission? {
      PostCommissionKeepsGood(w, s, e, s');
    } else if !Skips(s, e) && e.fetched.Some? && !Held(w, e) {
      var s2, o :|
        SyncStep(w, s.(head := e.fetched.value), s2, e.fetched.value, e.first.value.profiles, e.second, e.podRead, o) &&
        s' == AfterSync(s2, o == Idle || o == Done, e.later);
      TriggerKeepsGood(w, s, e, s', s2, o);
    }
  }

  /** The 64-bit wrap reaches the loop: after the 30th consecutive error the next attempt is due at once. */
  lemma ThirtiethErrorDoesNotHoldBack(s: State, later: int)
    requires s.errors == 29
    ensures BackOff(s, later).backoffUntil < later
  {
    NegativeAt30();
  }

  // ----- Whole runs -----

  ghost predicate IsRun(w: World, states: seq<State>, events: seq<Event>) {
    |states| == |events| + 1 &&
    forall i :: 0 <= i < |events| ==> Next(w, states[i], events[i], states[i + 1])
  }

  lemma ExtendRun(w: World, states: seq<State>, events: seq<Event>, i: nat, s: State)
    requires i < |events| && IsRun(w, states, events[..i]) && Next(w, states[i], events[i], s)
    ensures IsRun(w, states + [s], events[..i + 1])
  {
    var states', events' := states + [s], events[..i + 1];
    forall j | 0 <= j < |events'|
      ensures Next(w, states'[j], events'[j], states'[j + 1])
    {
      if j < i {
        assert Next(w, states[j], events[..i][j], states[j + 1]);
      }
    }
  }

  /** Event `i` is the last one before state `n` that changed the record. */
  ghost predicate LastChange(states: seq<State>, i: nat, n: nat) {
    i < n < |states| && !SameRecord(states[i], states[i + 1]) &&
    forall j :: i < j < n ==> SameRecord(states[j], states[j + 1])
  }

  ghost predicate NoChange(states: seq<State>, n: nat) {
    n < |states| && forall j :: 0 <= j < n ==> SameRecord(states[j], states[j + 1])
  }

  /** The last change of the record came from a steady event, or there was none and it matched at first. */
  ghost predicate Settled(states: seq<State>, events: seq<Event>, n: nat)
    requires |states| == |events| + 1
  {
    || (exists i: nat :: LastChange(states, i, n) && Steady(states[i], events[i]))
    || (NoChange(states, n) && Truthful(states[0]))
  }

  lemma StepOfRun(w: World, states: seq<State>, events: seq<Event>, i: nat)
    requires IsRun(w, states, events) && i < |events| && Good(w, states[i])
    ensures Good(w, states[i + 1]) && RecordsIffSteady(states[i], events[i], states[i + 1])
  {
    StepKeepsGood(w, states[i], events[i], states[i + 1]);
  }

  lemma {:induction false} RunKeepsGood(w: World, states: seq<State>, events: seq<Event>, n: nat)
    requires IsRun(w, states, events) && n < |states| && Good(w, states[0])
    ensures Good(w, states[n])
  {
    if n > 0 {
      var i := n - 1;
      RunKeepsGood(w, states, events, i);
      StepOfRun(w, states, events, i);
      assert states[i + 1] == states[n];
    }
  }

  lemma {:induction false} RecordStays(states: seq<State>, i: nat, n: nat)
    requires i <= n < |states| && forall j :: i <= j < n ==> SameRecord(states[j], states[j + 1])
    ensures SameRecord(states[i], states[n])
  {
    if i < n {
      RecordStays(states, i, n - 1);
    }
  }

  lemma {:induction false} FindLastChange(states: seq<State>, n: nat) returns (i: nat)
    requires n < |states|
    ensures if i < n then LastChange(states, i, n) else NoChange(states, n)
  {
    i := 0;
    if n > 0 {
      if SameRecord(states[n - 1], states[n]) {
        i := FindLastChange(states, n - 1);
        if i >= n - 1 {
          i := n;
        }
      } else {
        i := n - 1;
      }
    }
  }

  lemma LastChangeIsUnique(states: seq<State>, i: nat, j: nat, n: nat)
    requires LastChange(states, i, n) && LastChange(states, j, n)
    ensures i == j
  {
  }

  lemma ChangeIffSteady(w: World, states: seq<State>, events: seq<Event>, i: nat)
    requires IsRun(w, states, events) && i < |events| && Good(w, states[0])
    ensures RecordsIffSteady(states[i], events[i], states[i + 1])
  {
    RunKeepsGood(w, states, events, i);
    StepOfRun(w, states, events, i);
  }

  lemma TruthfulIffSteady(states: seq<State>, e: Event, i: nat, n: nat)
    requires LastChange(states, i, n) && RecordsIffSteady(states[i], e, states[i + 1])
    ensures Truthful(states[n]) <==> Steady(states[i], e)
  {
    RecordStays(states, i + 1, n);
  }

  lemma TruthfulIffSettled(w: World, states: seq<State>, events: seq<Event>, n: nat)
    requires IsRun(w, states, events) && n < |states| && Good(w, states[0])
    ensures Truthful(states[n]) <==> Settled(states, events, n)
  {
    var i := FindLastChange(states, n);
    if i < n {
      ChangeIffSteady(w, states, events, i);
      TruthfulIffSteady(states, events[i], i, n);
      forall j: nat | LastChange(states, j, n)
        ensures j == i
      {
        LastChangeIsUnique(states, i, j, n);
      }
      assert !NoChange(states, n);
    } else {
      RecordStays(states, 0, n);
    }
  }

  /** The recorded state describes live. In every serial run, at every point, the record is the commit and
      profiles the engine last used if and only if the event that last changed it was steady, whatever
      happened before; and then, unless a live run has been left half done since, live is what the engine
      builds from the recorded commit and profiles. */
  lemma RecordDescribesLive(w: World, states: seq<State>, events: seq<Event>, n: nat)
    requires IsRun(w, states, events) && n < |states| && Good(w, states[0])
    ensures Good(w, states[n])
    ensures Truthful(states[n]) <==> Settled(states, events, n)
    ensures Settled(states, events, n) && !states[n].torn ==>
            Describes(w, states[n].live, states[n].commit, states[n].profiles)
  {
    RunKeepsGood(w, states, events, n);
    TruthfulIffSettled(w, states, events, n);
  }

  // ----- The agent -----

  class Agent {
    const w: World
    const disk: Disk
    var head: string
    var lastSyncedCommit: string
    var lastSyncedProfiles: string
    var consecutiveErrors: nat
    var backoffUntil: int
    var syncInProgress: bool
    ghost var lastRun: Option<Run>
    ghost var torn: bool

    ghost function Snapshot(): (s: State)
      reads this, disk
    {
      State(disk.live, head, lastSyncedCommit, lastSyncedProfiles, consecutiveErrors, backoffUntil, lastRun, torn)
    }

    ghost predicate Valid()
      reads this, disk
    {
      Good(w, Snapshot())
    }

    constructor (w: World, disk: Disk)
      requires ValidWorld(w) && WellFormed(disk.live) && LinksAvoided(w, disk.live)
      ensures this.w == w && this.disk == disk && Valid() && lastRun == None && !syncInProgress
    {
      this.w, this.disk := w, disk;
      head, lastSyncedCommit, lastSyncedProfiles := "", "", "";
      consecutiveErrors, backoffUntil, syncInProgress := 0, 0, false;
      lastRun, torn := None, false;
    }

    method SyncWithProfile(second: Option<Metadata>, podRead: bool) returns (ok: bool, ghost o: RunOutcome)
      requires Valid()
      modifies disk
      ensures EngineStep(w, old(disk.live), disk.live, head, second, podRead, o)
      ensures ok <==> o == Idle || o == Done
    {
      if second.None? {
        return false, Refused;
      }
      var profile := w.lookup(second.value.profiles);
      if profile.None? {
        return false, Refused;
      }
      if profile.value.paused {
        return true, Idle;
      }
      if !podRead {
        return false, Refused;
      }
      var plan := w.build(profile.value, head);
      if plan.None? {
        return false, Refused;
      }
      assert PlanAvoidsLinks(w, plan.value, disk.live);
      var result := ExecutePlan(w.glob, w.hash, plan.value, disk);
      ok := result.Synced?;
      o := if ok then (if plan.value.dryRun then Idle else Done)
           else if StagingSucceeds(RulesOf(w.glob, w.hash, plan.value), plan.value.mappings) then Torn else Refused;
    }

    method SyncOnce(commit: string, profiles: string, second: Option<Metadata>, podRead: bool)
      returns (ok: bool, ghost o: RunOutcome)
      requires Valid()
      modifies this, disk
      ensures SyncStep(w, old(Snapshot()), Snapshot(), commit, profiles, second, podRead, o)
      ensures ok <==> o == Idle || o == Done
    {
      ghost var s := Snapshot();
      ok, o := SyncWithProfile(second, podRead);
      EngineKeeps(w, s.live, disk.live, head, second, podRead, o);
      if ok {
        lastSyncedCommit, lastSyncedProfiles := commit, profiles;
        lastRun := Some(Run(head, second.value.profiles));
      }
      torn := o == Torn || (torn && o != Done);
    }

    method CountError(later: int)
      modifies this`consecutiveErrors, this`backoffUntil
      ensures Snapshot() == BackOff(old(Snapshot()), later)
    {
      consecutiveErrors := consecutiveErrors + 1;
      backoffUntil := later + AgentDelay(consecutiveErrors);
    }

    method Settle(ok: bool, later: int)
      modifies this`consecutiveErrors, this`backoffUntil
      ensures Snapshot() == AfterSync(old(Snapshot()), ok, later)
    {
      if ok {
        consecutiveErrors, backoffUntil := 0, 0;
      } else {
        CountError(later);
      }
    }

    /** What follows a successful fetch. */
    method SyncFetched(meta: Metadata, commit: string, e: Event) returns (ghost s2: State, ghost o: RunOutcome)
      requires Valid() && e.Trigger? && e.first == Some(meta)
      modifies this, disk
      ensures Held(w, e) ==> Snapshot() == old(Snapshot()).(head := commit)
      ensures !Held(w, e) ==>
              SyncStep(w, old(Snapshot()).(head := commit), s2, commit, meta.profiles, e.second, e.podRead, o)
      ensures !Held(w, e) ==> Snapshot() == AfterSync(s2, o == Idle || o == Done, e.later)
    {
      head := commit;
      s2, o := Snapshot(), Refused;
      assert s2 == old(Snapshot()).(head := commit);
      var profile := w.lookup(meta.profiles);
      if profile.None? || (!profile.value.paused && !profile.value.dryRun && e.blocked) {
        return;
      }
      var ok;
      ok, o := SyncOnce(commit, meta.profiles, e.second, e.podRead);
      s2 := Snapshot();
      Settle(ok, e.later);
    }

    /** A trigger that is not skipped: fetch, then sync. */
    method FetchAndSync(e: Event)
      requires Valid() && e.Trigger? && !Skips(Snapshot(), e)
      modifies this, disk
      ensures Next(w, old(Snapshot()), e, Snapshot()) && !syncInProgress
    {
      syncInProgress := true;
      if e.fetched.None? {
        head := e.headAfter;
        CountError(e.later);
      } else {
        ghost var s2, o := SyncFetched(e.first.value, e.fetched.value, e);
      }
      syncInProgress := false;
    }

    method HandleSyncTrigger(e: Event)
      requires Valid() && e.Trigger?
      modifies this, disk
      ensures Next(w, old(Snapshot()), e, Snapshot()) && Valid()
      ensures !Skips(old(Snapshot()), e) ==> !syncInProgress
      ensures e.now < old(backoffUntil) || e.first.None? || e.first.value.paused == "true" ==> Snapshot() == old(Snapshot())
    {
      if e.now < backoffUntil || e.first.None? || e.first.value.paused == "true" {
        return;
      }
      if e.first.value.commit == lastSyncedCommit && e.first.value.profiles == lastSyncedProfiles {
        return;
      }
      ghost var s := Snapshot();
      FetchAndSync(e);
      StepKeepsGood(w, s, e, Snapshot());
    }

    /** The blocking first sync after the clone; its errors are only logged. */
    method InitialSync(e: Event)
      requires Valid() && e.Startup?
      modifies this, disk
      ensures Next(w, old(Snapshot()), e, Snapshot()) && Valid()
    {
      ghost var s := Snapshot();
      head := e.cloned;
      assert Snapshot() == s.(head := e.cloned);
      var ok, o := SyncOnce(e.cloned, e.meta.profiles, e.second, e.podRead);
      StepKeepsGood(w, s, e, Snapshot());
    }

    method PostCommissionSync(e: Event)
      requires Valid() && e.PostCommission?
      modifies this, disk
      ensures Next(w, old(Snapshot()), e, Snapshot()) && Valid()
    {
      ghost var s := Snapshot();
      var ok, o := SyncOnce(e.commit, lastSyncedProfiles, e.second, e.podRead);
      StepKeepsGood(w, s, e, Snapshot());
    }

    method Handle(e: Event)
      requires Valid()
      modifies this, disk
      ensures Next(w, old(Snapshot()), e, Snapshot()) && Valid()
    {
      match e
      case Startup(_, _, _, _) => InitialSync(e);
      case PostCommission(_, _, _) => PostCommissionSync(e);
      case Trigger(_, _, _, _, _, _, _, _) => HandleSyncTrigger(e);
    }

    /** `Run` over any finite stretch of events; `states` is its history. */
    method Serve(events: seq<Event>) returns (ghost states: seq<State>)
      requires Valid()
      modifies this, disk
      ensures IsRun(w, states, events) && states[0] == old(Snapshot()) && states[|events|] == Snapshot()
      ensures Valid()
      ensures Truthful(Snapshot()) <==> Settled(states, events, |events|)
      ensures Settled(states, events, |events|) && !torn ==>
                Describes(w, disk.live, lastSyncedCommit, lastSyncedProfiles)
    {
      states := [Snapshot()];
      for i := 0 to |events|
        invariant Valid() && IsRun(w, states, events[..i])
        invariant states[0] == old(Snapshot()) && states[i] == Snapshot()
      {
        Handle(events[i]);
        ExtendRun(w, states, events, i, Snapshot());
        states := states + [Snapshot()];
      }
      assert events[..|events|] == events;
      RecordDescribesLive(w, states, events, |events|);
    }
  }
}
