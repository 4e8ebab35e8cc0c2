/**
 What each event of the agent does, said of the event and the states alone: when it changes nothing, when it
 only moves the checkout, when it counts an error, and when it runs the engine and with what result.
 */
module Triggers {
  import opened Options
  import opened FileTree
  import opened Overlay
  import opened Engine
  import opened Backoff
  import opened AgentLoop

  /** The trigger asks for work: no backoff, metadata read, not paused, and a new commit or new profiles. */
  ghost predicate Asks(s: State, e: Event) {
    e.Trigger? && s.backoffUntil <= e.now && e.first.Some? && e.first.value.paused != "true" &&
    (e.first.value.commit != s.commit || e.first.value.profiles != s.profiles)
  }

  /** Backoff, an unreadable ConfigMap, a paused CR and an unchanged pair all leave the agent as it was. */
  lemma HeldOff(w: World, s: State, e: Event, s': State)
    requires Next(w, s, e, s') && e.Trigger? && !Asks(s, e)
    ensures s' == s
  {
  }

  /** A failed fetch counts an error and sets the deadline; live and record stay. */
  lemma FetchFails(w: World, s: State, e: Event, s': State)
    requires Next(w, s, e, s') && Asks(s, e) && e.fetched.None?
    ensures s' == s.(head := e.headAfter, errors := s.errors + 1, backoffUntil := e.later + AgentDelay(s.errors + 1))
  {
  }

  /** Designer sessions hold back a sync of a profile that is neither paused nor a dry run. */
  ghost predicate Withheld(w: World, e: Event)
    requires e.Trigger? && e.first.Some?
  {
    match w.lookup(e.first.value.profiles)
    case None => true
    case Some(profile) => e.blocked && !profile.paused && !profile.dryRun
  }

  /** A missing profile or a designer session stops the sync after the fetch: only the checkout moves. */
  lemma HeldBack(w: World, s: State, e: Event, s': State)
    requires Next(w, s, e, s') && Asks(s, e) && e.fetched.Some? && Withheld(w, e)
    ensures s' == s.(head := e.fetched.value)
  {
  }

  /** The engine gets no plan: no second read, no profile, or an active one without pod labels or plan. */
  ghost predicate NoPlan(w: World, head: string, second: Option<Metadata>, podRead: bool) {
    second.None? || w.lookup(second.value.profiles).None? ||
    var profile := w.lookup(second.value.profiles).value;
    !profile.paused && (!podRead || w.build(profile, head).None?)
  }

  /** A sync that succeeded records the commit and profiles it was told and forgets earlier errors; one
      that failed records nothing. */
  ghost predicate Recorded(s: State, s': State, commit: string, profiles: string, used: string, ok: bool) {
    if ok then s'.commit == commit && s'.profiles == profiles && s'.lastRun == Some(Run(s'.head, used))
    else SameRecord(s, s')
  }

  /** One sync from checkout `s'.head`, by what the second read and the engine gave. */
  ghost predicate Ran(w: World, s: State, s': State, commit: string, profiles: string, second: Option<Metadata>,
                      podRead: bool, ok: bool)
  {
    if NoPlan(w, s'.head, second, podRead) then
      !ok && s'.live == s.live && SameRecord(s, s')
    else
      var used := second.value.profiles;
      var profile := w.lookup(used).value;
      Recorded(s, s', commit, profiles, used, ok) &&
      if profile.paused then
        ok && s'.live == s.live
      else
        var plan := w.build(profile, s'.head).value;
        exists result ::
          Outcome(RulesOf(w.glob, w.hash, plan), plan.mappings, plan.dryRun, s.live, s'.live, result) && (ok <==> result.Synced?)
  }

  lemma SyncRan(w: World, s: State, s': State, commit: string, profiles: string, second: Option<Metadata>,
                podRead: bool, o: RunOutcome)
    requires SyncStep(w, s, s', commit, profiles, second, podRead, o)
    ensures Ran(w, s, s', commit, profiles, second, podRead, o == Idle || o == Done)
    ensures s'.head == s.head && s'.errors == s.errors && s'.backoffUntil == s.backoffUntil
  {
  }

  /** Any other trigger runs the engine on the fetched commit; success clears the errors, failure adds one. */
  lemma Syncs(w: World, s: State, e: Event, s': State) returns (ok: bool)
    requires Next(w, s, e, s') && Asks(s, e) && e.fetched.Some? && !Withheld(w, e)
    ensures s'.head == e.fetched.value
    ensures Ran(w, s, s', e.fetched.value, e.first.value.profiles, e.second, e.podRead, ok)
    ensures if ok then s'.errors == 0 && s'.backoffUntil == 0
            else s'.errors == s.errors + 1 && s'.backoffUntil == e.later + AgentDelay(s.errors + 1)
  {
    var from := s.(head := e.fetched.value);
    var s2, o :|
      SyncStep(w, from, s2, e.fetched.value, e.first.value.profiles, e.second, e.podRead, o) &&
      s' == AfterSync(s2, o == Idle || o == Done, e.later);
    SyncRan(w, from, s2, e.fetched.value, e.first.value.profiles, e.second, e.podRead, o);
    ok := o == Idle || o == Done;
  }

  /** The first sync uses the cloned commit and the profiles read before cloning; errors do not count. */
  lemma Starts(w: World, s: State, e: Event, s': State) returns (ok: bool)
    requires Next(w, s, e, s') && e.Startup?
    ensures s'.head == e.cloned && s'.errors == s.errors && s'.backoffUntil == s.backoffUntil
    ensures Ran(w, s, s', e.cloned, e.meta.profiles, e.second, e.podRead, ok)
  {
    var from := s.(head := e.cloned);
    var o :| SyncStep(w, from, s', e.cloned, e.meta.profiles, e.second, e.podRead, o);
    SyncRan(w, from, s', e.cloned, e.meta.profiles, e.second, e.podRead, o);
    ok := o == Idle || o == Done;
  }

  /** The sync after commissioning uses whatever is checked out and records the startup commit. */
  lemma Resyncs(w: World, s: State, e: Event, s': State) returns (ok: bool)
    requires Next(w, s, e, s') && e.PostCommission?
    ensures s'.head == s.head && s'.errors == s.errors && s'.backoffUntil == s.backoffUntil
    ensures Ran(w, s, s', e.commit, s.profiles, e.second, e.podRead, ok)
  {
    var o :| SyncStep(w, s, s', e.commit, s.profiles, e.second, e.podRead, o);
    SyncRan(w, s, s', e.commit, s.profiles, e.second, e.podRead, o);
    ok := o == Idle || o == Done;
  }

  // ----- A sync that reaches its goal -----

  /** Nothing stands in the way of syncing this commit under these profiles: the profile is active, the
      plan can be built and staged, and nothing staged clashes with live. */
  ghost predicate Clear(w: World, live: Tree, commit: string, profiles: string) {
    Active(w, profiles) &&
    var plan := w.build(w.lookup(profiles).value, commit);
    plan.Some? &&
    var r := RulesOf(w.glob, w.hash, plan.value);
    && (forall i :: 0 <= i < |plan.value.mappings| ==> !Defective(r, plan.value.mappings[i]))
    && (forall i: nat, j: nat, p :: !Clash(r, plan.value.mappings, i, j, p))
    && Compatible(live, Overlaid(r, plan.value.mappings))
  }

  lemma ClearSyncs(w: World, live: Tree, live': Tree, commit: string, profiles: string, result: SyncResult)
    requires ValidWorld(w) && WellFormed(live) && LinksAvoided(w, live) && Clear(w, live, commit, profiles)
    requires var plan := w.build(w.lookup(profiles).value, commit).value;
             Outcome(RulesOf(w.glob, w.hash, plan), plan.mappings, plan.dryRun, live, live', result)
    ensures result.Synced? && Describes(w, live', commit, profiles)
  {
    var plan := w.build(w.lookup(profiles).value, commit).value;
    var r := RulesOf(w.glob, w.hash, plan);
    SucceedsIff(r, plan.mappings, plan.dryRun, live, live', result);
    assert PlanAvoidsLinks(w, plan, live);
    OutcomeKeepsTree(r, plan.mappings, plan.dryRun, live, live', result);
  }

  /** A trigger that asks for work, whose two reads agree and with nothing in the way, succeeds: live becomes
      what the engine builds from the fetched commit, the record says so, and a later trigger that reads
      the same pair changes nothing. */
  lemma ReachesGoal(w: World, s: State, e: Event, s': State)
    requires Good(w, s) && Next(w, s, e, s') && Asks(s, e)
    requires e.fetched == Some(e.first.value.commit) && !e.blocked && e.podRead
    requires e.second.Some? && e.second.value.profiles == e.first.value.profiles
    requires Clear(w, s.live, e.first.value.commit, e.first.value.profiles)
    ensures s'.commit == e.first.value.commit && s'.profiles == e.first.value.profiles && s'.errors == 0
    ensures Describes(w, s'.live, s'.commit, s'.profiles)
    ensures forall later: Event, s2: State ::
              later.Trigger? && later.first == e.first && Next(w, s', later, s2) ==> s2 == s'
  {
    var ok := Syncs(w, s, e, s');
    var c, profiles := e.first.value.commit, e.first.value.profiles;
    var plan := w.build(w.lookup(profiles).value, c).value;
    var result :|
      Outcome(RulesOf(w.glob, w.hash, plan), plan.mappings, plan.dryRun, s.live, s'.live, result) && (ok <==> result.Synced?);
    ClearSyncs(w, s.live, s'.live, c, profiles, result);
    forall later: Event, s2: State | later.Trigger? && later.first == e.first && Next(w, s', later, s2)
      ensures s2 == s'
    {
      HeldOff(w, s', later, s2);
    }
  }
}
