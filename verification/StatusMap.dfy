/**
 The status ConfigMap: any number of agents writing their own key of one versioned object with
 get/create/update and at most three attempts, interleaved in any order with each other, with
 deletion by the controller and with unrelated writes to the API server.
 */
module StatusMap {
  import opened Options

  type Data = map<string, string>

  /** The stored object; `version` is its resourceVersion. */
  datatype Object = Absent | Present(version: nat, data: Data)

  /** Events that changed the stored object, in order. */
  datatype Change = Put(agent: nat, key: string, payload: string) | Deleted

  /** Where a call of `WriteStatusConfigMap` stands. `start` and `seen` are history: the number of
      changes when the call began and at its latest Get. `failed` counts attempts lost to a race. */
  datatype Call =
    | Idle
    | Reading(key: string, payload: string, failed: nat, start: nat)
    | Writing(key: string, payload: string, failed: nat, start: nat, seen: nat, snapshot: Object)
    | Succeeded(key: string, payload: string, at: nat)
    | Exhausted(start: nat)
    | Aborted

  datatype Sys = Sys(stored: Object, clock: nat, history: seq<Change>, calls: map<nat, Call>)

  datatype Action =
    | Begin(agent: nat, key: string, payload: string)
    | Get(agent: nat)
    | Commit(agent: nat)
    | ApiError(agent: nat)        // forbidden, unreachable, ...: nothing happened
    | LostReply(agent: nat)       // the write happened but its reply was an error
    | Delete                      // the controller removes the object
    | OtherWrite                  // some other object was written

  const ATTEMPTS: nat := 3

  /** Whether the API server accepts the write prepared from `snapshot`. */
  predicate Accepts(stored: Object, snapshot: Object) {
    (snapshot.Absent? && stored.Absent?) ||
    (snapshot.Present? && stored.Present? && snapshot.version == stored.version)
  }

  function Written(s: Sys, c: Call): (stored: Object)
    requires c.Writing?
  {
    Present(s.clock + 1, (if c.snapshot.Absent? then map[] else c.snapshot.data)[c.key := c.payload])
  }

  /** A create that finds the object, or an update with an old version, is retried; an update of an
      object that has disappeared is an error. */
  function Refusal(s: Sys, c: Call): (c': Call)
    requires c.Writing?
  {
    if c.snapshot.Present? && s.stored.Absent? then Aborted
    else if c.failed + 1 == ATTEMPTS then Exhausted(c.start)
    else Reading(c.key, c.payload, c.failed + 1, c.start)
  }

  function Apply(s: Sys, agent: nat, c: Call, c': Call): (s': Sys)
    requires c.Writing?
  {
    s.(stored := Written(s, c), clock := s.clock + 1, history := s.history + [Put(agent, c.key, c.payload)],
       calls := s.calls[agent := c'])
  }

  /** The step an action makes; an action that is not possible leaves the system alone. */
  function Step(s: Sys, act: Action): (s': Sys) {
    match act
    case Begin(a, key, payload) =>
      if a in s.calls && !s.calls[a].Reading? && !s.calls[a].Writing?
      then s.(calls := s.calls[a := Reading(key, payload, 0, |s.history|)]) else s
    case Get(a) =>
      if a in s.calls && s.calls[a].Reading? then
        var c := s.calls[a];
        s.(calls := s.calls[a := Writing(c.key, c.payload, c.failed, c.start, |s.history|, s.stored)])
      else s
    case Commit(a) =>
      if a in s.calls && s.calls[a].Writing? then
        var c := s.calls[a];
        if Accepts(s.stored, c.snapshot) then Apply(s, a, c, Succeeded(c.key, c.payload, |s.history|))
        else s.(calls := s.calls[a := Refusal(s, c)])
      else s
    case ApiError(a) =>
      if a in s.calls && (s.calls[a].Reading? || s.calls[a].Writing?) then s.(calls := s.calls[a := Aborted]) else s
    case LostReply(a) =>
      if a in s.calls && s.calls[a].Writing? && Accepts(s.stored, s.calls[a].snapshot)
      then Apply(s, a, s.calls[a], Aborted) else s
    case Delete =>
      if s.stored.Present?
      then s.(stored := Absent, clock := s.clock + 1, history := s.history + [Deleted]) else s
    case OtherWrite =>
      s.(clock := s.clock + 1)
  }

  // ----- The meaning of the history -----

  /** The data the changes amount to when each is applied to what it found; `None` is "no object". */
  function Replay(h: seq<Change>): (c: Option<Data>) {
    if h == [] then None
    else
      var before := Replay(h[..|h| - 1]);
      match h[|h| - 1]
      case Deleted => None
      case Put(_, key, payload) => Some((if before.None? then map[] else before.value)[key := payload])
  }

  function ContentOf(o: Object): (c: Option<Data>) {
    if o.Absent? then None else Some(o.data)
  }

  /** Change `i` is the last write of `key` and the object has not been deleted since. */
  ghost predicate LastPut(h: seq<Change>, key: string, i: nat) {
    i < |h| && h[i].Put? && h[i].key == key &&
    forall j :: i < j < |h| ==> h[j].Put? && h[j].key != key
  }

  /** Replaying keeps, for each key, the payload of its last write since the last deletion. */
  lemma {:induction false} ReplayKeepsLast(h: seq<Change>, key: string)
    ensures Replay(h).Some? && key in Replay(h).value <==> exists i: nat :: LastPut(h, key, i)
    ensures forall i: nat :: LastPut(h, key, i) ==>
              Replay(h).Some? && key in Replay(h).value && Replay(h).value[key] == h[i].payload
  {
    if h != [] {
      var init, last := h[..|h| - 1], h[|h| - 1];
      ReplayKeepsLast(init, key);
      forall i: nat | LastPut(h, key, i) && i < |init|
        ensures LastPut(init, key, i) && h[i] == init[i] && last.Put? && last.key != key
      {
      }
      if last.Put? && last.key == key {
        assert LastPut(h, key, |h| - 1);
      } else if last.Put? {
        forall i: nat | LastPut(init, key, i)
          ensures LastPut(h, key, i)
        {
        }
      }
    }
  }

  // ----- Invariant -----

  ghost predicate CallInv(s: Sys, a: nat, c: Call) {
    match c
    case Reading(_, _, failed, start) =>
      failed < ATTEMPTS && start + failed <= |s.history| && Foreign(s.history, start, a)
    case Writing(_, _, failed, start, seen, snapshot) =>
      && failed < ATTEMPTS && start + failed <= seen <= |s.history| && Foreign(s.history, start, a)
      && ContentOf(snapshot) == Replay(s.history[..seen])
      && (seen == |s.history| ==> snapshot == s.stored)
      && (snapshot.Present? ==> snapshot.version <= s.clock)
      && (Accepts(s.stored, snapshot) && snapshot.Present? ==> snapshot == s.stored)
    case Exhausted(start) =>
      start + ATTEMPTS <= |s.history| && Foreign(s.history, start, a)
    case Succeeded(key, payload, at) =>
      at < |s.history| && s.history[at] == Put(a, key, payload)
    case _ => true
  }

  /** No change from `start` on was made by agent `a`. */
  ghost predicate Foreign(h: seq<Change>, start: nat, a: nat) {
    forall i :: start <= i < |h| ==> h[i].Deleted? || h[i].agent != a
  }

  ghost predicate Inv(s: Sys) {
    && ContentOf(s.stored) == Replay(s.history)
    && (s.stored.Present? ==> s.stored.version <= s.clock)
    && forall a :: a in s.calls ==> CallInv(s, a, s.calls[a])
  }

  ghost predicate Init(s: Sys) {
    s.stored == Absent && s.history == [] && forall a :: a in s.calls ==> s.calls[a] == Idle
  }

  lemma ChangeKeepsOthers(s: Sys, ch: Change, stored: Object, a: nat, c: Call)
    requires Inv(s) && CallInv(s, a, c) && (ch.Put? ==> ch.agent != a)
    requires stored.Present? ==> stored.version == s.clock + 1
    ensures CallInv(s.(stored := stored, clock := s.clock + 1, history := s.history + [ch]), a, c)
  {
    var h := s.history + [ch];
    if c.Writing? {
      assert h[..c.seen] == s.history[..c.seen];
    }
  }

  lemma ApplyKeepsInv(s: Sys, a: nat, c': Call)
    requires Inv(s) && a in s.calls && s.calls[a].Writing? && Accepts(s.stored, s.calls[a].snapshot)
    requires c' == Aborted || c' == Succeeded(s.calls[a].key, s.calls[a].payload, |s.history|)
    ensures Inv(Apply(s, a, s.calls[a], c'))
  {
    var c := s.calls[a];
    var s' := Apply(s, a, c, c');
    var ch := Put(a, c.key, c.payload);
    assert CallInv(s, a, c);
    assert s'.history[..|s.history|] == s.history;
    forall b | b in s'.calls && b != a
      ensures CallInv(s', b, s'.calls[b])
    {
      ChangeKeepsOthers(s, ch, Written(s, c), b, s.calls[b]);
    }
  }

  /** A refused write means that some change happened since its Get. */
  lemma RefusalMeansOvertaken(s: Sys, a: nat)
    requires Inv(s) && a in s.calls && s.calls[a].Writing? && !Accepts(s.stored, s.calls[a].snapshot)
    ensures s.calls[a].seen < |s.history|
  {
    assert CallInv(s, a, s.calls[a]);
  }

  lemma StepKeepsInv(s: Sys, act: Action)
    requires Inv(s)
    ensures Inv(Step(s, act))
  {
    var s' := Step(s, act);
    match act
    case Commit(a) =>
      if a in s.calls && s.calls[a].Writing? {
        var c := s.calls[a];
        if Accepts(s.stored, c.snapshot) {
          ApplyKeepsInv(s, a, Succeeded(c.key, c.payload, |s.history|));
        } else {
          RefusalMeansOvertaken(s, a);
          OthersKept(s, s', a);
          assert CallInv(s, a, c);
        }
      }
    case LostReply(a) =>
      if a in s.calls && s.calls[a].Writing? && Accepts(s.stored, s.calls[a].snapshot) {
        ApplyKeepsInv(s, a, Aborted);
      }
    case Delete =>
      if s.stored.Present? {
        assert s'.history[..|s.history|] == s.history;
        forall b | b in s'.calls
          ensures CallInv(s', b, s'.calls[b])
        {
          ChangeKeepsOthers(s, Deleted, Absent, b, s.calls[b]);
        }
      }
    case Get(a) =>
      if a in s.calls && s.calls[a].Reading? {
        OthersKept(s, s', a);
        assert CallInv(s, a, s.calls[a]);
        assert s.history[..|s.history|] == s.history;
      }
    case Begin(a, _, _) =>
      if s' != s {
        OthersKept(s, s', a);
      }
    case ApiError(a) =>
      if s' != s {
        OthersKept(s, s', a);
      }
    case OtherWrite =>
      forall b | b in s'.calls
        ensures CallInv(s', b, s'.calls[b])
      {
        assert CallInv(s, b, s.calls[b]);
      }
  }

  lemma OthersKept(s: Sys, s': Sys, a: nat)
    requires Inv(s) && a in s.calls && a in s'.calls && s' == s.(calls := s.calls[a := s'.calls[a]])
    ensures forall b :: b in s'.calls && b != a ==> CallInv(s', b, s'.calls[b])
  {
    forall b | b in s'.calls && b != a
      ensures CallInv(s', b, s'.calls[b])
    {
      assert CallInv(s, b, s.calls[b]);
    }
  }

  // ----- Every interleaving -----

  function Execute(s: Sys, acts: seq<Action>): (s': Sys)
    decreases |acts|
  {
    if acts == [] then s else Execute(Step(s, acts[0]), acts[1..])
  }

  lemma {:induction false} ExecuteKeepsInv(s: Sys, acts: seq<Action>)
    requires Inv(s)
    ensures Inv(Execute(s, acts))
    decreases |acts|
  {
    if acts != [] {
      StepKeepsInv(s, acts[0]);
      ExecuteKeepsInv(Step(s, acts[0]), acts[1..]);
    }
  }

  /** No lost update: after any interleaving from the start, a key is present exactly when it has been
      written since the last deletion, and it holds the payload of its last write. */
  lemma NoLostUpdate(s: Sys, acts: seq<Action>, key: string)
    requires Init(s)
    ensures var t := Execute(s, acts);
            && (t.stored.Present? && key in t.stored.data <==> exists i: nat :: LastPut(t.history, key, i))
            && forall i: nat :: LastPut(t.history, key, i) ==>
                 t.stored.Present? && key in t.stored.data && t.stored.data[key] == t.history[i].payload
  {
    ExecuteKeepsInv(s, acts);
    ReplayKeepsLast(Execute(s, acts).history, key);
  }

  /** A call gives up only after at least three changes by others since it began, so one overtaken at
      most twice, and meeting no API error, succeeds; success means its write is in the history. */
  lemma GivesUpOnlyWhenOvertaken(s: Sys, acts: seq<Action>, a: nat)
    requires Init(s)
    requires a in Execute(s, acts).calls
    ensures var t := Execute(s, acts);
            match t.calls[a]
            case Exhausted(start) => start + 3 <= |t.history| && Foreign(t.history, start, a)
            case Reading(_, _, failed, start) => failed < 3 && start + failed <= |t.history| && Foreign(t.history, start, a)
            case Writing(_, _, failed, start, _, _) =>
              failed < 3 && start + failed <= |t.history| && Foreign(t.history, start, a)
            case Succeeded(key, payload, at) => at < |t.history| && t.history[at] == Put(a, key, payload)
            case _ => true
  {
    ExecuteKeepsInv(s, acts);
    var t := Execute(s, acts);
    assert CallInv(t, a, t.calls[a]);
  }

  /** What a commit does: an object that disappeared ends the call; a version conflict, or an object that
      appeared meanwhile, costs one of three attempts; otherwise, and always when nothing has changed since
      the Get, the payload is written. */
  lemma CommitCases(s: Sys, a: nat)
    requires Inv(s) && a in s.calls && s.calls[a].Writing?
    ensures var c, s' := s.calls[a], Step(s, Commit(a));
            var c' := s'.calls[a];
            var vanished := c.snapshot.Present? && s.stored.Absent?;
            var raced := s.stored.Present? && (c.snapshot.Present? ==> c.snapshot.version != s.stored.version);
            && (c.seen == |s.history| ==> !vanished && !raced)
            && if vanished then c' == Aborted && s'.stored == s.stored
               else if raced then
                 && s'.stored == s.stored
                 && c' == if c.failed < 2 then Reading(c.key, c.payload, c.failed + 1, c.start) else Exhausted(c.start)
               else
                 && c' == Succeeded(c.key, c.payload, |s.history|) && s'.history == s.history + [Put(a, c.key, c.payload)]
                 && s'.stored.Present? && c.key in s'.stored.data && s'.stored.data[c.key] == c.payload
  {
    assert CallInv(s, a, s.calls[a]);
  }

  /** An undisturbed call writes its payload, from any state the protocol reaches and any call that is over. */
  lemma AloneSucceeds(s: Sys, a: nat, key: string, payload: string)
    requires Inv(s) && a in s.calls && !s.calls[a].Reading? && !s.calls[a].Writing?
    ensures var t := Execute(s, [Begin(a, key, payload), Get(a), Commit(a)]);
            && a in t.calls && t.calls[a] == Succeeded(key, payload, |s.history|)
            && t.stored.Present? && key in t.stored.data && t.stored.data[key] == payload
  {
    var begin, get, commit := Begin(a, key, payload), Get(a), Commit(a);
    var s1 := Step(s, begin);
    var s2 := Step(s1, get);
    StepKeepsInv(s, begin);
    StepKeepsInv(s1, get);
    CommitCases(s2, a);
    assert [begin, get, commit][1..] == [get, commit] && [get, commit][1..] == [commit] && [commit][1..] == [];
    assert Execute(s2, [commit]) == Execute(Step(s2, commit), []);
    assert Execute(s1, [get, commit]) == Execute(s2, [commit]);
  }

  /** A lost reply: the write is there although the call reports an error. An API error: nothing happened. */
  lemma ErrorCases(s: Sys, a: nat)
    requires Inv(s) && a in s.calls && s.calls[a].Writing?
    ensures var c, lost := s.calls[a], Step(s, LostReply(a));
            c.seen == |s.history| ==> lost.calls[a] == Aborted && lost.history == s.history + [Put(a, c.key, c.payload)]
    ensures var failed := Step(s, ApiError(a));
            failed.calls[a] == Aborted && failed.stored == s.stored && failed.history == s.history
  {
    assert CallInv(s, a, s.calls[a]);
  }

  /** The surroundings: a deletion leaves no object and is in the history, a write elsewhere changes nothing
      but the clock, and neither touches a call. */
  lemma SurroundingCases(s: Sys)
    ensures var t := Step(s, Delete);
            && t.stored == Absent && t.calls == s.calls
            && t.history == if s.stored.Present? then s.history + [Deleted] else s.history
    ensures var t := Step(s, OtherWrite);
            t.stored == s.stored && t.calls == s.calls && t.history == s.history && t.clock > s.clock
  {
  }

  /** No agent's step alters another key: only the key of the call being committed can change, and only
      a deletion removes keys. */
  lemma StepTouchesOwnKey(s: Sys, act: Action, key: string)
    requires Inv(s) && act != Delete
    requires (act.Commit? || act.LostReply?) && act.agent in s.calls && s.calls[act.agent].Writing? ==>
               s.calls[act.agent].key != key
    ensures var s' := Step(s, act);
            var before, after := ContentOf(s.stored), ContentOf(s'.stored);
            && (before.Some? && key in before.value <==> after.Some? && key in after.value)
            && (before.Some? && key in before.value ==> after.value[key] == before.value[key])
  {
    if (act.Commit? || act.LostReply?) && act.agent in s.calls && s.calls[act.agent].Writing? {
      assert CallInv(s, act.agent, s.calls[act.agent]);
    }
  }

  // ----- The retry loop -----

  /** The API server as one caller sees it: others may change the object between the caller's requests. */
  class ApiServer {
    var stored: Object
    var clock: nat
    ghost var history: seq<Change>

    ghost predicate Valid()
      reads this
    {
      ContentOf(stored) == Replay(history) && (stored.Present? ==> stored.version <= clock)
    }

    constructor ()
      ensures Valid() && history == []
    {
      stored, clock, history := Absent, 0, [];
    }

    method Store(agent: nat, key: string, payload: string, data: Data)
      requires Valid() && data == if stored.Absent? then map[] else stored.data
      modifies this
      ensures Valid() && history == old(history) + [Put(agent, key, payload)]
      ensures stored == Present(clock, data[key := payload]) && clock == old(clock) + 1
    {
      clock := clock + 1;
      stored := Present(clock, data[key := payload]);
      history := history + [Put(agent, key, payload)];
      assert history[..|history| - 1] == old(history);
    }

    /** Changes made by others, in the order given; a deletion of nothing is no change. */
    method Interfere(changes: seq<Change>)
      requires Valid()
      modifies this
      ensures Valid() && old(history) <= history
      ensures forall i :: |old(history)| <= i < |history| ==> history[i] in changes
      ensures history == old(history) ==> stored == old(stored)
      ensures history != old(history) && stored.Present? ==> stored.version > old(clock)
      ensures clock >= old(clock)
    {
      for i := 0 to |changes|
        invariant Valid() && old(history) <= history && clock >= old(clock)
        invariant forall k :: |old(history)| <= k < |history| ==> history[k] in changes
        invariant history == old(history) ==> stored == old(stored)
        invariant history != old(history) && stored.Present? ==> stored.version > old(clock)
      {
        match changes[i]
        case Put(agent, key, payload) =>
          Store(agent, key, payload, if stored.Absent? then map[] else stored.data);
        case Deleted =>
          if stored.Present? {
            stored, clock, history := Absent, clock + 1, history + [Deleted];
          }
      }
    }
  }

  lemma DeletedSince(a: seq<Change>, b: seq<Change>)
    requires a <= b && Replay(a).Some? && Replay(b).None?
    ensures |a| < |b| && b[|b| - 1] == Deleted
  {
    assert |a| == |b| ==> a == b;
  }

  datatype Reply = Ok | Vanished | GaveUp

  /** `WriteStatusConfigMap` with `others[i]` happening between the Get and the write of attempt `i`.
      It reports success exactly when its own write is the last change; giving up means that each of
      the three attempts was overtaken. */
  method WriteStatusConfigMap(server: ApiServer, agent: nat, key: string, payload: string, others: seq<seq<Change>>)
    returns (reply: Reply)
    requires server.Valid() && |others| == 3
    requires forall i, ch :: 0 <= i < |others| && ch in others[i] ==> ch.Deleted? || ch.agent != agent
    modifies server
    ensures server.Valid() && old(server.history) <= server.history
    ensures reply == Ok ==>
              |server.history| > |old(server.history)| &&
              server.history[|server.history| - 1] == Put(agent, key, payload) &&
              Foreign(server.history[..|server.history| - 1], |old(server.history)|, agent)
    ensures reply != Ok ==> Foreign(server.history, |old(server.history)|, agent)
    ensures reply == GaveUp ==> |server.history| >= |old(server.history)| + 3
    // Undisturbed in one of its attempts, and with no deletion, it succeeds.
    ensures reply == GaveUp ==> forall i :: 0 <= i < 3 ==> others[i] != []
    ensures reply == Vanished ==> exists i :: 0 <= i < 3 && Deleted in others[i]
    ensures reply == Vanished ==> |server.history| > |old(server.history)| && server.history[|server.history| - 1] == Deleted
  {
    ghost var start := server.history;
    for i := 0 to ATTEMPTS
      invariant server.Valid() && start <= server.history && Foreign(server.history, |start|, agent)
      invariant |server.history| >= |start| + i
      invariant forall k :: 0 <= k < i ==> others[k] != []
    {
      var cm := server.stored;
      ghost var seen, at := server.history, server.clock;
      server.Interfere(others[i]);
      assert Foreign(server.history, |start|, agent) by {
        forall k | |start| <= k < |server.history|
          ensures server.history[k].Deleted? || server.history[k].agent != agent
        {
          if k < |seen| {
            assert server.history[k] == seen[k];
          }
        }
      }
      if cm.Absent? {
        if server.stored.Present? {
          continue;
        }
        server.Store(agent, key, payload, map[]);
        return Ok;
      }
      if server.stored.Absent? {
        DeletedSince(seen, server.history);
        return Vanished;
      }
      if server.stored.version != cm.version {
        continue;
      }
      server.Store(agent, key, payload, cm.data);
      return Ok;
    }
    return GaveUp;
  }
}
