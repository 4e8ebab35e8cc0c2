/**
 The watcher's one-slot channels: one caller of `UpdatePeriod`, one `Run` loop, the ConfigMap poller
 and the handler, interleaved in any order.
 */
module Watcher {
  import opened Options

  /** Where the caller of `UpdatePeriod` stands: past a failed send, or past the drain and about to
      make the blocking send. */
  datatype Caller = Outside | Draining(d: int) | Sending(d: int)

  datatype State = State(period: int, reset: Option<int>, ticker: Option<int>, caller: Caller,
                         sync: bool, handling: bool, lastVersion: string)

  datatype Action =
    | StartRun
    | Update(d: int)              // enter UpdatePeriod, up to the first select
    | Drain                       // the inner select
    | Send                        // the blocking send
    | ReceiveReset                // Run takes a new period
    | Tick                        // the fallback ticker fires
    | Poll(version: Option<string>)  // the poller reads the ConfigMap, or fails to
    | StartHandler
    | EndHandler

  function Initial(period: int): (s: State) {
    State(period, None, None, Outside, false, false, "")
  }

  /** Whether the action can happen; a blocked send is one that cannot. */
  predicate Enabled(s: State, a: Action) {
    match a
    case StartRun => s.ticker.None?
    case Update(_) => s.caller.Outside?
    case Drain => s.caller.Draining?
    case Send => s.caller.Sending? && s.reset.None?
    case ReceiveReset => s.ticker.Some? && s.reset.Some?
    case Tick => s.ticker.Some?
    case Poll(_) => s.ticker.Some?
    case StartHandler => s.sync && !s.handling
    case EndHandler => s.handling
  }

  /** The poller triggers when the version differs from its last successful read, except on the first. */
  predicate Notices(s: State, version: Option<string>) {
    version.Some? && version.value != s.lastVersion && s.lastVersion != ""
  }

  function Step(s: State, a: Action): (s': State)
    requires Enabled(s, a)
  {
    match a
    case StartRun => s.(ticker := Some(s.period))
    case Update(d) =>
      if d == s.period then s
      else if s.reset.None? then s.(period := d, reset := Some(d))
      else s.(period := d, caller := Draining(d))
    case Drain => s.(reset := None, caller := Sending(s.caller.d))
    case Send => s.(reset := Some(s.caller.d), caller := Outside)
    case ReceiveReset => s.(ticker := s.reset, reset := None)
    case Tick => s.(sync := true)
    case Poll(version) =>
      s.(sync := s.sync || Notices(s, version), lastVersion := if version.Some? then version.value else s.lastVersion)
    case StartHandler => s.(sync := false, handling := true)
    case EndHandler => s.(handling := false)
  }

  /** `trigger()` is called. */
  predicate Triggers(s: State, a: Action) {
    a.Tick? || (a.Poll? && Notices(s, a.version))
  }

  ghost predicate IsRun(states: seq<State>, acts: seq<Action>) {
    |states| == |acts| + 1 &&
    forall i :: 0 <= i < |acts| ==> Enabled(states[i], acts[i]) && states[i + 1] == Step(states[i], acts[i])
  }

  /** A value still in the channel or in the caller's hands is the last one requested, and when there
      is none the ticker runs at it. */
  predicate Inv(s: State) {
    match s.caller
    case Outside =>
      if s.reset.Some? then s.reset.value == s.period else s.ticker.Some? ==> s.ticker.value == s.period
    case Draining(d) => d == s.period
    case Sending(d) => d == s.period && s.reset.None?
  }

  lemma {:induction false} RunKeepsInv(states: seq<State>, acts: seq<Action>, n: nat)
    requires IsRun(states, acts) && n < |states| && Inv(states[0])
    ensures Inv(states[n])
  {
    if n > 0 {
      RunKeepsInv(states, acts, n - 1);
      assert Enabled(states[n - 1], acts[n - 1]) && states[n] == Step(states[n - 1], acts[n - 1]);
    }
  }

  /** In every interleaving: the blocking send finds the channel empty, so it never blocks; and whenever
      the caller is outside with nothing pending, the fallback timer runs at the last requested period. */
  lemma ChannelProtocol(period: int, states: seq<State>, acts: seq<Action>, n: nat)
    requires IsRun(states, acts) && n < |states| && states[0] == Initial(period)
    ensures states[n].caller.Sending? ==> Enabled(states[n], Send)
    ensures states[n].caller.Outside? && states[n].reset.None? && states[n].ticker.Some? ==>
            states[n].ticker == Some(states[n].period)
    ensures states[n].caller.Outside? && Enabled(states[n], ReceiveReset) ==>
            Step(states[n], ReceiveReset).ticker == Some(states[n].period)
  {
    RunKeepsInv(states, acts, n);
  }

  /** Asking for the period already requested does nothing; asking for another, with the channel free, sends
      it at once. */
  lemma UpdateCases(states: seq<State>, acts: seq<Action>, n: nat)
    requires IsRun(states, acts) && n < |acts| && acts[n].Update?
    ensures acts[n].d == states[n].period ==> states[n + 1] == states[n]
    ensures acts[n].d != states[n].period && states[n].reset.None? ==>
            states[n + 1].reset == Some(acts[n].d) && states[n + 1].caller.Outside?
  {
    assert Enabled(states[n], acts[n]) && states[n + 1] == Step(states[n], acts[n]);
  }

  /** The last requested period is the argument of the latest `UpdatePeriod`. */
  lemma {:induction false} PeriodIsLatest(states: seq<State>, acts: seq<Action>, i: nat, n: nat)
    requires IsRun(states, acts) && i < n < |states| && acts[i].Update?
    requires forall j :: i < j < n ==> !acts[j].Update?
    ensures states[n].period == acts[i].d
  {
    if n > i + 1 {
      PeriodIsLatest(states, acts, i, n - 1);
    }
    assert Enabled(states[n - 1], acts[n - 1]) && states[n] == Step(states[n - 1], acts[n - 1]);
  }

  // ----- What the poller and the ticker trigger -----

  /** Action `i` is a poll that read version `v`. */
  predicate Reads(a: Action, v: string) {
    a == Poll(Some(v))
  }

  ghost predicate NoRead(acts: seq<Action>, m: nat, n: nat)
    requires n <= |acts|
  {
    forall j :: m <= j < n && acts[j].Poll? ==> acts[j].version.None?
  }

  /** The poller remembers what it read last, and nothing before its first read. */
  lemma {:induction false} Remembers(states: seq<State>, acts: seq<Action>, m: nat, n: nat)
    requires IsRun(states, acts) && m <= n < |states| && NoRead(acts, m, n)
    ensures states[n].lastVersion == states[m].lastVersion
    ensures m > 0 && acts[m - 1].Poll? && acts[m - 1].version.Some? ==> states[n].lastVersion == acts[m - 1].version.value
  {
    if m < n {
      Remembers(states, acts, m, n - 1);
      assert Enabled(states[n - 1], acts[n - 1]) && states[n] == Step(states[n - 1], acts[n - 1]);
    } else if m > 0 {
      assert Enabled(states[m - 1], acts[m - 1]) && states[m] == Step(states[m - 1], acts[m - 1]);
    }
  }

  /** Two successive reads: the second sets off a sync exactly when the version changed, and otherwise
      leaves the pending event as it was. */
  lemma ChangeTriggersIff(states: seq<State>, acts: seq<Action>, i: nat, n: nat, v: string, v': string)
    requires IsRun(states, acts) && i < n < |acts| && Reads(acts[i], v) && Reads(acts[n], v') && NoRead(acts, i + 1, n)
    requires v != ""
    ensures states[n + 1].sync <==> states[n].sync || v != v'
    ensures Triggers(states[n], acts[n]) <==> v != v'
  {
    Remembers(states, acts, i + 1, n);
    assert Enabled(states[n], acts[n]) && states[n + 1] == Step(states[n], acts[n]);
  }

  /** The first read of a run and a failed read trigger nothing; a tick always triggers; nothing but a tick,
      a read or a handler start touches the pending event. */
  lemma OtherwiseQuiet(period: int, states: seq<State>, acts: seq<Action>, n: nat)
    requires IsRun(states, acts) && n < |acts| && states[0] == Initial(period)
    ensures acts[n].Poll? && (acts[n].version.None? || NoRead(acts, 0, n)) ==> states[n + 1].sync == states[n].sync
    ensures acts[n] == Tick ==> states[n + 1].sync
    ensures acts[n] != Tick && !acts[n].Poll? && acts[n] != StartHandler ==> states[n + 1].sync == states[n].sync
    ensures acts[n] == StartHandler ==> !states[n + 1].sync && states[n].sync && !states[n].handling
  {
    if NoRead(acts, 0, n) {
      Remembers(states, acts, 0, n);
    }
    assert Enabled(states[n], acts[n]) && states[n + 1] == Step(states[n], acts[n]);
  }

  /** No trigger is lost: after a call of `trigger()` either a handler has started since or the event is
      still pending. */
  lemma {:induction false} TriggerReachesHandler(states: seq<State>, acts: seq<Action>, i: nat, n: nat)
    requires IsRun(states, acts) && i < n < |states| && Triggers(states[i], acts[i])
    ensures (exists j :: i < j < n && acts[j] == StartHandler) || states[n].sync
  {
    var s, a := states[n - 1], acts[n - 1];
    assert Enabled(s, a) && states[n] == Step(s, a);
    if n > i + 1 {
      TriggerReachesHandler(states, acts, i, n - 1);
      if a == StartHandler {
        assert acts[n - 1] == StartHandler;
      }
    }
  }

  /** And none is invented: every handler start answers a trigger that no earlier start has answered. */
  lemma {:induction false} HandlerAnswersTrigger(states: seq<State>, acts: seq<Action>, n: nat)
    requires IsRun(states, acts) && n < |states| && !states[0].sync && states[n].sync
    ensures exists i :: 0 <= i < n && Triggers(states[i], acts[i]) && forall j :: i < j < n ==> acts[j] != StartHandler
  {
    var s, a := states[n - 1], acts[n - 1];
    assert Enabled(s, a) && states[n] == Step(s, a);
    if !Triggers(s, a) {
      HandlerAnswersTrigger(states, acts, n - 1);
      var i :| 0 <= i < n - 1 && Triggers(states[i], acts[i]) && forall j :: i < j < n - 1 ==> acts[j] != StartHandler;
      assert forall j :: i < j < n ==> acts[j] != StartHandler;
    }
  }

  // ----- Every trigger is answered -----

  ghost predicate Endless(states: nat -> State, acts: nat -> Action) {
    forall i: nat :: Enabled(states(i), acts(i)) && states(i + 1) == Step(states(i), acts(i))
  }

  ghost predicate Served(states: nat -> State, acts: nat -> Action, a: Action, i: nat) {
    exists j: nat :: j >= i && (acts(j) == a || !Enabled(states(j), a))
  }

  /** Weak fairness: from any point on, the action is taken or impossible at some time. */
  ghost predicate Fair(states: nat -> State, acts: nat -> Action, a: Action) {
    forall i: nat :: Served(states, acts, a, i)
  }

  ghost predicate NotStarted(acts: nat -> Action, m: nat, n: nat) {
    forall j: nat :: m <= j < n ==> acts(j) != StartHandler
  }

  lemma {:induction false} StaysPending(states: nat -> State, acts: nat -> Action, m: nat, n: nat)
    requires Endless(states, acts) && m <= n && states(m).sync && NotStarted(acts, m, n)
    ensures states(n).sync
  {
    if m < n {
      StaysPending(states, acts, m, n - 1);
      assert states(n - 1 + 1) == Step(states(n - 1), acts(n - 1));
    }
  }

  lemma {:induction false} StaysIdle(states: nat -> State, acts: nat -> Action, m: nat, n: nat)
    requires Endless(states, acts) && m <= n && !states(m).handling && NotStarted(acts, m, n)
    ensures !states(n).handling
  {
    if m < n {
      StaysIdle(states, acts, m, n - 1);
      assert states(n - 1 + 1) == Step(states(n - 1), acts(n - 1));
    }
  }

  /** A running handler ends. */
  lemma BecomesIdle(states: nat -> State, acts: nat -> Action, i: nat) returns (m: nat)
    requires Endless(states, acts) && Fair(states, acts, EndHandler)
    ensures m >= i && !states(m).handling
  {
    assert Served(states, acts, EndHandler, i);
    var j: nat :| j >= i && (acts(j) == EndHandler || !Enabled(states(j), EndHandler));
    m := if states(j).handling then j + 1 else j;
    assert states(j + 1) == Step(states(j), acts(j));
  }

  /** In every endless run that is fair to the start and the end of handlers, each trigger is followed by a
      handler start. */
  lemma TriggerIsAnswered(states: nat -> State, acts: nat -> Action, i: nat)
    requires Endless(states, acts) && Fair(states, acts, StartHandler) && Fair(states, acts, EndHandler)
    requires Triggers(states(i), acts(i))
    ensures exists j: nat :: j > i && acts(j) == StartHandler
  {
    assert states(i + 1) == Step(states(i), acts(i));
    var m := BecomesIdle(states, acts, i + 1);
    assert Served(states, acts, StartHandler, m);
    var n: nat :| n >= m && (acts(n) == StartHandler || !Enabled(states(n), StartHandler));
    if NotStarted(acts, i + 1, n) {
      StaysPending(states, acts, i + 1, n);
      StaysIdle(states, acts, m, n);
      assert acts(n) == StartHandler;
    }
  }

  lemma FinitePart(states: nat -> State, acts: nat -> Action, n: nat) returns (ss: seq<State>, as': seq<Action>)
    requires Endless(states, acts)
    ensures IsRun(ss, as') && |as'| == n
    ensures (forall k :: 0 <= k <= n ==> ss[k] == states(k)) && forall k :: 0 <= k < n ==> as'[k] == acts(k)
  {
    ss, as' := seq(n + 1, k requires 0 <= k <= n => states(k)), seq(n, k requires 0 <= k < n => acts(k));
    forall i | 0 <= i < n
      ensures Enabled(ss[i], as'[i]) && ss[i + 1] == Step(ss[i], as'[i])
    {
      assert states(i + 1) == Step(states(i), acts(i));
    }
  }

  /** A change of the ConfigMap that the poller sees, and every tick, is followed by a handler start. */
  lemma ChangeIsAnswered(states: nat -> State, acts: nat -> Action, i: nat, n: nat, v: string, v': string)
    requires Endless(states, acts) && Fair(states, acts, StartHandler) && Fair(states, acts, EndHandler)
    requires acts(n) == Tick ||
             (i < n && v != "" && v != v' && Reads(acts(i), v) && Reads(acts(n), v') &&
              forall j: nat :: i < j < n && acts(j).Poll? ==> acts(j).version.None?)
    ensures exists j: nat :: j > n && acts(j) == StartHandler
  {
    if acts(n) != Tick {
      var ss, as' := FinitePart(states, acts, n + 1);
      ChangeTriggersIff(ss, as', i, n, v, v');
    }
    TriggerIsAnswered(states, acts, n);
  }

  // ----- The code of UpdatePeriod -----

  class Channels {
    var period: int
    var reset: Option<int>
    var ticker: int

    ghost predicate Valid()
      reads this
    {
      if reset.Some? then reset.value == period else ticker == period
    }

    constructor (period: int)
      ensures Valid() && this.period == period && reset == None
    {
      this.period, reset, ticker := period, None, period;
    }

    /** `Run` receives from the reset channel, if anything is there. */
    method Receive()
      modifies this`reset, this`ticker
      ensures reset == None && ticker == if old(reset).Some? then old(reset).value else old(ticker)
    {
      if reset.Some? {
        ticker, reset := reset.value, None;
      }
    }

    /** `gaps` says whether `Run` receives before the first select, before and after the drain, and after
        the send. */
    method UpdatePeriod(d: int, gaps: (bool, bool, bool, bool))
      requires Valid()
      modifies this
      ensures Valid() && period == d
      ensures d == old(period) ==> reset == old(reset) && ticker == old(ticker)
      ensures d != old(period) && gaps.3 ==> reset == None && ticker == d
      ensures d != old(period) && !gaps.3 ==> reset == Some(d)
    {
      if d == period {
        return;
      }
      period := d;
      if gaps.0 {
        Receive();
      }
      if reset.Some? {
        if gaps.1 {
          Receive();
        }
        reset := None;
        if gaps.2 {
          Receive();
        }
      }
      assert reset.None?;
      reset := Some(d);
      if gaps.3 {
        Receive();
      }
    }
  }
}
