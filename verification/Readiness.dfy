/**
 The persisted status of a CR: how a reconcile can leave, what each exit does to Ready, and when over a
 whole run Ready can be trusted.
 */
module Readiness {
  import opened Options
  import opened Conditions
  import opened Backoff
  import opened RefCache

  datatype CRStatus = CRStatus(conditions: seq<Condition>, refs: RefStatus, gateways: seq<string>)

  datatype Inputs = Inputs(key: string, generation: nat, now: int, requestedRef: bool, paused: bool,
                           profilesValid: bool, secretsFound: bool, query: Query, apiKeyFound: bool,
                           metadataWritten: bool, discovered: Option<seq<string>>, refresh: Option<int>)

  /** What the reconcile asks of the work queue: to come back after `delay` (0: not on its own), or an error. */
  datatype Reply = After(delay: int) | Failed

  datatype Exit = Paused | NoSecret | NoRef | NoApiKey | Completed

  /** Which way a reconcile leaves. */
  function ExitOf(st: CRStatus, x: Inputs): (e: Exit) {
    if x.paused then Paused
    else if !x.secretsFound then NoSecret
    else if ResolveRef(st.refs, x.query).None? then NoRef
    else if !x.apiKeyFound then NoApiKey
    else Completed
  }

  /** The exits, one by one: each is taken exactly when its own check fails and all earlier ones passed. */
  lemma ExitIff(st: CRStatus, x: Inputs)
    ensures var e, resolved := ExitOf(st, x), Cached(st.refs, x.query) || x.query.answer.Some?;
            && (e == Paused <==> x.paused)
            && (e == NoSecret <==> !x.paused && !x.secretsFound)
            && (e == NoRef <==> !x.paused && x.secretsFound && !resolved)
            && (e == NoApiKey <==> !x.paused && x.secretsFound && resolved && !x.apiKeyFound)
            && (e == Completed <==> !x.paused && x.secretsFound && resolved && x.apiKeyFound)
  {
  }

  ghost predicate AllSynced(gateways: seq<string>) {
    gateways != [] && forall i :: 0 <= i < |gateways| ==> gateways[i] == "Synced"
  }

  /** What a completed reconcile leaves in the conditions. */
  ghost predicate Summarised(st: CRStatus) {
    && (IsTrue(st.conditions, READY) <==>
          IsTrue(st.conditions, REF_RESOLVED) && IsTrue(st.conditions, PROFILES_VALID) && IsTrue(st.conditions, ALL_SYNCED))
    && (IsTrue(st.conditions, ALL_SYNCED) <==> AllSynced(st.gateways))
  }

  /** `requeueInterval`: the polling interval, or the time until a GitHub App token is due if that is sooner. */
  function RequeueInterval(interval: int, refresh: Option<int>): (d: int)
  {
    if refresh.Some? && refresh.value > 0 && (interval == 0 || refresh.value < interval) then refresh.value else interval
  }

  /** The failures counted for the key after a reconcile that found `n` of them: a completed one clears
      them, and a missing API key, noticed after the count was cleared, is always the first. */
  function CountAfter(n: nat, x: Inputs, e: Exit): (n': nat) {
    var kept := if x.requestedRef then 0 else n;
    match e
    case Paused => kept
    case NoSecret => kept + 1
    case NoRef => kept + 1
    case NoApiKey => 1
    case Completed => 0
  }

  function ReplyTo(x: Inputs, e: Exit, failures: nat): (reply: Reply) {
    match e
    case Paused => if x.query.patched then After(0) else Failed
    case Completed => if x.query.patched then After(RequeueInterval(x.query.interval, x.refresh)) else Failed
    case _ => After(if failures == 0 then BASE else Ideal(failures))
  }

  /** The requeue of a completed reconcile is never later than polling asks, and never later than a token
      that is still due; and it is one of the two. */
  lemma RequeueIsSooner(interval: int, refresh: Option<int>)
    ensures var d := RequeueInterval(interval, refresh);
            && (d == interval || Some(d) == refresh)
            && (interval > 0 ==> d <= interval)
            && (refresh.Some? && refresh.value > 0 && (interval == 0 || d > 0) ==> d <= refresh.value)
            && (refresh.None? || refresh.value <= 0 ==> d == interval)
  {
  }

  /** The failures of one key along a run of its reconciles. */
  function CountsAfter(n: nat, xs: seq<Inputs>, es: seq<Exit>): (n': nat)
    requires |xs| == |es|
  {
    if xs == [] then n
    else
      var k := |xs| - 1;
      CountAfter(CountsAfter(n, xs[..k], es[..k]), xs[k], es[k])
  }

  lemma {:induction false} FailuresAddUp(n: nat, xs: seq<Inputs>, es: seq<Exit>)
    requires |xs| == |es| && forall i :: 0 <= i < |xs| ==> (es[i] == NoSecret || es[i] == NoRef) && !xs[i].requestedRef
    ensures CountsAfter(n, xs, es) == n + |xs|
  {
    if xs != [] {
      var k := |xs| - 1;
      FailuresAddUp(n, xs[..k], es[..k]);
    }
  }

  /** Backoff over a run: after `k` reconciles in a row that miss a secret or the ref, and no webhook, the
      next comes after 30 s doubled `k - 1` times, at most 300 s. A missing API key always waits 30 s. */
  lemma DelayAfterFailures(xs: seq<Inputs>, es: seq<Exit>, x: Inputs, n: nat)
    requires |xs| == |es| > 0 && forall i :: 0 <= i < |xs| ==> (es[i] == NoSecret || es[i] == NoRef) && !xs[i].requestedRef
    ensures var k := |xs|;
            ReplyTo(xs[k - 1], es[k - 1], CountsAfter(0, xs, es)) == After(Min(30_000_000_000 * Pow2(k - 1), 300_000_000_000))
    ensures ReplyTo(x, NoApiKey, CountAfter(n, x, NoApiKey)) == After(30_000_000_000)
  {
    FailuresAddUp(0, xs, es);
    assert Pow2(0) == 1;
  }

  // ----- When Ready can be trusted -----

  /** Ready says True only where the three conditions it summarises do. */
  ghost predicate ReadySound(st: CRStatus) {
    IsTrue(st.conditions, READY) ==>
      IsTrue(st.conditions, REF_RESOLVED) && IsTrue(st.conditions, PROFILES_VALID) && IsTrue(st.conditions, ALL_SYNCED)
  }

  /** What one reconcile does to Ready. */
  ghost predicate Moves(st: CRStatus, x: Inputs, e: Exit, st': CRStatus) {
    e == ExitOf(st, x) &&
    if !x.query.patched then st' == st
    else
      match e
      case Completed => Summarised(st')
      case NoRef =>
        !IsTrue(st'.conditions, REF_RESOLVED) && Find(st'.conditions, READY) == Find(st.conditions, READY)
      case _ => !IsTrue(st'.conditions, READY)
  }

  ghost predicate IsHistory(sts: seq<CRStatus>, xs: seq<Inputs>, es: seq<Exit>) {
    |sts| == |xs| + 1 && |es| == |xs| && forall i :: 0 <= i < |xs| ==> Moves(sts[i], xs[i], es[i], sts[i + 1])
  }

  /** Ready is True in state `k` because the run began so or the reconcile before set it. */
  ghost predicate Proclaims(sts: seq<CRStatus>, xs: seq<Inputs>, es: seq<Exit>, k: nat)
    requires |sts| == |xs| + 1 && |es| == |xs|
  {
    k < |sts| && IsTrue(sts[k].conditions, READY) && (k > 0 ==> xs[k - 1].query.patched && es[k - 1] == Completed)
  }

  ghost predicate OnlyFailing(xs: seq<Inputs>, es: seq<Exit>, k: nat, n: nat)
    requires n <= |xs| == |es|
  {
    forall j :: k <= j < n && xs[j].query.patched ==> es[j] == NoRef
  }

  ghost predicate SomePatched(xs: seq<Inputs>, k: nat, n: nat)
    requires n <= |xs|
  {
    exists j :: k <= j < n && xs[j].query.patched
  }

  /** Since Ready was last set to True, some reconcile patched the status, and all that did failed to resolve. */
  ghost predicate Outlived(sts: seq<CRStatus>, xs: seq<Inputs>, es: seq<Exit>, n: nat)
    requires |sts| == |xs| + 1 && |es| == |xs| && n <= |xs|
  {
    exists k: nat :: k <= n && Proclaims(sts, xs, es, k) && OnlyFailing(xs, es, k, n) && SomePatched(xs, k, n)
  }

  /** Where a True Ready comes from, and that it is sound exactly if nothing was patched since. */
  lemma {:induction false} ReadySince(sts: seq<CRStatus>, xs: seq<Inputs>, es: seq<Exit>, n: nat) returns (k: nat)
    requires IsHistory(sts, xs, es) && n < |sts| && ReadySound(sts[0]) && IsTrue(sts[n].conditions, READY)
    ensures k <= n && Proclaims(sts, xs, es, k) && OnlyFailing(xs, es, k, n)
    ensures ReadySound(sts[n]) <==> !SomePatched(xs, k, n)
  {
    if n == 0 {
      k := 0;
    } else {
      var i := n - 1;
      assert Moves(sts[i], xs[i], es[i], sts[i + 1]);
      if xs[i].query.patched && es[i] == Completed {
        k := n;
      } else {
        k := ReadySince(sts, xs, es, i);
        if xs[i].query.patched {
          assert SomePatched(xs, k, n);
        }
      }
    }
  }

  lemma {:induction false} FailuresKeepReady(sts: seq<CRStatus>, xs: seq<Inputs>, es: seq<Exit>, k: nat, n: nat)
    requires IsHistory(sts, xs, es) && k <= n < |sts| && Proclaims(sts, xs, es, k) && OnlyFailing(xs, es, k, n)
    ensures IsTrue(sts[n].conditions, READY)
    ensures SomePatched(xs, k, n) ==> !IsTrue(sts[n].conditions, REF_RESOLVED)
  {
    if k < n {
      var i := n - 1;
      assert Moves(sts[i], xs[i], es[i], sts[i + 1]);
      FailuresKeepReady(sts, xs, es, k, i);
    }
  }

  /** Exactly when Ready lies, at any point of any run: it is True although not all it summarises is, if and
      only if it has outlived a failed resolution. */
  lemma ReadyLiesIff(sts: seq<CRStatus>, xs: seq<Inputs>, es: seq<Exit>, n: nat)
    requires IsHistory(sts, xs, es) && n < |sts| && ReadySound(sts[0])
    ensures !ReadySound(sts[n]) <==> Outlived(sts, xs, es, n)
  {
    if !ReadySound(sts[n]) {
      var k := ReadySince(sts, xs, es, n);
    }
    if Outlived(sts, xs, es, n) {
      var k: nat :| k <= n && Proclaims(sts, xs, es, k) && OnlyFailing(xs, es, k, n) && SomePatched(xs, k, n);
      FailuresKeepReady(sts, xs, es, k, n);
    }
  }

  lemma HistoryGrows(sts: seq<CRStatus>, xs: seq<Inputs>, es: seq<Exit>, x: Inputs, e: Exit, st: CRStatus)
    requires IsHistory(sts, xs, es) && Moves(sts[|xs|], x, e, st)
    ensures IsHistory(sts + [st], xs + [x], es + [e])
  {
    var sts', xs', es' := sts + [st], xs + [x], es + [e];
    forall i | 0 <= i < |xs'|
      ensures Moves(sts'[i], xs'[i], es'[i], sts'[i + 1])
    {
      if i < |xs| {
        assert Moves(sts[i], xs[i], es[i], sts[i + 1]);
      }
    }
  }

  // ----- The cache along a run -----

  /** The query of a reconcile, if it got as far as the cache. */
  function Asked(x: Inputs, e: Exit): (qs: seq<Query>) {
    if e == Paused || e == NoSecret then [] else [x.query]
  }

  function Queries(xs: seq<Inputs>, es: seq<Exit>): (qs: seq<Query>)
    requires |xs| == |es|
  {
    if xs == [] then []
    else
      var n := |xs| - 1;
      Queries(xs[..n], es[..n]) + Asked(xs[n], es[n])
  }

  lemma QueriesGrow(xs: seq<Inputs>, es: seq<Exit>, x: Inputs, e: Exit)
    requires |xs| == |es|
    ensures Queries(xs + [x], es + [e]) == Queries(xs, es) + Asked(x, e)
  {
    assert (xs + [x])[..|xs|] == xs && (es + [e])[..|es|] == es;
  }

  /** The ref status is where the queries lead, and metadata is what query `last` published. */
  ghost predicate Accounted(qs: seq<Query>, last: nat, refs: RefStatus, published: Option<(string, string)>) {
    refs == StatusAt(qs, |qs|) && (published.Some? ==> Publishes(qs, last, published.value))
  }

  /** The history of a run up to the present status and metadata. */
  ghost predicate Logged(sts: seq<CRStatus>, xs: seq<Inputs>, es: seq<Exit>, last: nat, st: CRStatus,
                         published: Option<(string, string)>)
  {
    IsHistory(sts, xs, es) && sts[|xs|] == st && Accounted(Queries(xs, es), last, st.refs, published)
  }

  lemma LogGrows(sts: seq<CRStatus>, xs: seq<Inputs>, es: seq<Exit>, last: nat, st: CRStatus, published: Option<(string, string)>,
                 x: Inputs, e: Exit, st': CRStatus, published': Option<(string, string)>) returns (last': nat)
    requires Logged(sts, xs, es, last, st, published) && Moves(st, x, e, st')
    requires st'.refs == if e == Paused || e == NoSecret then st.refs else RefStep(st.refs, x.query)
    requires published' == if e == Completed && x.metadataWritten
                           then Some((ResolveRef(st.refs, x.query).value, x.query.ref)) else published
    ensures Logged(sts + [st'], xs + [x], es + [e], last', st', published')
  {
    HistoryGrows(sts, xs, es, x, e, st');
    last' := AccountsGrow(Queries(xs, es), last, st.refs, published, x, e, st'.refs, published');
    QueriesGrow(xs, es, x, e);
  }

  lemma AccountsGrow(qs: seq<Query>, last: nat, refs: RefStatus, published: Option<(string, string)>, x: Inputs, e: Exit,
                     refs': RefStatus, published': Option<(string, string)>) returns (last': nat)
    requires Accounted(qs, last, refs, published) && (e == Completed ==> ResolveRef(refs, x.query).Some?)
    requires refs' == if e == Paused || e == NoSecret then refs else RefStep(refs, x.query)
    requires published' == if e == Completed && x.metadataWritten
                           then Some((ResolveRef(refs, x.query).value, x.query.ref)) else published
    ensures Accounted(qs + Asked(x, e), last', refs', published')
  {
    last' := last;
    if e == Paused || e == NoSecret {
      assert qs + [] == qs;
    } else {
      StatusGrows(qs, x.query);
      if e == Completed && x.metadataWritten {
        last' := |qs|;
      } else if published.Some? {
        PublishesStill(qs, x.query, last, published.value);
      }
    }
  }
}
