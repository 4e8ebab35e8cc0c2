/**
 `Reconcile` as a step on the persisted status, the published metadata and the failure counts.
 Kubernetes and git answers are inputs; reads of the CR see the last patch.
 */
module Reconciler {
  import opened Options
  import opened Conditions
  import opened Backoff
  import opened RefCache
  import opened Readiness

  /** Why Ready is what it is after an exit that sets it. */
  function ReadyReason(st: CRStatus, e: Exit): (reason: string) {
    if e == Paused then "Paused" else if IsTrue(st.conditions, READY) then "SyncSucceeded" else "Reconciling"
  }

  class GatewaySyncReconciler {
    const failures: FailureCounts
    var status: CRStatus
    var published: Option<(string, string)>

    ghost predicate Valid()
      reads this
    {
      Unique(status.conditions)
    }

    constructor ()
      ensures Valid() && status == CRStatus([], UNRESOLVED, []) && published == None && fresh(failures)
    {
      failures := new FailureCounts();
      status, published := CRStatus([], UNRESOLVED, []), None;
    }

    method Set(cs: seq<Condition>, kind: string, on: bool, reason: string, x: Inputs) returns (r: seq<Condition>)
      requires Unique(cs)
      ensures Unique(r) && (IsTrue(r, kind) <==> on) && Says(r, kind, x.generation, reason)
      ensures forall k :: k != kind ==> Find(r, k) == Find(cs, k)
      ensures Stamped(cs, r, x.now)
    {
      var c := Condition(kind, if on then True else False, x.generation, x.now, reason, "");
      r := SetCondition(cs, c);
      UpsertUnique(cs, c);
      UpsertStamped(cs, c);
      forall k { FindUpsert(cs, c, k); }
    }

    method Patch(st: CRStatus, x: Inputs)
      modifies this`status
      ensures status == if x.query.patched then st else old(status)
    {
      if x.query.patched {
        status := st;
      }
    }

    /** Steps 3.5 to 7, reached with a resolved ref. */
    method Finish(st0: CRStatus, commit: string, x: Inputs) returns (e: Exit, reply: Reply)
      requires Unique(st0.conditions) && IsTrue(st0.conditions, REF_RESOLVED)
      modifies this`status, this`published, failures
      ensures e == if x.apiKeyFound then Completed else NoApiKey
      ensures !x.query.patched ==> status == old(status)
      ensures x.query.patched ==> Unique(status.conditions) && status.refs == st0.refs
      ensures x.query.patched ==> IsTrue(status.conditions, REF_RESOLVED)
      ensures x.query.patched ==> (IsTrue(status.conditions, PROFILES_VALID) <==> IsTrue(st0.conditions, PROFILES_VALID))
      ensures x.query.patched ==> status.gateways == if e == Completed && x.discovered.Some? then x.discovered.value else st0.gateways
      ensures x.query.patched ==> Stamped(st0.conditions, status.conditions, x.now)
      ensures x.query.patched ==> forall k :: k == REF_RESOLVED || k == PROFILES_VALID ==> Find(status.conditions, k) == Find(st0.conditions, k)
      ensures e == Completed && x.query.patched ==> Summarised(status)
      ensures e == NoApiKey && x.query.patched ==> !IsTrue(status.conditions, READY)
      ensures x.query.patched ==> Says(status.conditions, READY, x.generation, ReadyReason(status, e))
      ensures published == if e == Completed && x.metadataWritten then Some((commit, x.query.ref)) else old(published)
      ensures failures.Failures(x.key) == old(failures.Failures(x.key)) + if e == NoApiKey then 1 else 0
      ensures failures.OthersKept(x.key, old(failures.counts))
      ensures reply == ReplyTo(x, e, failures.Failures(x.key))
    {
      var st := st0;
      if !x.apiKeyFound {
        failures.RecordFailure(x.key);
        var delay := failures.BackoffDelay(x.key);
        var cs := Set(st.conditions, READY, false, "Reconciling", x);
        Patch(st.(conditions := cs), x);
        return NoApiKey, After(delay);
      }
      if x.metadataWritten {
        published := Some((commit, x.query.ref));
      }
      if x.discovered.Some? {
        st := st.(gateways := x.discovered.value);
      }
      var cs := UpdateAllGatewaysSynced(st.conditions, st.gateways, x.generation, x.now);
      cs := UpdateReady(cs, x.generation, x.now);
      Patch(st.(conditions := cs), x);
      return Completed, if x.query.patched then After(RequeueInterval(x.query.interval, x.refresh)) else Failed;
    }

    /** Steps 3 to 7, reached with the profiles condition set and the secrets found. */
    method Resolve(st: CRStatus, x: Inputs) returns (e: Exit, reply: Reply)
      requires Unique(st.conditions)
      modifies this`status, this`published, failures
      ensures e == if ResolveRef(st.refs, x.query).None? then NoRef else if x.apiKeyFound then Completed else NoApiKey
      ensures !x.query.patched ==> status == old(status)
      ensures x.query.patched ==> Unique(status.conditions) && status.refs == Recorded(st.refs, x.query)
      ensures x.query.patched ==> (IsTrue(status.conditions, PROFILES_VALID) <==> IsTrue(st.conditions, PROFILES_VALID))
      ensures x.query.patched ==> (IsTrue(status.conditions, REF_RESOLVED) <==> e != NoRef)
      ensures e == Completed && x.query.patched ==> Summarised(status)
      ensures e == NoApiKey && x.query.patched ==> !IsTrue(status.conditions, READY)
      ensures x.query.patched && e != NoRef ==> Says(status.conditions, READY, x.generation, ReadyReason(status, e))
      ensures x.query.patched && e != NoRef ==> Says(status.conditions, REF_RESOLVED, x.generation, "RefResolved")
      ensures e == NoRef && x.query.patched ==> Find(status.conditions, READY) == Find(st.conditions, READY)
      ensures x.query.patched ==> status.gateways == if e == Completed && x.discovered.Some? then x.discovered.value else st.gateways
      ensures x.query.patched ==> Stamped(st.conditions, status.conditions, x.now)
      ensures x.query.patched ==> Find(status.conditions, PROFILES_VALID) == Find(st.conditions, PROFILES_VALID)
      ensures published == if e == Completed && x.metadataWritten
                           then Some((ResolveRef(st.refs, x.query).value, x.query.ref)) else old(published)
      ensures failures.Failures(x.key) ==
              match e case NoRef => old(failures.Failures(x.key)) + 1 case NoApiKey => 1 case _ => 0
      ensures failures.OthersKept(x.key, old(failures.counts))
      ensures reply == ReplyTo(x, e, failures.Failures(x.key))
    {
      var resolved := ResolveRef(st.refs, x.query);
      if resolved.None? {
        failures.RecordFailure(x.key);
        var delay := failures.BackoffDelay(x.key);
        var cs := Set(st.conditions, REF_RESOLVED, false, "RefResolutionFailed", x);
        Patch(st.(conditions := cs, refs := st.refs.(resolution := "Error")), x);
        return NoRef, After(delay);
      }
      failures.ResetBackoff(x.key);
      var cs := Set(st.conditions, REF_RESOLVED, true, "RefResolved", x);
      var refs := st.refs.(resolution := "Resolved");
      if refs.commit != resolved.value {
        refs := refs.(commit := resolved.value, ref := x.query.ref, time := Some(x.query.stamp));
      }
      e, reply := Finish(st.(conditions := cs, refs := refs), resolved.value, x);
    }

    method Reconcile(x: Inputs) returns (e: Exit, reply: Reply)
      requires Valid()
      modifies this`status, this`published, failures
      ensures Valid() && e == ExitOf(old(status), x)
      ensures !x.query.patched ==> status == old(status)
      // The ref status makes one step of the cache, and metadata only ever carries what it resolved.
      ensures status.refs == if e == Paused || e == NoSecret then old(status.refs) else RefStep(old(status.refs), x.query)
      ensures published == if e == Completed && x.metadataWritten
                           then Some((ResolveRef(old(status.refs), x.query).value, x.query.ref)) else old(published)
      ensures status.gateways == if e == Completed && x.query.patched && x.discovered.Some? then x.discovered.value else old(status.gateways)
      ensures x.query.patched && e == NoRef ==> status.refs == old(status.refs).(resolution := "Error")
      ensures x.query.patched && (e == NoApiKey || e == Completed) ==>
              status.refs.resolution == "Resolved" && Some(status.refs.commit) == ResolveRef(old(status.refs), x.query)
      // Conditions: transition times move exactly with the statuses.
      ensures Stamped(old(status).conditions, status.conditions, x.now)
      ensures e == Completed && x.query.patched ==> Summarised(status)
      ensures e != Paused && x.query.patched ==> (IsTrue(status.conditions, PROFILES_VALID) <==> x.profilesValid)
      ensures e == Completed && x.query.patched ==> IsTrue(status.conditions, REF_RESOLVED)
      ensures (e == Paused || e == NoSecret || e == NoApiKey) && x.query.patched ==> !IsTrue(status.conditions, READY)
      ensures e == NoRef && x.query.patched ==>
              !IsTrue(status.conditions, REF_RESOLVED) &&
              Find(status.conditions, READY) == Find(old(status).conditions, READY)
      ensures x.query.patched && e != NoRef ==> Says(status.conditions, READY, x.generation, ReadyReason(status, e))
      ensures x.query.patched && (e == NoApiKey || e == Completed) ==>
              Says(status.conditions, REF_RESOLVED, x.generation, "RefResolved")
      ensures x.query.patched && e != Paused ==>
              Says(status.conditions, PROFILES_VALID, x.generation, if x.profilesValid then "ProfilesValid" else "ProfilesInvalid")
      // A patched status has an unfounded Ready exactly when a failed resolution found Ready True.
      ensures x.query.patched ==> (ReadySound(status) <==> !(e == NoRef && IsTrue(old(status).conditions, READY)))
      // Backoff counts consecutive failing reconciles, per key, and sets the requeue delay.
      ensures failures.Failures(x.key) == CountAfter(old(failures.Failures(x.key)), x, e)
      ensures failures.OthersKept(x.key, old(failures.counts))
      ensures e == NoSecret || e == NoRef ==>
              failures.Failures(x.key) == (if x.requestedRef then 0 else old(failures.Failures(x.key))) + 1
      ensures e == NoApiKey ==> failures.Failures(x.key) == 1
      ensures e == Completed ==> failures.Failures(x.key) == 0
      ensures reply == ReplyTo(x, e, failures.Failures(x.key))
      ensures e == NoSecret || e == NoRef || e == NoApiKey ==> reply == After(Ideal(failures.Failures(x.key)))
      ensures !x.query.patched && (e == Paused || e == Completed) ==> reply == Failed
    {
      if x.requestedRef {
        failures.ResetBackoff(x.key);
      }
      if x.paused {
        var cs := Set(status.conditions, READY, false, "Paused", x);
        Patch(status.(conditions := cs), x);
        return Paused, if x.query.patched then After(0) else Failed;
      }
      e, reply := Proceed(status, x);
    }

    /** Steps 1 to 7. */
    method Proceed(st: CRStatus, x: Inputs) returns (e: Exit, reply: Reply)
      requires Unique(st.conditions) && status == st && !x.paused
      modifies this`status, this`published, failures
      ensures e == ExitOf(st, x) && Unique(status.conditions)
      ensures !x.query.patched ==> status == st
      ensures status.refs == if e == NoSecret then st.refs else RefStep(st.refs, x.query)
      ensures published == if e == Completed && x.metadataWritten
                           then Some((ResolveRef(st.refs, x.query).value, x.query.ref)) else old(published)
      ensures status.gateways == if e == Completed && x.query.patched && x.discovered.Some? then x.discovered.value else st.gateways
      ensures Stamped(st.conditions, status.conditions, x.now)
      ensures x.query.patched ==> (IsTrue(status.conditions, PROFILES_VALID) <==> x.profilesValid)
      ensures e == Completed && x.query.patched ==> Summarised(status) && IsTrue(status.conditions, REF_RESOLVED)
      ensures (e == NoSecret || e == NoApiKey) && x.query.patched ==> !IsTrue(status.conditions, READY)
      ensures x.query.patched && e != NoRef ==> Says(status.conditions, READY, x.generation, ReadyReason(status, e))
      ensures x.query.patched && (e == NoApiKey || e == Completed) ==>
              Says(status.conditions, REF_RESOLVED, x.generation, "RefResolved")
      ensures x.query.patched ==>
              Says(status.conditions, PROFILES_VALID, x.generation, if x.profilesValid then "ProfilesValid" else "ProfilesInvalid")
      ensures e == NoRef && x.query.patched ==>
              !IsTrue(status.conditions, REF_RESOLVED) && Find(status.conditions, READY) == Find(st.conditions, READY)
      ensures failures.Failures(x.key) ==
              match e case Completed => 0 case NoApiKey => 1 case _ => old(failures.Failures(x.key)) + 1
      ensures failures.OthersKept(x.key, old(failures.counts))
      ensures reply == ReplyTo(x, e, failures.Failures(x.key))
    {
      var cs := Set(st.conditions, PROFILES_VALID, x.profilesValid,
                    if x.profilesValid then "ProfilesValid" else "ProfilesInvalid", x);
      if !x.secretsFound {
        failures.RecordFailure(x.key);
        var delay := failures.BackoffDelay(x.key);
        cs := Set(cs, READY, false, "Reconciling", x);
        Patch(st.(conditions := cs), x);
        return NoSecret, After(delay);
      }
      e, reply := Resolve(st.(conditions := cs), x);
    }

    /** Any stretch of reconciles from a CR without a resolved ref on, with its history. Metadata carries a
        recent answer for the ref it names, published by query `last`; Ready is unfounded exactly when it
        has outlived a failed resolution. */
    method ReconcileAll(xs: seq<Inputs>) returns (ghost sts: seq<CRStatus>, ghost es: seq<Exit>, ghost last: nat)
      requires Valid() && status.refs == UNRESOLVED && published == None
      modifies this`status, this`published, failures
      ensures Valid() && IsHistory(sts, xs, es) && sts[0] == old(status) && sts[|xs|] == status
      ensures status.refs == StatusAt(Queries(xs, es), |Queries(xs, es)|)
      ensures published.Some? ==>
              var qs := Queries(xs, es);
              && Resolves(qs, last) && published == Some((CommitOf(qs, last), qs[last].ref))
              && Answered(qs, Origin(qs, last), published.value.1, published.value.0) && Recent(qs, Origin(qs, last), last)
      ensures ReadySound(old(status)) ==> (!ReadySound(status) <==> Outlived(sts, xs, es, |xs|))
    {
      sts, es, last := [status], [], 0;
      for i := 0 to |xs|
        invariant Valid() && |es| == i && Logged(sts, xs[..i], es, last, status, published) && sts[0] == old(status)
      {
        ghost var st, before := status, published;
        var e, reply := Reconcile(xs[i]);
        last := LogGrows(sts, xs[..i], es, last, st, before, xs[i], e, status, published);
        assert xs[..i] + [xs[i]] == xs[..i + 1];
        sts, es := sts + [status], es + [e];
      }
      assert xs[..|xs|] == xs;
      if published.Some? {
        CacheIsSound(Queries(xs, es), last);
      }
      if ReadySound(sts[0]) {
        ReadyLiesIff(sts, xs, es, |xs|);
      }
    }
  }

  /** A run that ends so: one reconcile completes, the next, after the interval, gets no answer. */
  method ReadyOutlivesFailure(key: string, commit: string) returns (r: GatewaySyncReconciler)
    requires commit != ""
    ensures IsTrue(r.status.conditions, READY) && !IsTrue(r.status.conditions, REF_RESOLVED)
  {
    r := new GatewaySyncReconciler();
    var first := Query("repo", "main", 60, 0, Some(commit), 1, true);
    var second := Query("repo", "main", 60, 100, None, 101, true);
    var e1, reply1 := r.Reconcile(Inputs(key, 1, 0, false, false, true, true, first, true, true, Some(["Synced"]), None));
    assert r.status.refs == RefStatus("Resolved", "main", commit, Some(1));
    var e2, reply2 := r.Reconcile(Inputs(key, 1, 100, false, false, true, true, second, true, true, None, None));
  }
}
