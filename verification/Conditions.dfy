/**
 The condition list of a GatewaySync: `setCondition`, and the two summary conditions that end a
 reconcile.
 */
module Conditions {
  import opened Options

  datatype Status = True | False

  datatype Condition = Condition(kind: string, status: Status, generation: nat, transition: int,
                                 reason: string, message: string)

  const READY := "Ready"
  const REF_RESOLVED := "RefResolved"
  const PROFILES_VALID := "ProfilesValid"
  const ALL_SYNCED := "AllGatewaysSynced"
  const SIDECAR_INJECTED := "SidecarInjected"

  ghost predicate Unique(cs: seq<Condition>) {
    forall i, j :: 0 <= i < j < |cs| ==> cs[i].kind != cs[j].kind
  }

  /** The condition of a kind, if the list has one. */
  function Find(cs: seq<Condition>, kind: string): (c: Option<Condition>) {
    if cs == [] then None else if cs[0].kind == kind then Some(cs[0]) else Find(cs[1..], kind)
  }

  predicate IsTrue(cs: seq<Condition>, kind: string) {
    var c := Find(cs, kind);
    c.Some? && c.value.status == True
  }

  /** An update of an existing condition: same status keeps the transition time. */
  function Merged(prev: Condition, c: Condition): (m: Condition) {
    if prev.status != c.status then c else c.(transition := prev.transition)
  }

  function Upsert(cs: seq<Condition>, c: Condition): (r: seq<Condition>) {
    if cs == [] then [c]
    else if cs[0].kind == c.kind then [Merged(cs[0], c)] + cs[1..]
    else [cs[0]] + Upsert(cs[1..], c)
  }

  lemma {:induction false} UpsertPast(before: seq<Condition>, rest: seq<Condition>, c: Condition)
    requires forall k :: 0 <= k < |before| ==> before[k].kind != c.kind
    ensures Upsert(before + rest, c) == before + Upsert(rest, c)
  {
    if before == [] {
      assert before + rest == rest;
    } else {
      UpsertPast(before[1..], rest, c);
      assert (before + rest)[1..] == before[1..] + rest;
      assert [before[0]] + (before[1..] + Upsert(rest, c)) == before + Upsert(rest, c);
    }
  }

  lemma UpsertAt(cs: seq<Condition>, i: nat, c: Condition)
    requires i < |cs| && cs[i].kind == c.kind && forall k :: 0 <= k < i ==> cs[k].kind != c.kind
    ensures Upsert(cs, c) == cs[i := Merged(cs[i], c)]
  {
    UpsertPast(cs[..i], cs[i..], c);
    assert cs[..i] + cs[i..] == cs;
    assert cs[i..][1..] == cs[i + 1..];
  }

  method SetCondition(cs: seq<Condition>, c: Condition) returns (r: seq<Condition>)
    ensures r == Upsert(cs, c)
  {
    for i := 0 to |cs|
      invariant forall k :: 0 <= k < i ==> cs[k].kind != c.kind
    {
      if cs[i].kind == c.kind {
        UpsertAt(cs, i, c);
        if cs[i].status != c.status {
          return cs[i := c];
        }
        return cs[i := cs[i].(reason := c.reason, message := c.message, generation := c.generation)];
      }
    }
    UpsertPast(cs, [], c);
    assert cs + [] == cs;
    return cs + [c];
  }

  /** What one update does: the updated kind holds the new condition, with its old transition time
      exactly when the status did not flip; every other kind is as before. */
  lemma {:induction false} FindUpsert(cs: seq<Condition>, c: Condition, kind: string)
    ensures Find(Upsert(cs, c), kind) ==
            var prev := Find(cs, kind);
            if kind != c.kind then prev
            else if prev.Some? && prev.value.status == c.status then Some(c.(transition := prev.value.transition))
            else Some(c)
  {
    if cs != [] {
      FindUpsert(cs[1..], c, kind);
    }
  }

  /** The condition of this kind was set for this generation with this reason. */
  predicate Says(cs: seq<Condition>, kind: string, generation: nat, reason: string) {
    var c := Find(cs, kind);
    c.Some? && c.value.generation == generation && c.value.reason == reason
  }

  /** Between two lists every transition time moved, to `now`, exactly when the status flipped. */
  ghost predicate Stamped(before: seq<Condition>, after: seq<Condition>, now: int) {
    forall k :: StampedAt(Find(before, k), Find(after, k), now)
  }

  predicate StampedAt(before: Option<Condition>, after: Option<Condition>, now: int) {
    after.Some? ==>
      after.value.transition ==
      if before.Some? && before.value.status == after.value.status then before.value.transition else now
  }

  lemma UpsertStamped(cs: seq<Condition>, c: Condition)
    ensures Stamped(cs, Upsert(cs, c), c.transition)
  {
    forall k
      ensures StampedAt(Find(cs, k), Find(Upsert(cs, c), k), c.transition)
    {
      FindUpsert(cs, c, k);
    }
  }

  lemma {:induction false} FindIff(cs: seq<Condition>, kind: string)
    ensures Find(cs, kind).None? <==> forall i :: 0 <= i < |cs| ==> cs[i].kind != kind
    ensures Find(cs, kind).Some? ==> Find(cs, kind).value in cs && Find(cs, kind).value.kind == kind
  {
    if cs != [] {
      FindIff(cs[1..], kind);
      assert forall i :: 1 <= i < |cs| ==> cs[i] == cs[1..][i - 1];
    }
  }

  /** No kind ever occurs twice. */
  lemma {:induction false} UpsertUnique(cs: seq<Condition>, c: Condition)
    requires Unique(cs)
    ensures Unique(Upsert(cs, c))
  {
    if cs != [] && cs[0].kind != c.kind {
      var tail := cs[1..];
      UpsertUnique(tail, c);
      FindIff(tail, cs[0].kind);
      FindUpsert(tail, c, cs[0].kind);
      FindIff(Upsert(tail, c), cs[0].kind);
    }
  }

  lemma {:induction false} UniqueFind(cs: seq<Condition>, i: nat)
    requires Unique(cs) && i < |cs|
    ensures Find(cs, cs[i].kind) == Some(cs[i])
  {
    if i > 0 {
      UniqueFind(cs[1..], i - 1);
    }
  }

  // ----- Whole runs of updates -----

  function UpsertAll(cs: seq<Condition>, updates: seq<Condition>): (r: seq<Condition>)
    decreases |updates|
  {
    if updates == [] then cs
    else Upsert(UpsertAll(cs, updates[..|updates| - 1]), updates[|updates| - 1])
  }

  /** Update `i` is the last one of its kind up to `n`. */
  ghost predicate LastOf(updates: seq<Condition>, kind: string, n: nat, i: nat) {
    i < n <= |updates| && updates[i].kind == kind && forall j :: i < j < n ==> updates[j].kind != kind
  }

  /** Update `i` flipped its kind: it is the first of the kind, or the one before had the other status. */
  ghost predicate Flip(updates: seq<Condition>, kind: string, i: nat) {
    i < |updates| && updates[i].kind == kind &&
    forall p: nat :: LastOf(updates, kind, i, p) ==> updates[p].status != updates[i].status
  }

  /** Update `i` is the latest flip of its kind. */
  ghost predicate LatestFlip(updates: seq<Condition>, kind: string, i: nat) {
    Flip(updates, kind, i) && forall j :: i < j < |updates| ==> !Flip(updates, kind, j)
  }

  lemma {:induction false} RunUnique(updates: seq<Condition>)
    ensures Unique(UpsertAll([], updates))
  {
    if updates != [] {
      RunUnique(updates[..|updates| - 1]);
      UpsertUnique(UpsertAll([], updates[..|updates| - 1]), updates[|updates| - 1]);
    }
  }

  /** `c` is update `p`, the last of its kind, up to the transition time. */
  ghost predicate FromUpdate(c: Condition, updates: seq<Condition>, p: nat) {
    LastOf(updates, c.kind, |updates|, p) && c == updates[p].(transition := c.transition)
  }

  lemma OlderUpdateStands(c: Condition, updates: seq<Condition>, n: nat, p: nat)
    requires |updates| == n + 1 && FromUpdate(c, updates[..n], p) && updates[n].kind != c.kind
    ensures FromUpdate(c, updates, p)
  {
    LastInPrefix(updates, c.kind, n, n, p);
  }

  lemma NewUpdateStands(c: Condition, updates: seq<Condition>, n: nat)
    requires |updates| == n + 1 && c == updates[n].(transition := c.transition)
    ensures FromUpdate(c, updates, n)
  {
  }

  lemma {:induction false} FindKind(cs: seq<Condition>, kind: string)
    ensures Find(cs, kind).Some? ==> Find(cs, kind).value.kind == kind
  {
    if cs != [] {
      FindKind(cs[1..], kind);
    }
  }

  /** The condition found is what the last update of its kind said, up to the transition time. */
  lemma {:induction false} RunLast(updates: seq<Condition>, kind: string) returns (p: nat)
    ensures var c := Find(UpsertAll([], updates), kind);
            if c.Some? then c.value.kind == kind && FromUpdate(c.value, updates, p)
            else forall i :: 0 <= i < |updates| ==> updates[i].kind != kind
  {
    p := 0;
    if updates != [] {
      var n := |updates| - 1;
      var init, last := updates[..n], updates[n];
      var c := Find(UpsertAll([], updates), kind);
      p := RunLast(init, kind);
      FindKind(UpsertAll([], init), kind);
      FindUpsert(UpsertAll([], init), last, kind);
      if last.kind == kind {
        p := n;
        NewUpdateStands(c.value, updates, n);
      } else if c.Some? {
        OlderUpdateStands(c.value, updates, n, p);
      } else {
        forall i | 0 <= i < |updates|
          ensures updates[i].kind != kind
        {
          assert i < n ==> init[i] == updates[i];
        }
      }
    }
  }

  ghost predicate SinceFlip(updates: seq<Condition>, kind: string, transition: int) {
    exists i: nat :: LatestFlip(updates, kind, i) && transition == updates[i].transition
  }

  lemma OtherKindKeepsFlip(updates: seq<Condition>, kind: string, n: nat, transition: int)
    requires |updates| == n + 1 && updates[n].kind != kind && SinceFlip(updates[..n], kind, transition)
    ensures SinceFlip(updates, kind, transition)
  {
    var i: nat :| LatestFlip(updates[..n], kind, i) && transition == updates[..n][i].transition;
    FlipElsewhere(updates, kind, n, i);
  }

  lemma SameStatusKeepsFlip(updates: seq<Condition>, kind: string, n: nat, p: nat, transition: int)
    requires |updates| == n + 1 && updates[n].kind == kind && SinceFlip(updates[..n], kind, transition)
    requires LastOf(updates[..n], kind, n, p) && updates[p].status == updates[n].status
    ensures SinceFlip(updates, kind, transition)
  {
    var i: nat :| LatestFlip(updates[..n], kind, i) && transition == updates[..n][i].transition;
    LastInPrefix(updates, kind, n, n, p);
    StillFlipped(updates, kind, n, p, i);
  }

  lemma OtherStatusFlips(updates: seq<Condition>, kind: string, n: nat)
    requires |updates| == n + 1 && updates[n].kind == kind
    requires forall p: nat :: LastOf(updates[..n], kind, n, p) ==> updates[p].status != updates[n].status
    ensures SinceFlip(updates, kind, updates[n].transition)
  {
    forall p: nat
      ensures LastOf(updates[..n], kind, n, p) <==> LastOf(updates, kind, n, p)
    {
      LastInPrefix(updates, kind, n, n, p);
    }
    FlipsNow(updates, kind, n);
  }

  lemma FlipsAgainst(updates: seq<Condition>, kind: string, n: nat)
    requires |updates| == n + 1 && updates[n].kind == kind
    requires var prev := Find(UpsertAll([], updates[..n]), kind);
             prev.None? || prev.value.status != updates[n].status
    ensures SinceFlip(updates, kind, updates[n].transition)
  {
    var q := RunLast(updates[..n], kind);
    forall p: nat | LastOf(updates[..n], kind, n, p)
      ensures updates[p].status != updates[n].status
    {
      assert updates[..n][p] == updates[p];
      if Find(UpsertAll([], updates[..n]), kind).Some? {
        LastIsUnique(updates[..n], kind, n, p, q);
      }
    }
    OtherStatusFlips(updates, kind, n);
  }

  lemma LastIsUnique(updates: seq<Condition>, kind: string, n: nat, p: nat, q: nat)
    requires LastOf(updates, kind, n, p) && LastOf(updates, kind, n, q)
    ensures p == q
  {
  }

  lemma {:induction false} RunFlip(updates: seq<Condition>, kind: string)
    requires Find(UpsertAll([], updates), kind).Some?
    ensures SinceFlip(updates, kind, Find(UpsertAll([], updates), kind).value.transition)
  {
    var n := |updates| - 1;
    var init, last := updates[..n], updates[n];
    var prev := Find(UpsertAll([], init), kind);
    FindUpsert(UpsertAll([], init), last, kind);
    if last.kind == kind && (prev.None? || prev.value.status != last.status) {
      FlipsAgainst(updates, kind, n);
    } else {
      RunFlip(init, kind);
      if last.kind != kind {
        OtherKindKeepsFlip(updates, kind, n, prev.value.transition);
      } else {
        var p := RunLast(init, kind);
        SameStatusKeepsFlip(updates, kind, n, p, prev.value.transition);
      }
    }
  }

  /** After any sequence of updates from an empty list, each kind occurs at most once, carries what its
      last update said, and its transition time is the time of its latest flip. */
  lemma RunOfUpdates(updates: seq<Condition>, kind: string) returns (p: nat)
    ensures Unique(UpsertAll([], updates))
    ensures var c := Find(UpsertAll([], updates), kind);
            if c.None? then forall i :: 0 <= i < |updates| ==> updates[i].kind != kind
            else c.value.kind == kind && FromUpdate(c.value, updates, p) &&
                 SinceFlip(updates, kind, c.value.transition)
  {
    RunUnique(updates);
    p := RunLast(updates, kind);
    if Find(UpsertAll([], updates), kind).Some? {
      RunFlip(updates, kind);
    }
  }

  lemma FlipsNow(updates: seq<Condition>, kind: string, n: nat)
    requires |updates| == n + 1 && updates[n].kind == kind
    requires forall i: nat :: LastOf(updates, kind, n, i) ==> updates[i].status != updates[n].status
    ensures LatestFlip(updates, kind, n)
  {
  }

  lemma StillFlipped(updates: seq<Condition>, kind: string, n: nat, p: nat, i: nat)
    requires |updates| == n + 1 && updates[n].kind == kind
    requires LastOf(updates, kind, n, p) && updates[p].status == updates[n].status
    requires LatestFlip(updates[..n], kind, i)
    ensures LatestFlip(updates, kind, i)
  {
    var init := updates[..n];
    FlipInPrefix(updates, kind, n, i);
    forall j | i < j < |updates|
      ensures !Flip(updates, kind, j)
    {
      if j < n {
        FlipInPrefix(updates, kind, n, j);
        assert !Flip(init, kind, j);
      }
    }
  }

  lemma FlipInPrefix(updates: seq<Condition>, kind: string, n: nat, i: nat)
    requires i < n <= |updates|
    ensures Flip(updates[..n], kind, i) <==> Flip(updates, kind, i)
  {
    forall p: nat
      ensures LastOf(updates[..n], kind, i, p) <==> LastOf(updates, kind, i, p)
    {
      LastInPrefix(updates, kind, n, i, p);
    }
  }

  lemma LastInPrefix(updates: seq<Condition>, kind: string, n: nat, m: nat, p: nat)
    requires m <= n <= |updates|
    ensures LastOf(updates[..n], kind, m, p) <==> LastOf(updates, kind, m, p)
  {
    assert forall j :: 0 <= j < n ==> updates[..n][j] == updates[j];
  }

  lemma FlipElsewhere(updates: seq<Condition>, kind: string, n: nat, i: nat)
    requires |updates| == n + 1 && updates[n].kind != kind && LatestFlip(updates[..n], kind, i)
    ensures LatestFlip(updates, kind, i)
  {
    FlipInPrefix(updates, kind, n, i);
    forall j | i < j < |updates|
      ensures !Flip(updates, kind, j)
    {
      if j < n {
        FlipInPrefix(updates, kind, n, j);
        assert !Flip(updates[..n], kind, j);
      }
    }
  }

  // ----- The summary conditions -----

  /** AllGatewaysSynced and SidecarInjected from the discovered gateways' sync statuses. */
  method UpdateAllGatewaysSynced(cs: seq<Condition>, gateways: seq<string>, generation: nat, now: int)
    returns (r: seq<Condition>)
    requires Unique(cs)
    ensures Unique(r)
    ensures IsTrue(r, ALL_SYNCED) <==> gateways != [] && forall i :: 0 <= i < |gateways| ==> gateways[i] == "Synced"
    ensures Says(r, ALL_SYNCED, generation, if gateways == [] then "NoGatewaysDiscovered"
                                            else if IsTrue(r, ALL_SYNCED) then "SyncSucceeded" else "SyncInProgress")
    ensures forall k :: k != ALL_SYNCED && k != SIDECAR_INJECTED ==> Find(r, k) == Find(cs, k)
    ensures gateways == [] ==> Find(r, SIDECAR_INJECTED) == Find(cs, SIDECAR_INJECTED)
    ensures gateways != [] ==> (IsTrue(r, SIDECAR_INJECTED) <==> "MissingSidecar" !in gateways)
    ensures Stamped(cs, r, now)
  {
    var c := Condition(ALL_SYNCED, False, generation, now, "NoGatewaysDiscovered", "0/0 synced");
    if gateways == [] {
      r := SetCondition(cs, c);
      UpsertUnique(cs, c);
      UpsertStamped(cs, c);
      forall k { FindUpsert(cs, c, k); }
      return;
    }
    var synced, missing := 0, 0;
    for i := 0 to |gateways|
      invariant 0 <= synced <= i && 0 <= missing
      invariant synced == i <==> forall k :: 0 <= k < i ==> gateways[k] == "Synced"
      invariant missing == 0 <==> "MissingSidecar" !in gateways[..i]
    {
      if gateways[i] == "Synced" {
        synced := synced + 1;
      }
      if gateways[i] == "MissingSidecar" {
        missing := missing + 1;
      }
      assert gateways[..i + 1] == gateways[..i] + [gateways[i]];
    }
    assert gateways[..|gateways|] == gateways;
    if synced == |gateways| {
      c := c.(status := True, reason := "SyncSucceeded", message := "all synced");
    } else {
      c := c.(reason := "SyncInProgress", message := "some not synced");
    }
    var d := Condition(SIDECAR_INJECTED, if missing > 0 then False else True, generation, now,
                       if missing > 0 then "SidecarMissing" else "SidecarPresent", "");
    var mid := SetCondition(cs, c);
    r := SetCondition(mid, d);
    UpsertUnique(cs, c);
    UpsertUnique(mid, d);
    forall k { FindUpsert(cs, c, k); }
    forall k { FindUpsert(mid, d, k); }
    UpsertStamped(cs, c);
    UpsertStamped(mid, d);
  }

  /** Ready is True exactly when the three conditions it summarises are. */
  method UpdateReady(cs: seq<Condition>, generation: nat, now: int) returns (r: seq<Condition>)
    requires Unique(cs)
    ensures Unique(r)
    ensures IsTrue(r, READY) <==> IsTrue(cs, REF_RESOLVED) && IsTrue(cs, ALL_SYNCED) && IsTrue(cs, PROFILES_VALID)
    ensures Says(r, READY, generation, if IsTrue(r, READY) then "SyncSucceeded" else "Reconciling")
    ensures forall k :: k != READY ==> Find(r, k) == Find(cs, k)
    ensures Stamped(cs, r, now)
  {
    var ref, all, profiles := false, false, false;
    for i := 0 to |cs|
      invariant ref <==> exists k :: 0 <= k < i && cs[k].kind == REF_RESOLVED && cs[k].status == True
      invariant all <==> exists k :: 0 <= k < i && cs[k].kind == ALL_SYNCED && cs[k].status == True
      invariant profiles <==> exists k :: 0 <= k < i && cs[k].kind == PROFILES_VALID && cs[k].status == True
    {
      if cs[i].kind == REF_RESOLVED && cs[i].status == True {
        ref := true;
      }
      if cs[i].kind == ALL_SYNCED && cs[i].status == True {
        all := true;
      }
      if cs[i].kind == PROFILES_VALID && cs[i].status == True {
        profiles := true;
      }
    }
    TrueIff(cs, REF_RESOLVED);
    TrueIff(cs, ALL_SYNCED);
    TrueIff(cs, PROFILES_VALID);
    var c := Condition(READY, False, generation, now, "Reconciling", "Waiting for gateways to sync");
    if ref && all && profiles {
      c := c.(status := True, reason := "SyncSucceeded", message := "All gateways synced");
    } else if !profiles {
      c := c.(message := "Profiles invalid");
    } else if !ref {
      c := c.(message := "Ref not resolved");
    }
    r := SetCondition(cs, c);
    UpsertUnique(cs, c);
    UpsertStamped(cs, c);
    forall k { FindUpsert(cs, c, k); }
  }

  lemma TrueIff(cs: seq<Condition>, kind: string)
    requires Unique(cs)
    ensures IsTrue(cs, kind) <==> exists k :: 0 <= k < |cs| && cs[k].kind == kind && cs[k].status == True
  {
    FindIff(cs, kind);
    forall k | 0 <= k < |cs| && cs[k].kind == kind
      ensures Find(cs, kind) == Some(cs[k])
    {
      UniqueFind(cs, k);
    }
  }
}
