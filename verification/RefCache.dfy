/**
 The ref cache in the CR's status, over whole runs of reconciles. What the remote answers is an input;
 reads of the CR see the last patch.
 */
module RefCache {
  import opened Options

  /** RefResolutionStatus, LastSyncRef, LastSyncCommit and LastSyncTime. */
  datatype RefStatus = RefStatus(resolution: string, ref: string, commit: string, time: Option<int>)

  /** One reconcile as the cache sees it: the effective ref, the polling interval, when the age is
      checked, what ls-remote would answer, the stamp taken afterwards, whether the patch went through. */
  datatype Query = Query(repo: string, ref: string, interval: int, check: int,
                         answer: Option<string>, stamp: int, patched: bool)

  const UNRESOLVED := RefStatus("", "", "", None)

  predicate Cached(rs: RefStatus, q: Query) {
    rs.resolution == "Resolved" && rs.ref == q.ref && rs.commit != "" && rs.time.Some? &&
    q.check - rs.time.value < q.interval
  }

  function ResolveRef(rs: RefStatus, q: Query): (commit: Option<string>) {
    if Cached(rs, q) then Some(rs.commit) else q.answer
  }

  function Recorded(rs: RefStatus, q: Query): (rs': RefStatus) {
    match ResolveRef(rs, q)
    case None => rs.(resolution := "Error")
    case Some(commit) =>
      if rs.commit != commit then RefStatus("Resolved", q.ref, commit, Some(q.stamp))
      else rs.(resolution := "Resolved")
  }

  function RefStep(rs: RefStatus, q: Query): (rs': RefStatus) {
    if q.patched then Recorded(rs, q) else rs
  }

  /** The persisted status before reconcile `i` of a run. */
  function StatusAt(qs: seq<Query>, i: nat): (rs: RefStatus)
    requires i <= |qs|
  {
    if i == 0 then UNRESOLVED else RefStep(StatusAt(qs, i - 1), qs[i - 1])
  }

  /** Reconcile `j` asked the remote for this ref and was told this commit. */
  ghost predicate Answered(qs: seq<Query>, j: nat, ref: string, commit: string) {
    j < |qs| && !Cached(StatusAt(qs, j), qs[j]) && qs[j].ref == ref && qs[j].answer == Some(commit)
  }

  predicate SameTriple(a: RefStatus, b: RefStatus) {
    a.ref == b.ref && a.commit == b.commit && a.time == b.time
  }

  /** The reconcile whose answer the status before reconcile `i` records. */
  function StampedBy(qs: seq<Query>, i: nat): (j: nat)
    requires i <= |qs| && StatusAt(qs, i).time.Some?
    ensures j < i
  {
    if SameTriple(StatusAt(qs, i - 1), StatusAt(qs, i)) then StampedBy(qs, i - 1) else i - 1
  }

  /** The recorded triple is always one genuine answer with the stamp taken for it, kept since. */
  lemma {:induction false} TripleIsGenuine(qs: seq<Query>, i: nat)
    requires i <= |qs| && StatusAt(qs, i).time.Some?
    ensures var j := StampedBy(qs, i);
            && qs[j].stamp == StatusAt(qs, i).time.value
            && Answered(qs, j, StatusAt(qs, i).ref, StatusAt(qs, i).commit)
            && forall k :: j < k <= i ==> SameTriple(StatusAt(qs, k), StatusAt(qs, i))
  {
    if SameTriple(StatusAt(qs, i - 1), StatusAt(qs, i)) {
      TripleIsGenuine(qs, i - 1);
    }
  }

  predicate Resolves(qs: seq<Query>, i: nat) {
    i < |qs| && ResolveRef(StatusAt(qs, i), qs[i]).Some?
  }

  /** The commit reconcile `i` publishes, and the reconcile that obtained it. */
  function CommitOf(qs: seq<Query>, i: nat): (commit: string)
    requires Resolves(qs, i)
  {
    ResolveRef(StatusAt(qs, i), qs[i]).value
  }

  function Origin(qs: seq<Query>, i: nat): (j: nat)
    requires Resolves(qs, i)
    ensures j <= i
  {
    if Cached(StatusAt(qs, i), qs[i]) then StampedBy(qs, i) else i
  }

  /** Obtained in this very reconcile, or stamped less than one polling interval before. */
  predicate Recent(qs: seq<Query>, j: nat, i: nat)
    requires j <= i < |qs|
  {
    j == i || qs[i].check - qs[j].stamp < qs[i].interval
  }

  /** The cache is sound: every commit a reconcile publishes is the remote's answer for the effective
      ref, obtained in this very reconcile or stamped less than one polling interval before. */
  lemma CacheIsSound(qs: seq<Query>, i: nat)
    requires Resolves(qs, i)
    ensures Answered(qs, Origin(qs, i), qs[i].ref, CommitOf(qs, i)) && Recent(qs, Origin(qs, i), i)
    ensures Origin(qs, i) < i ==> CommitOf(qs, i) != ""
  {
    if Cached(StatusAt(qs, i), qs[i]) {
      TripleIsGenuine(qs, i);
    }
  }

  // ----- What is recorded, and when it is used -----

  /** A reconcile that resolves leaves its commit in the status; ref and stamp move with the commit, and stay
      when the commit is the one already there. */
  lemma SuccessIsRecorded(qs: seq<Query>, i: nat)
    requires Resolves(qs, i) && qs[i].patched
    ensures var before, after := StatusAt(qs, i), StatusAt(qs, i + 1);
            && after.resolution == "Resolved" && after.commit == CommitOf(qs, i)
            && (before.commit == CommitOf(qs, i) ==> SameTriple(before, after))
            && (before.commit != CommitOf(qs, i) ==> after.ref == qs[i].ref && after.time == Some(qs[i].stamp))
  {
  }

  ghost predicate NoPatch(qs: seq<Query>, j: nat, i: nat)
    requires i <= |qs|
  {
    forall k :: j <= k < i ==> !qs[k].patched
  }

  lemma {:induction false} UnpatchedStays(qs: seq<Query>, j: nat, i: nat)
    requires j <= i <= |qs| && NoPatch(qs, j, i)
    ensures StatusAt(qs, i) == StatusAt(qs, j)
  {
    if j < i {
      UnpatchedStays(qs, j, i - 1);
    }
  }

  /** A failed resolution shows: after one, and until a status is patched again, the resolution is Error, the
      rest of the record is as before, and every query goes to the remote. */
  lemma FailureDisablesCache(qs: seq<Query>, j: nat, i: nat)
    requires j < i < |qs| && qs[j].patched && !Resolves(qs, j) && NoPatch(qs, j + 1, i)
    ensures StatusAt(qs, i).resolution == "Error" && SameTriple(StatusAt(qs, j), StatusAt(qs, i))
    ensures ResolveRef(StatusAt(qs, i), qs[i]) == qs[i].answer
  {
    UnpatchedStays(qs, j + 1, i);
  }

  /** From `j + 1` to `i` nothing was patched but cache hits. */
  ghost predicate OnlyHits(qs: seq<Query>, j: nat, i: nat)
    requires i <= |qs|
  {
    forall k :: j < k < i && qs[k].patched ==> Cached(StatusAt(qs, k), qs[k])
  }

  lemma {:induction false} AnswerStays(qs: seq<Query>, j: nat, i: nat, commit: string)
    requires j < i <= |qs| && OnlyHits(qs, j, i)
    requires qs[j].patched && Answered(qs, j, qs[j].ref, commit) && commit != StatusAt(qs, j).commit
    ensures StatusAt(qs, i) == RefStatus("Resolved", qs[j].ref, commit, Some(qs[j].stamp))
  {
    if j + 1 < i {
      AnswerStays(qs, j, i - 1, commit);
    }
  }

  /** The cache is complete: a new commit answered for a ref is served to every later query for that ref
      within its polling interval, as long as only hits have been patched since. */
  lemma FreshAnswerIsServed(qs: seq<Query>, j: nat, i: nat, commit: string)
    requires j < i < |qs| && OnlyHits(qs, j, i) && commit != ""
    requires qs[j].patched && Answered(qs, j, qs[j].ref, commit) && commit != StatusAt(qs, j).commit
    requires qs[i].ref == qs[j].ref && qs[i].check - qs[j].stamp < qs[i].interval
    ensures Resolves(qs, i) && CommitOf(qs, i) == commit && Cached(StatusAt(qs, i), qs[i])
  {
    AnswerStays(qs, j, i, commit);
  }

  // ----- Which repository it came from -----

  /** The commit was recently answered by the repository the reconcile is configured with. */
  ghost predicate FromItsRepo(qs: seq<Query>, i: nat)
    requires Resolves(qs, i)
  {
    exists j: nat :: j <= i && Answered(qs, j, qs[i].ref, CommitOf(qs, i)) && Recent(qs, j, i) && qs[j].repo == qs[i].repo
  }

  /** It was, if the reconcile that obtained it was configured with the same repository. */
  lemma SoundForOneRepo(qs: seq<Query>, i: nat)
    requires Resolves(qs, i) && qs[Origin(qs, i)].repo == qs[i].repo
    ensures FromItsRepo(qs, i)
  {
    CacheIsSound(qs, i);
  }

  /** Before reconcile `i`, no two repositories gave the same commit for a ref. */
  ghost predicate DistinctAnswers(qs: seq<Query>, i: nat)
    requires i <= |qs|
  {
    forall j, k :: 0 <= j < i && 0 <= k < i && qs[j].ref == qs[k].ref && qs[j].answer.Some? && qs[j].answer == qs[k].answer
      ==> qs[j].repo == qs[k].repo
  }

  /** When repositories can be told apart by their answers that is exact, hit or miss, whichever
      repositories came before: the commit belongs to the repository if and only if the reconcile that
      obtained it was configured with it. */
  lemma RepoIff(qs: seq<Query>, i: nat)
    requires Resolves(qs, i) && DistinctAnswers(qs, i)
    ensures FromItsRepo(qs, i) <==> qs[Origin(qs, i)].repo == qs[i].repo
  {
    CacheIsSound(qs, i);
  }

  /** The configured repository has not given this commit for the ref before reconcile `i`. */
  ghost predicate NewToRepo(qs: seq<Query>, i: nat)
    requires Resolves(qs, i)
  {
    forall k :: 0 <= k < i && qs[k].repo == qs[i].repo && qs[k].ref == qs[i].ref ==> qs[k].answer != Some(CommitOf(qs, i))
  }

  /** For such a commit, in particular when the repository itself is new to the run, it is the
      repository's answer if and only if the reconcile missed the cache. */
  lemma NewRepoIff(qs: seq<Query>, i: nat)
    requires Resolves(qs, i) && NewToRepo(qs, i)
    ensures FromItsRepo(qs, i) <==> !Cached(StatusAt(qs, i), qs[i])
  {
    if !Cached(StatusAt(qs, i), qs[i]) {
      CacheIsSound(qs, i);
    }
  }

  lemma {:induction false} StatusOfPrefix(qs: seq<Query>, qs': seq<Query>, i: nat)
    requires i <= |qs| && i <= |qs'| && qs[..i] == qs'[..i]
    ensures StatusAt(qs, i) == StatusAt(qs', i)
  {
    if i > 0 {
      assert qs[i - 1] == qs[..i][i - 1] == qs'[i - 1];
      assert qs[..i - 1] == qs[..i][..i - 1] == qs'[..i - 1];
      StatusOfPrefix(qs, qs', i - 1);
    }
  }

  /** The cache key is the ref alone: wherever a run hits the cache, it still does, with the same commit,
      when that reconcile points to any other repository with any other answer; one that has not given
      that commit then gets it all the same. */
  lemma HitIgnoresRepo(qs: seq<Query>, i: nat, repo: string, answer: Option<string>)
    requires i < |qs| && Cached(StatusAt(qs, i), qs[i])
    ensures var qs' := qs[i := qs[i].(repo := repo, answer := answer)];
            && Resolves(qs', i) && CommitOf(qs', i) == CommitOf(qs, i)
            && (NewToRepo(qs', i) ==> !FromItsRepo(qs', i))
  {
    var qs' := qs[i := qs[i].(repo := repo, answer := answer)];
    StatusOfPrefix(qs, qs', i);
    if NewToRepo(qs', i) {
      NewRepoIff(qs', i);
    }
  }

  /** Such a run exists: within the polling interval a commit of the old repository is published for the
      new one. */
  lemma CacheIgnoresRepo(oldRepo: string, newRepo: string, a: string, b: string)
    requires oldRepo != newRepo && a != b && a != ""
    ensures exists qs: seq<Query> :: |qs| == 2 && qs[0].repo == oldRepo && qs[1].repo == newRepo && qs[1].answer == Some(b) &&
              Resolves(qs, 1) && CommitOf(qs, 1) == a && !FromItsRepo(qs, 1)
  {
    var qs := [Query(oldRepo, "main", 60, 0, Some(a), 1, true), Query(newRepo, "main", 60, 2, Some(b), 3, true)];
    assert StatusAt(qs, 0) == UNRESOLVED;
    assert StatusAt(qs, 1) == RefStatus("Resolved", "main", a, Some(1));
    assert Cached(StatusAt(qs, 1), qs[1]);
    NewRepoIff(qs, 1);
  }

  /** The repository need not be new: going back to one after a stay at another is enough. */
  lemma ReturningRepo(there: string, back: string, a: string, b: string) returns (qs: seq<Query>)
    requires there != back && a != b && a != "" && b != ""
    ensures |qs| == 3 && qs[0].repo == back && qs[1].repo == there && qs[2].repo == back
    ensures qs[0].answer == Some(b) && qs[1].answer == Some(a) && qs[2].answer == Some(b)
    ensures Resolves(qs, 2) && CommitOf(qs, 2) == a && !FromItsRepo(qs, 2)
  {
    qs := [Query(back, "main", 60, 0, Some(b), 1, true), Query(there, "main", 60, 100, Some(a), 101, true),
           Query(back, "main", 60, 102, Some(b), 103, true)];
    assert StatusAt(qs, 0) == UNRESOLVED;
    assert StatusAt(qs, 1) == RefStatus("Resolved", "main", b, Some(1));
    assert StatusAt(qs, 2) == RefStatus("Resolved", "main", a, Some(101));
    assert Cached(StatusAt(qs, 2), qs[2]);
    NewRepoIff(qs, 2);
  }

  // ----- Runs that grow -----

  ghost predicate Publishes(qs: seq<Query>, i: nat, what: (string, string)) {
    Resolves(qs, i) && what == (CommitOf(qs, i), qs[i].ref)
  }

  lemma StatusGrows(qs: seq<Query>, q: Query)
    ensures StatusAt(qs + [q], |qs|) == StatusAt(qs, |qs|)
    ensures StatusAt(qs + [q], |qs| + 1) == RefStep(StatusAt(qs, |qs|), q)
  {
    assert (qs + [q])[..|qs|] == qs[..|qs|];
    StatusOfPrefix(qs + [q], qs, |qs|);
  }

  lemma PublishesStill(qs: seq<Query>, q: Query, i: nat, what: (string, string))
    requires Publishes(qs, i, what)
    ensures Publishes(qs + [q], i, what)
  {
    assert (qs + [q])[..i] == qs[..i];
    StatusOfPrefix(qs + [q], qs, i);
  }
}
