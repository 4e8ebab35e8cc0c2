/** The agent RoleBinding: desired subjects from the pods, and convergence of repeated reconciles. */
module RoleBinding {
  import opened Options

  datatype Subject = Subject(kind: string, name: string, namespace: string)

  datatype Binding = Binding(role: string, subjects: seq<Subject>)

  /** A pod: the CR its annotation names, if any, and its service account. */
  datatype Pod = Pod(cr: Option<string>, serviceAccount: string)

  const AGENT_ROLE := "stoker-agent"

  // ----- sort.Strings -----

  predicate Le(a: string, b: string) {
    a == "" || (b != "" && (a[0] < b[0] || (a[0] == b[0] && Le(a[1..], b[1..]))))
  }

  lemma SameHead(a: string, b: string, k: nat)
    ensures k <= |a| && k <= |b| && a[..k] == b[..k] && k > 0 ==> a[0] == b[0]
  {
    if k <= |a| && k <= |b| && k > 0 {
      assert a[..k][0] == a[0] && b[..k][0] == b[0];
    }
  }

  /** The order is lexicographic: a prefix comes first, otherwise the first difference decides. */
  lemma {:induction false} LeIff(a: string, b: string)
    ensures Le(a, b) <==> a <= b || exists k :: 0 <= k < |a| && k < |b| && a[..k] == b[..k] && a[k] < b[k]
  {
    if a != "" && b != "" {
      if a[0] == b[0] {
        var a', b' := a[1..], b[1..];
        LeIff(a', b');
        if k :| 0 <= k < |a'| && k < |b'| && a'[..k] == b'[..k] && a'[k] < b'[k] {
          assert a[..k + 1] == [a[0]] + a'[..k] && b[..k + 1] == [b[0]] + b'[..k];
          assert a[k + 1] < b[k + 1];
        }
        forall k | 0 <= k < |a| && k < |b| && a[..k] == b[..k] && a[k] < b[k]
          ensures Le(a, b)
        {
          assert k > 0 && a'[..k - 1] == a[..k][1..] && b'[..k - 1] == b[..k][1..];
          assert a'[k - 1] < b'[k - 1];
        }
        assert a == [a[0]] + a' && b == [b[0]] + b';
      } else {
        assert a[..0] == b[..0];
        forall k | 0 <= k < |a| && k < |b| && a[..k] == b[..k] && a[k] < b[k]
          ensures k == 0
        {
          SameHead(a, b, k);
        }
      }
    }
  }

  lemma {:induction false} LeTotal(a: string, b: string)
    ensures Le(a, b) || Le(b, a)
    ensures Le(a, b) && Le(b, a) ==> a == b
  {
    if a != "" && b != "" && a[0] == b[0] {
      LeTotal(a[1..], b[1..]);
      assert a == [a[0]] + a[1..] && b == [b[0]] + b[1..];
    }
  }

  lemma {:induction false} LeTransitive(a: string, b: string, c: string)
    requires Le(a, b) && Le(b, c)
    ensures Le(a, c)
  {
    if a != "" && a[0] == b[0] && b[0] == c[0] {
      LeTransitive(a[1..], b[1..], c[1..]);
    }
  }

  ghost predicate Sorted(s: seq<string>) {
    forall i, j :: 0 <= i < j < |s| ==> Le(s[i], s[j])
  }

  function Insert(x: string, s: seq<string>): (r: seq<string>)
    ensures multiset(r) == multiset{x} + multiset(s)
  {
    if s == [] then [x]
    else
      assert s == [s[0]] + s[1..];
      if Le(x, s[0]) then [x] + s else [s[0]] + Insert(x, s[1..])
  }

  function Sort(s: seq<string>): (r: seq<string>)
    ensures multiset(r) == multiset(s)
  {
    if s == [] then []
    else
      assert s == [s[0]] + s[1..];
      Insert(s[0], Sort(s[1..]))
  }

  lemma {:induction false} InsertSorted(x: string, s: seq<string>)
    requires Sorted(s)
    ensures Sorted(Insert(x, s))
  {
    if s != [] {
      LeTotal(x, s[0]);
      if Le(x, s[0]) {
        forall j | 0 <= j < |s| ensures Le(x, s[j]) {
          if j > 0 { LeTransitive(x, s[0], s[j]); }
        }
      } else {
        var rest := Insert(x, s[1..]);
        InsertSorted(x, s[1..]);
        forall j | 0 <= j < |rest| ensures Le(s[0], rest[j]) {
          assert rest[j] in multiset(rest);
          if rest[j] != x {
            assert rest[j] in s[1..];
          }
        }
      }
    }
  }

  lemma {:induction false} SortSorted(s: seq<string>)
    ensures Sorted(Sort(s))
  {
    if s != [] {
      SortSorted(s[1..]);
      InsertSorted(s[0], Sort(s[1..]));
    }
  }

  lemma HeadIsLeast(a: seq<string>, x: string)
    requires Sorted(a) && x in a
    ensures Le(a[0], x)
  {
    LeTotal(x, x);
  }

  lemma TailMultiset(a: seq<string>)
    requires a != []
    ensures multiset(a[1..]) == multiset(a) - multiset{a[0]}
  {
    assert a == [a[0]] + a[1..];
  }

  lemma {:induction false} SortedUnique(a: seq<string>, b: seq<string>)
    requires Sorted(a) && Sorted(b) && multiset(a) == multiset(b)
    ensures a == b
  {
    assert |multiset(a)| == |a| && |multiset(b)| == |b|;
    if a != [] {
      assert a[0] in multiset(b) && b[0] in multiset(a);
      HeadIsLeast(a, b[0]);
      HeadIsLeast(b, a[0]);
      LeTotal(a[0], b[0]);
      TailMultiset(a);
      TailMultiset(b);
      SortedUnique(a[1..], b[1..]);
    }
  }

  // ----- Desired subjects -----

  function AccountOf(pod: Pod): (sa: string) {
    if pod.serviceAccount == "" then "default" else pod.serviceAccount
  }

  /** The pod references the CR and runs under this account; without one of its own that is `default`. */
  predicate Uses(pod: Pod, cr: string, name: string) {
    pod.cr == Some(cr) && (pod.serviceAccount == name != "" || (pod.serviceAccount == "" && name == "default"))
  }

  ghost predicate UsedBy(pods: seq<Pod>, cr: string, name: string) {
    exists i :: 0 <= i < |pods| && Uses(pods[i], cr, name)
  }

  /** The service accounts of all pods that reference the CR, whatever their phase. */
  ghost function Accounts(pods: seq<Pod>, cr: string): (s: set<string>) {
    set i | 0 <= i < |pods| && pods[i].cr == Some(cr) :: AccountOf(pods[i])
  }

  lemma AccountsAreUsed(pods: seq<Pod>, cr: string)
    ensures forall name :: name in Accounts(pods, cr) <==> UsedBy(pods, cr, name)
  {
    forall name
      ensures name in Accounts(pods, cr) <==> UsedBy(pods, cr, name)
    {
      if UsedBy(pods, cr, name) {
        var i :| 0 <= i < |pods| && Uses(pods[i], cr, name);
        assert AccountOf(pods[i]) == name;
      }
    }
  }

  ghost predicate Enumerates(names: seq<string>, xs: set<string>) {
    multiset(names) == multiset(xs)
  }

  method CollectServiceAccounts(pods: seq<Pod>, cr: string) returns (names: seq<string>)
    ensures Enumerates(names, Accounts(pods, cr)) && Sorted(names)
    ensures forall name :: name in names <==> UsedBy(pods, cr, name)
  {
    var seen: set<string> := {};
    for i := 0 to |pods|
      invariant seen == set k | 0 <= k < i && pods[k].cr == Some(cr) :: AccountOf(pods[k])
    {
      if pods[i].cr != Some(cr) {
        continue;
      }
      seen := seen + {AccountOf(pods[i])};
    }
    names := [];
    var rest := seen;
    while rest != {}
      invariant rest <= seen && multiset(names) == multiset(seen - rest)
    {
      var name :| name in rest;
      assert seen - (rest - {name}) == (seen - rest) + {name};
      names := names + [name];
      rest := rest - {name};
    }
    assert seen - {} == seen;
    SortSorted(names);
    names := Sort(names);
    AccountsAreUsed(pods, cr);
    assert forall name :: name in names <==> name in multiset(names);
  }

  function Names(subjects: seq<Subject>): (names: seq<string>)
    ensures |names| == |subjects| && forall i :: 0 <= i < |names| ==> names[i] == subjects[i].name
  {
    seq(|subjects|, i requires 0 <= i < |subjects| => subjects[i].name)
  }

  function BuildSubjects(names: seq<string>, namespace: string): (subjects: seq<Subject>)
    ensures Names(subjects) == names
    ensures forall i :: 0 <= i < |subjects| ==> subjects[i].kind == "ServiceAccount" && subjects[i].namespace == namespace
  {
    seq(|names|, i requires 0 <= i < |names| => Subject("ServiceAccount", names[i], namespace))
  }

  /** Comparing the sorted name lists decides equality of the names as a multiset; kind and namespace
      are not compared. */
  method SubjectsEqual(a: seq<Subject>, b: seq<Subject>) returns (equal: bool)
    ensures equal <==> multiset(Names(a)) == multiset(Names(b))
  {
    SortSorted(Names(a));
    SortSorted(Names(b));
    if multiset(Names(a)) == multiset(Names(b)) {
      SortedUnique(Sort(Names(a)), Sort(Names(b)));
    }
    assert |multiset(Names(a))| == |a| && |multiset(Names(b))| == |b|;
    if |a| != |b| {
      return false;
    }
    return Sort(Names(a)) == Sort(Names(b));
  }

  // ----- One reconcile -----

  ghost function Ensure(stored: Option<Binding>, desired: seq<Subject>): (r: Option<Binding>) {
    if stored.None? then Some(Binding(AGENT_ROLE, desired))
    else if stored.value.role != AGENT_ROLE then None
    else if multiset(Names(stored.value.subjects)) != multiset(Names(desired)) then Some(Binding(AGENT_ROLE, desired))
    else stored
  }

  ghost function Wanted(pods: seq<Pod>, cr: string): (s: set<string>) {
    if Accounts(pods, cr) == {} then {"default"} else Accounts(pods, cr)
  }

  /** The name is wanted: some pod uses it, or no pod references the CR and it is `default`. */
  ghost predicate IsWanted(pods: seq<Pod>, cr: string, name: string) {
    UsedBy(pods, cr, name) || (name == "default" && forall i :: 0 <= i < |pods| ==> pods[i].cr != Some(cr))
  }

  method WantedAccounts(pods: seq<Pod>, cr: string) returns (names: seq<string>)
    ensures Enumerates(names, Wanted(pods, cr)) && Sorted(names)
    ensures forall name :: name in names <==> IsWanted(pods, cr, name)
  {
    names := CollectServiceAccounts(pods, cr);
    assert names == [] <==> Accounts(pods, cr) == {} by {
      assert |multiset(names)| == |names|;
      assert |multiset(Accounts(pods, cr))| == |Accounts(pods, cr)|;
    }
    forall i | 0 <= i < |pods| && pods[i].cr == Some(cr)
      ensures names != []
    {
      assert Uses(pods[i], cr, AccountOf(pods[i]));
      assert AccountOf(pods[i]) in names;
    }
    if names == [] {
      names := ["default"];
      assert multiset(names) == multiset({"default"});
    }
  }

  class BindingStore {
    var binding: Option<Binding>

    /** With no API error, one call makes one `Ensure` step towards the wanted accounts. */
    method EnsureAgentRoleBinding(pods: seq<Pod>, cr: string, namespace: string) returns (ghost desired: seq<Subject>)
      modifies this
      ensures Enumerates(Names(desired), Wanted(pods, cr)) && Sorted(Names(desired))
      ensures desired == BuildSubjects(Names(desired), namespace)
      ensures binding == Ensure(old(binding), desired)
      ensures forall i :: 0 <= i < |desired| ==> desired[i].kind == "ServiceAccount" && desired[i].namespace == namespace
      ensures forall name :: name in Names(desired) <==> IsWanted(pods, cr, name)
      // A wrong role is removed, to be created anew by the next reconcile; otherwise the role is right.
      ensures old(binding).Some? && old(binding).value.role != "stoker-agent" <==> binding.None?
      ensures binding.Some? ==> binding.value.role == "stoker-agent"
    {
      var names := WantedAccounts(pods, cr);
      var subjects := BuildSubjects(names, namespace);
      desired := subjects;
      if binding.None? {
        binding := Some(Binding(AGENT_ROLE, subjects));
        return;
      }
      if binding.value.role != AGENT_ROLE {
        binding := None;
        return;
      }
      var equal := SubjectsEqual(binding.value.subjects, subjects);
      if !equal {
        binding := Some(binding.value.(subjects := subjects));
      }
    }
  }

  // ----- Convergence -----

  ghost predicate Right(b: Option<Binding>, wanted: set<string>) {
    b.Some? && b.value.role == AGENT_ROLE && Enumerates(Names(b.value.subjects), wanted)
  }

  /** The desired subjects do not depend on which enumeration a reconcile happened to produce. */
  lemma DesiredIsUnique(a: seq<Subject>, b: seq<Subject>, wanted: set<string>, namespace: string)
    requires Enumerates(Names(a), wanted) && Sorted(Names(a)) && a == BuildSubjects(Names(a), namespace)
    requires Enumerates(Names(b), wanted) && Sorted(Names(b)) && b == BuildSubjects(Names(b), namespace)
    ensures a == b
  {
    SortedUnique(Names(a), Names(b));
  }

  /** The binding after `n` reconciles with an unchanging pod set. */
  ghost function After(stored: Option<Binding>, desired: seq<Subject>, n: nat): (r: Option<Binding>) {
    if n == 0 then stored else Ensure(After(stored, desired, n - 1), desired)
  }

  /** From any starting point the binding is right after at most two reconciles and never changes again:
      it is the desired one, unless the starting binding already had the right role and names. In that
      case it stays as it was, so a wrong kind or namespace, which is not compared, is never repaired. */
  lemma {:induction false} Converges(stored: Option<Binding>, desired: seq<Subject>, wanted: set<string>, n: nat)
    requires Enumerates(Names(desired), wanted) && n >= 1
    requires n == 1 ==> stored.None? || stored.value.role == AGENT_ROLE
    ensures Right(After(stored, desired, n), wanted)
    ensures After(stored, desired, n) == if Right(stored, wanted) then stored else Some(Binding(AGENT_ROLE, desired))
  {
    assert After(stored, desired, 0) == stored;
    if n == 2 {
      assert After(stored, desired, 1) == Ensure(stored, desired);
    } else if n > 2 {
      Converges(stored, desired, wanted, n - 1);
    }
  }
}
