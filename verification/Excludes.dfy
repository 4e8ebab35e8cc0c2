/**
 Exclude and protected patterns. Glob matching itself is a parameter: `glob(pattern, path)` stands
 for a match that neither fails to parse nor misses.
 */
module Excludes {

  type Glob = (string, string) -> bool

  const HARDCODED: seq<string> := ["**/.sync-staging/**"]
  const PROTECTED: seq<string> := ["**/.resources/**", "**/.resources"]

  // ----- Matching -----

  ghost predicate Matches(glob: Glob, patterns: seq<string>, path: string) {
    exists i :: 0 <= i < |patterns| && glob(patterns[i], path)
  }

  /** Neither staged nor cleaned: excluded or protected. */
  ghost predicate Skipped(glob: Glob, excludes: seq<string>, path: string) {
    Matches(glob, excludes, path) || Matches(glob, PROTECTED, path)
  }

  method ShouldExclude(glob: Glob, path: string, excludes: seq<string>) returns (hit: bool)
    ensures hit <==> Matches(glob, excludes, path)
  {
    for i := 0 to |excludes|
      invariant !Matches(glob, excludes[..i], path)
    {
      if glob(excludes[i], path) {
        return true;
      }
    }
    assert excludes[..|excludes|] == excludes;
    return false;
  }

  method IsProtected(glob: Glob, path: string) returns (hit: bool)
    ensures hit <==> Matches(glob, PROTECTED, path)
  {
    hit := ShouldExclude(glob, path, PROTECTED);
  }

  // ----- Merging -----

  predicate IsSpace(c: char) {
    var n := c as int;
    9 <= n <= 13 || n == 0x20 || n == 0x85 || n == 0xA0 || n == 0x1680 || 0x2000 <= n <= 0x200A ||
    n == 0x2028 || n == 0x2029 || n == 0x202F || n == 0x205F || n == 0x3000
  }

  function TrimSpace(s: string): (r: string)
    decreases |s|
  {
    if s != "" && IsSpace(s[0]) then TrimSpace(s[1..])
    else if s != "" && IsSpace(s[|s| - 1]) then TrimSpace(s[..|s| - 1])
    else s
  }

  /** The patterns in the order they are offered: the user's, trimmed and non-empty, then the fixed ones. */
  function Trimmed(user: seq<string>): (r: seq<string>) {
    if user == [] then []
    else
      var last := TrimSpace(user[|user| - 1]);
      Trimmed(user[..|user| - 1]) + if last == "" then [] else [last]
  }

  function Offered(user: seq<string>): (r: seq<string>) {
    Trimmed(user) + HARDCODED
  }

  /** Keeps the first occurrence of each element. */
  function Distinct(s: seq<string>): (r: seq<string>) {
    if s == [] then []
    else
      var init, last := s[..|s| - 1], s[|s| - 1];
      if last in init then Distinct(init) else Distinct(init) + [last]
  }

  ghost predicate NoDuplicates(s: seq<string>) {
    forall i, j :: 0 <= i < j < |s| ==> s[i] != s[j]
  }

  ghost predicate FirstAt(s: seq<string>, x: string, i: nat) {
    i < |s| && s[i] == x && x !in s[..i]
  }

  /** `Distinct` has the same elements, none twice, ordered by where they first occurred. */
  lemma {:induction false} DistinctMeaning(s: seq<string>)
    ensures forall x :: x in Distinct(s) <==> x in s
    ensures NoDuplicates(Distinct(s))
    ensures forall i, j, m, n :: 0 <= i < j < |Distinct(s)| && FirstAt(s, Distinct(s)[i], m) && FirstAt(s, Distinct(s)[j], n)
              ==> m < n
  {
    if s != [] {
      var init, last := s[..|s| - 1], s[|s| - 1];
      DistinctMeaning(init);
      assert s == init + [last];
      var d := Distinct(s);
      forall i, j, m, n | 0 <= i < j < |d| && FirstAt(s, d[i], m) && FirstAt(s, d[j], n)
        ensures m < n
      {
        assert d[i] in init;
        FirstInInit(s, d[i], m);
        if d[j] in init {
          FirstInInit(s, d[j], n);
        } else {
          assert forall k :: 0 <= k < |init| ==> s[k] == init[k] && init[k] in init;
        }
      }
    }
  }

  lemma FirstInInit(s: seq<string>, x: string, m: nat)
    requires s != [] && FirstAt(s, x, m) && x in s[..|s| - 1]
    ensures FirstAt(s[..|s| - 1], x, m)
  {
    var k :| 0 <= k < |s| - 1 && s[..|s| - 1][k] == x;
    assert s[k] == x;
    assert forall j :: 0 <= j < m ==> s[..m][j] == s[j] && s[..m][j] in s[..m];
    assert s[..|s| - 1][..m] == s[..m];
  }

  ghost predicate AllSpace(s: string) {
    forall i :: 0 <= i < |s| ==> IsSpace(s[i])
  }

  /** The white space of Unicode, listed. */
  lemma SpaceIs(c: char)
    ensures IsSpace(c) <==>
            c as int in {9, 10, 11, 12, 13, 32, 133, 160, 5760, 8192, 8193, 8194, 8195, 8196, 8197, 8198, 8199, 8200, 8201,
                         8202, 8232, 8233, 8239, 8287, 12288}
  {
  }

  /** Trimming takes white space off both ends, and all of it. */
  lemma {:induction false} TrimMeaning(s: string) returns (front: string, back: string)
    ensures s == front + TrimSpace(s) + back && AllSpace(front) && AllSpace(back)
    ensures var t := TrimSpace(s); t != "" ==> !IsSpace(t[0]) && !IsSpace(t[|t| - 1])
    decreases |s|
  {
    front, back := "", "";
    if s != "" && IsSpace(s[0]) {
      front, back := TrimMeaning(s[1..]);
      front := [s[0]] + front;
    } else if s != "" && IsSpace(s[|s| - 1]) {
      front, back := TrimMeaning(s[..|s| - 1]);
      back := back + [s[|s| - 1]];
    }
  }

  lemma TrimmedOne(x: string)
    ensures Trimmed([x]) == if TrimSpace(x) == "" then [] else [TrimSpace(x)]
  {
    assert [x][..0] == [];
  }

  /** Trimming works pattern by pattern and keeps the order. */
  lemma {:induction false} TrimmedConcat(a: seq<string>, b: seq<string>)
    ensures Trimmed(a + b) == Trimmed(a) + Trimmed(b)
  {
    if b == [] {
      assert a + b == a;
    } else {
      var n := |b| - 1;
      TrimmedConcat(a, b[..n]);
      assert (a + b)[..|a + b| - 1] == a + b[..n];
      assert (a + b)[|a + b| - 1] == b[n];
    }
  }

  lemma {:induction false} TrimmedElements(user: seq<string>, x: string)
    ensures x in Trimmed(user) <==> x != "" && exists i :: 0 <= i < |user| && TrimSpace(user[i]) == x
  {
    if user != [] {
      var init := user[..|user| - 1];
      TrimmedElements(init, x);
      assert forall i :: 0 <= i < |init| ==> init[i] == user[i];
    }
  }

  lemma DistinctSnoc(s: seq<string>, x: string)
    ensures Distinct(s + [x]) == if x in s then Distinct(s) else Distinct(s) + [x]
  {
    assert (s + [x])[..|s|] == s;
  }

  lemma TrimmedSnoc(user: seq<string>, i: nat)
    requires i < |user|
    ensures Trimmed(user[..i + 1]) ==
            if TrimSpace(user[i]) == "" then Trimmed(user[..i]) else Trimmed(user[..i]) + [TrimSpace(user[i])]
  {
    assert user[..i + 1][..i] == user[..i];
  }

  method MergeExcludes(user: seq<string>) returns (result: seq<string>)
    ensures result == Distinct(Offered(user))
  {
    var seen: set<string> := {};
    ghost var offered: seq<string> := [];
    result := [];
    for i := 0 to |user|
      invariant offered == Trimmed(user[..i]) && result == Distinct(offered)
      invariant forall x :: x in seen <==> x in offered
    {
      var p := TrimSpace(user[i]);
      TrimmedSnoc(user, i);
      DistinctSnoc(offered, p);
      if p == "" {
        continue;
      }
      offered := offered + [p];
      if p in seen {
        continue;
      }
      seen := seen + {p};
      result := result + [p];
    }
    assert user[..|user|] == user;
    for i := 0 to |HARDCODED|
      invariant offered == Trimmed(user) + HARDCODED[..i] && result == Distinct(offered)
      invariant forall x :: x in seen <==> x in offered
    {
      var p := HARDCODED[i];
      DistinctSnoc(offered, p);
      offered := offered + [p];
      if p !in seen {
        seen := seen + {p};
        result := result + [p];
      }
    }
  }

  /** Merging preserves meaning: a path matches the merged list exactly when it matches a trimmed,
      non-empty pattern of the user or a fixed one. */
  lemma MergePreservesMatching(glob: Glob, user: seq<string>, path: string)
    ensures Matches(glob, Distinct(Offered(user)), path) <==>
            (exists i :: 0 <= i < |user| && TrimSpace(user[i]) != "" && glob(TrimSpace(user[i]), path)) ||
            Matches(glob, HARDCODED, path)
  {
    var offered := Offered(user);
    var merged := Distinct(offered);
    DistinctMeaning(offered);
    if Matches(glob, merged, path) {
      var k :| 0 <= k < |merged| && glob(merged[k], path);
      assert merged[k] in offered;
      TrimmedElements(user, merged[k]);
      if merged[k] !in Trimmed(user) {
        assert merged[k] in HARDCODED;
      }
    }
    forall i | 0 <= i < |user| && TrimSpace(user[i]) != "" && glob(TrimSpace(user[i]), path)
      ensures Matches(glob, merged, path)
    {
      TrimmedElements(user, TrimSpace(user[i]));
      assert TrimSpace(user[i]) in merged;
    }
    forall i | 0 <= i < |HARDCODED| && glob(HARDCODED[i], path)
      ensures Matches(glob, merged, path)
    {
      assert HARDCODED[i] in offered;
      assert HARDCODED[i] in merged;
    }
  }
}
