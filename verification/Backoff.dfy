/**
 Exponential backoff. The controller doubles in a capped loop; the agent shifts a 64-bit nanosecond
 count. Durations are nanoseconds.
 */
module Backoff {

  const SECOND: int := 1_000_000_000
  const BASE: int := 30 * SECOND
  const CAP: int := 300 * SECOND

  function Pow2(k: nat): (r: nat)
    ensures r >= 1
  {
    if k == 0 then 1 else 2 * Pow2(k - 1)
  }

  function Min(a: int, b: int): int {
    if a < b then a else b
  }

  /** The intended delay after `n` consecutive failures. */
  function Ideal(n: nat): (d: int)
    requires n >= 1
  {
    Min(BASE * Pow2(n - 1), CAP)
  }

  lemma {:induction false} Pow2Grows(a: nat, b: nat)
    requires a <= b
    ensures Pow2(a) <= Pow2(b)
  {
    if a < b {
      Pow2Grows(a, b - 1);
    }
  }

  /** The intended delay never decreases and stays between 30 s and 5 min. */
  lemma IdealMonotone(m: nat, n: nat)
    requires 1 <= m <= n
    ensures BASE <= Ideal(m) <= Ideal(n) <= CAP
  {
    Pow2Grows(m - 1, n - 1);
  }

  /** The documented sequence: 30, 60, 120, 240 and from then on 300 seconds, in nanoseconds. */
  lemma DocumentedDelays(n: nat)
    requires n >= 1
    ensures Ideal(n) == match n
                        case 1 => 30_000_000_000
                        case 2 => 60_000_000_000
                        case 3 => 120_000_000_000
                        case 4 => 240_000_000_000
                        case _ => 300_000_000_000
  {
    assert Pow2(0) == 1 && Pow2(1) == 2 && Pow2(2) == 4 && Pow2(3) == 8 && Pow2(4) == 16;
    if n >= 5 {
      Pow2Grows(4, n - 1);
    }
  }

  // ----- The controller -----

  class FailureCounts {
    var counts: map<string, nat>

    constructor ()
      ensures counts == map[]
    {
      counts := map[];
    }

    ghost function Failures(key: string): (n: nat)
      reads this
    {
      if key in counts then counts[key] else 0
    }

    /** Compared with `before`, no other key's count has changed. */
    ghost predicate OthersKept(key: string, before: map<string, nat>)
      reads this
    {
      forall k :: k != key ==> (k in counts <==> k in before) && (k in counts ==> counts[k] == before[k])
    }

    method RecordFailure(key: string)
      modifies this
      ensures Failures(key) == old(Failures(key)) + 1
      ensures OthersKept(key, old(counts))
    {
      var n := if key in counts then counts[key] else 0;
      counts := counts[key := n + 1];
    }

    method ResetBackoff(key: string)
      modifies this
      ensures Failures(key) == 0
      ensures OthersKept(key, old(counts))
    {
      counts := counts - {key};
    }

    method BackoffDelay(key: string) returns (delay: int)
      ensures delay == if Failures(key) == 0 then BASE else Ideal(Failures(key))
    {
      if key !in counts || counts[key] == 0 {
        return BASE;
      }
      delay := BASE;
      var i := 0;
      while i < counts[key] - 1 && delay < CAP
        invariant 0 <= i <= counts[key] - 1
        invariant delay == BASE * Pow2(i)
      {
        delay := delay * 2;
        i := i + 1;
      }
      Pow2Grows(i, counts[key] - 1);
      if delay > CAP {
        delay := CAP;
      }
    }
  }

  // ----- The agent -----

  const TWO63: int := 0x8000_0000_0000_0000
  const TWO64: int := 0x1_0000_0000_0000_0000

  function Wrap64(x: int): (r: int)
    ensures -TWO63 <= r < TWO63
  {
    (x + TWO63) % TWO64 - TWO63
  }

  /** `x << k` on int64: the low 64 bits of the product; counts past 63 shift everything out. */
  function Shl64(x: int, k: nat): (r: int) {
    if k >= 64 then 0 else Wrap64(x * Pow2(k))
  }

  function AgentDelay(n: nat): (d: int)
    requires n >= 1
  {
    Min(Shl64(BASE, n - 1), CAP)
  }

  /** Failure counts at which the 64-bit shift happens to give the intended delay. */
  predicate Harmless(n: nat) {
    n <= 29 || n in {32, 39, 40, 41, 42, 44, 45, 46, 50, 52}
  }

  lemma {:induction false} Pow2Sum(a: nat, b: nat)
    ensures Pow2(a + b) == Pow2(a) * Pow2(b)
  {
    if b > 0 {
      Pow2Sum(a, b - 1);
      assert Pow2(a + b) == 2 * Pow2(a + (b - 1));
    }
  }

  lemma WrapMultiple(q: int)
    ensures Wrap64(q * TWO64) == 0
  {
    assert (q * TWO64 + TWO63) % TWO64 == TWO63;
  }

  lemma SmallPowers()
    ensures Pow2(28) == 0x1000_0000 && Pow2(29) == 0x2000_0000
    ensures Pow2(54) == 0x40_0000_0000_0000
  {
    assert Pow2(7) == 128;
    Pow2Sum(7, 7);
    Pow2Sum(14, 14);
    Pow2Sum(13, 14);
    assert Pow2(14) == 2 * Pow2(13);
    Pow2Sum(27, 27);
  }

  /** From the 55th failure on the shift leaves nothing and the agent does not back off at all. */
  lemma NoDelayFrom55(n: nat)
    requires n >= 55
    ensures AgentDelay(n) == 0
  {
    var k := n - 1;
    if k < 64 {
      SmallPowers();
      Pow2Sum(54, k - 54);
      Factor(Pow2(k - 54));
      WrapMultiple(29296875 * Pow2(k - 54));
    }
  }

  lemma Factor(m: nat)
    ensures BASE * (0x40_0000_0000_0000 * m) == (29296875 * m) * TWO64
  {
  }

  /** No wrap before the 30th failure: the shift is exact and the two formulas agree. */
  lemma ExactUpTo29(n: nat)
    requires 1 <= n <= 29
    ensures AgentDelay(n) == Ideal(n)
  {
    SmallPowers();
    Pow2Grows(n - 1, 28);
    WrapSmall(BASE * Pow2(n - 1));
  }

  lemma WrapSmall(x: int)
    requires 0 <= x < TWO63
    ensures Wrap64(x) == x
  {
  }

  /** The shifted value, wrapped, at failure counts 30 to 54. */
  const WRAPPED: seq<int> := [
    -2340616713709551616, -4681233427419103232, 9084277218871345152, -278189635966861312, -556379271933722624,
    -1112758543867445248, -2225517087734890496, -4451034175469780992, -8902068350939561984, 642607371830427648,
    1285214743660855296, 2570429487321710592, 5140858974643421184, -8165026124422709248, 2116691824864133120,
    4233383649728266240, 8466767299456532480, -1513209474796486656, -3026418949592973312, -6052837899185946624,
    6341068275337658368, -5764607523034234880, 6917529027641081856, -4611686018427387904, -9223372036854775808
  ]

  lemma DoubleWrap(x: int)
    ensures Wrap64(2 * x) == Wrap64(2 * Wrap64(x))
  {
    var q := (x + TWO63) / TWO64;
    assert x == q * TWO64 + Wrap64(x);
    SameWrap(2 * Wrap64(x), 2 * q);
  }

  lemma SameWrap(x: int, q: int)
    ensures Wrap64(x + q * TWO64) == Wrap64(x)
  {
    var y := x + TWO63;
    assert (y + q * TWO64) % TWO64 == y % TWO64;
  }

  lemma TableStep(i: nat)
    requires i < 24
    ensures WRAPPED[i + 1] == Wrap64(2 * WRAPPED[i])
  {
  }

  lemma {:induction false} TableEntry(n: nat)
    requires 30 <= n <= 54
    ensures Wrap64(BASE * Pow2(n - 1)) == WRAPPED[n - 30]
  {
    if n == 30 {
      SmallPowers();
    } else {
      TableEntry(n - 1);
      TableStep(n - 31);
      DoubleWrap(BASE * Pow2(n - 2));
      assert BASE * Pow2(n - 1) == 2 * (BASE * Pow2(n - 2));
    }
  }

  lemma Table(n: nat)
    requires 30 <= n <= 54
    ensures AgentDelay(n) == Ideal(n) <==> Harmless(n)
  {
    TableEntry(n);
    TableMeaning(n);
    LateIdeal(n);
  }

  lemma TableMeaning(n: nat)
    requires 30 <= n <= 54
    ensures WRAPPED[n - 30] >= CAP <==> Harmless(n)
    ensures WRAPPED[n - 30] != CAP
  {
  }

  lemma LateIdeal(n: nat)
    requires n >= 5
    ensures Ideal(n) == CAP
  {
    Pow2Grows(4, n - 1);
  }

  /** The agent backs off as intended exactly at the harmless counts. */
  lemma AgentMatchesIdealIff(n: nat)
    requires n >= 1
    ensures AgentDelay(n) == Ideal(n) <==> Harmless(n)
  {
    if n <= 29 {
      ExactUpTo29(n);
    } else if n <= 54 {
      Table(n);
    } else {
      NoDelayFrom55(n);
      IdealMonotone(1, n);
    }
  }

  /** At the 30th consecutive failure the delay is negative. */
  lemma NegativeAt30()
    ensures AgentDelay(30) < 0
  {
    SmallPowers();
  }
}
