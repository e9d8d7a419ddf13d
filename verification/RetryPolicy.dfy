// job/retry_policy.go: the default policy's doubling delay, computed in 64-bit
// nanoseconds with the wrap-around the Go expression has.
module RetryPolicies {
  import opened Seqs

  const TWO_63 := 0x8000_0000_0000_0000
  const TWO_64 := 0x1_0000_0000_0000_0000
  const SECOND := 1_000_000_000

  // The greatest cap for which no wrapped delay slips under the guard: 5 * 2^59,
  // the wrapped delay of attempt 50.
  const MAX_SAFE_CAP := 0x2800_0000_0000_0000

  function Wrap64(x: int): int {
    var m := x % TWO_64;
    if m >= TWO_63 then m - TWO_64 else m
  }

  function Pow2(n: nat): nat {
    if n == 0 then 1 else 2 * Pow2(n - 1)
  }

  // time.Duration(1<<uint(attempt)): shifts of 64 or more, which negative
  // attempts become, leave nothing.
  function ShiftedOne(attempt: int): int {
    if 0 <= attempt < 64 then Wrap64(Pow2(attempt)) else 0
  }

  function Backoff(cap: int, attempt: int): int {
    var duration := Wrap64(ShiftedOne(attempt) * SECOND);
    if duration > cap || duration <= 0 then cap else duration
  }

  function Min(a: int, b: int): int { if a < b then a else b }

  // What the delay is meant to be, in unbounded arithmetic.
  function IdealBackoff(cap: int, attempt: nat): int {
    Min(cap, Pow2(attempt) * SECOND)
  }

  lemma {:induction false} Pow2Adds(a: nat, b: nat)
    ensures Pow2(a + b) == Pow2(a) * Pow2(b)
  {
    if a > 0 {
      Pow2Adds(a - 1, b);
    }
  }

  lemma {:induction false} Pow2Increases(a: nat, b: nat)
    requires a <= b
    ensures Pow2(a) <= Pow2(b)
  {
    if a < b { Pow2Increases(a, b - 1); }
  }

  lemma Pow2Sum(a: nat, b: nat, x: nat, y: nat)
    requires Pow2(a) == x && Pow2(b) == y
    ensures Pow2(a + b) == x * y
  {
    Pow2Adds(a, b);
  }

  lemma Pow2Small()
    ensures Pow2(1) == 2 && Pow2(2) == 4 && Pow2(6) == 64 && Pow2(8) == 0x100
  {
  }

  lemma Pow2Landmarks()
    ensures Pow2(9) == 512 && Pow2(33) == 0x2_0000_0000 && Pow2(34) == 0x4_0000_0000
    ensures Pow2(62) == 0x4000_0000_0000_0000 && Pow2(63) == TWO_63
  {
    hide Pow2;
    Pow2Small();
    Pow2Sum(8, 1, 0x100, 2);
    Pow2Sum(8, 8, 0x100, 0x100);
    Pow2Sum(16, 16, 0x1_0000, 0x1_0000);
    Pow2Sum(32, 1, 0x1_0000_0000, 2);
    Pow2Sum(32, 2, 0x1_0000_0000, 4);
    Pow2Sum(32, 16, 0x1_0000_0000, 0x1_0000);
    Pow2Sum(48, 8, 0x1_0000_0000_0000, 0x100);
    Pow2Sum(56, 6, 0x100_0000_0000_0000, 64);
    Pow2Sum(62, 1, 0x4000_0000_0000_0000, 2);
  }

  // Before attempt 34 the product fits in 64 bits; from 34 on it does not.
  lemma {:induction false} FitsExactlyBefore34(attempt: nat)
    ensures Pow2(attempt) * SECOND < TWO_63 <==> attempt < 34
    ensures attempt < 34 ==> Wrap64(ShiftedOne(attempt) * SECOND) == Pow2(attempt) * SECOND
  {
    Pow2Landmarks();
    if attempt < 34 { Pow2Increases(attempt, 33); } else { Pow2Increases(34, attempt); }
  }

  // 2^(34 + j) * 10^9 modulo 2^64, in units of 2^43.
  const UNIT := 0x800_0000_0000
  const UNITS := 0x20_0000

  const RESIDUES: seq<nat> := [
    1953125, 1809098, 1521044, 944936, 1889872, 1682592, 1268032, 438912,
    877824, 1755648, 1414144, 731136, 1462272, 827392, 1654784, 1212416,
    327680, 655360, 1310720, 524288, 1048576, 0]

  function Residue(j: nat): nat {
    if j <= 21 then RESIDUES[j] else 0
  }

  lemma ResidueDoubles(j: nat)
    ensures Residue(j + 1) == 2 * Residue(j) % UNITS
    ensures Residue(j) < UNITS
    ensures Residue(j) == 0 || Residue(j) >= 327680
  {
  }

  lemma {:induction false} ProductResidue(j: nat)
    ensures Pow2(34 + j) * SECOND % TWO_64 == Residue(j) * UNIT
  {
    if j == 0 {
      Pow2Landmarks();
    } else {
      ProductResidue(j - 1);
      ResidueDoubles(j - 1);
      var x, r := Pow2(34 + j - 1) * SECOND, Residue(j - 1);
      DoublingModulo(x, x / TWO_64, r, 2 * r / UNITS);
    }
  }

  lemma DoublingModulo(x: nat, q: nat, r: nat, t: nat)
    requires x == q * TWO_64 + r * UNIT && t == 2 * r / UNITS
    ensures 2 * x % TWO_64 == (2 * r % UNITS) * UNIT
  {
    var r' := 2 * r % UNITS;
    assert 2 * x == (2 * q + t) * TWO_64 + r' * UNIT;
    RemainderIs(2 * x, 2 * q + t, r' * UNIT);
  }

  lemma RemainderIs(x: int, q: int, r: int)
    requires x == q * TWO_64 + r && 0 <= r < TWO_64
    ensures x % TWO_64 == r
  {
  }

  // A wrapped product is zero, negative, or at least MAX_SAFE_CAP.
  lemma WrappedFrom34(attempt: nat)
    requires 34 <= attempt
    ensures var d := Wrap64(ShiftedOne(attempt) * SECOND); d <= 0 || d >= MAX_SAFE_CAP
    ensures attempt == 50 ==> Wrap64(ShiftedOne(attempt) * SECOND) == MAX_SAFE_CAP
  {
    hide Pow2;
    if attempt < 63 {
      Pow2Increases(attempt, 62);
      Pow2Landmarks();
      WrappedResidue(attempt - 34);
    } else if attempt == 63 {
      Pow2Landmarks();
      RemainderIs(-TWO_63 * SECOND, -500_000_000, 0);
    }
  }

  lemma WrappedResidue(j: nat)
    ensures var d := Wrap64(Pow2(34 + j) * SECOND); d <= 0 || d >= MAX_SAFE_CAP
    ensures j == 16 ==> Wrap64(Pow2(34 + j) * SECOND) == MAX_SAFE_CAP
  {
    ProductResidue(j);
    hide Pow2;
    ResidueDoubles(j);
  }

  lemma BackoffIsIdeal(cap: int, attempt: nat)
    requires cap <= MAX_SAFE_CAP
    ensures Backoff(cap, attempt) == IdealBackoff(cap, attempt)
  {
    FitsExactlyBefore34(attempt);
    if attempt < 34 {
      Pow2Increases(0, attempt);
    } else {
      WrappedFrom34(attempt);
    }
  }

  // The guard makes the wrapped computation exact for every attempt precisely
  // when the cap does not exceed 5 * 2^59 ns.
  lemma BackoffExactness(cap: int)
    requires -TWO_63 <= cap < TWO_63
    ensures (forall attempt: nat :: Backoff(cap, attempt) == IdealBackoff(cap, attempt)) <==> cap <= MAX_SAFE_CAP
  {
    if cap <= MAX_SAFE_CAP {
      forall attempt: nat
        ensures Backoff(cap, attempt) == IdealBackoff(cap, attempt)
      {
        BackoffIsIdeal(cap, attempt);
      }
    } else {
      WrappedFrom34(50);
      FitsExactlyBefore34(50);
      assert Backoff(cap, 50) != IdealBackoff(cap, 50);
    }
  }

  // Shifting by a negative attempt leaves nothing, so the cap applies.
  lemma NegativeAttempt(cap: int, attempt: int)
    requires attempt < 0
    ensures Backoff(cap, attempt) == cap
  {
  }

  // A later attempt never waits less.
  lemma BackoffNeverShrinks(cap: int, earlier: nat, later: nat)
    requires cap <= MAX_SAFE_CAP && earlier <= later
    ensures Backoff(cap, earlier) <= Backoff(cap, later) <= cap
  {
    BackoffIsIdeal(cap, earlier);
    BackoffIsIdeal(cap, later);
    Pow2Increases(earlier, later);
  }

  // A job either brings its own policy or gets the default one.
  datatype RetryPolicy =
    | Default(cap: int, maxAttempts: int)
    | Custom(maxAttempts: int, delays: int -> int)

  function DelayFor(policy: RetryPolicy, attempt: int): int {
    match policy
    case Default(cap, _) => Backoff(cap, attempt)
    case Custom(_, delays) => delays(attempt)
  }

  const DEFAULT_POLICY := Default(5 * 60 * SECOND, 5)

  function RetryPolicyFor(own: Option<RetryPolicy>): RetryPolicy {
    if own.Some? then own.value else DEFAULT_POLICY
  }

  // The default policy's delay as a function: 2^attempt seconds, five minutes
  // from attempt 9 on. Which attempts occur is for the worker to decide.
  lemma DefaultPolicyDelays(attempt: nat)
    ensures var d := DelayFor(RetryPolicyFor(None), attempt);
            if attempt <= 8 then d == Pow2(attempt) * SECOND else d == 300 * SECOND
  {
    BackoffIsIdeal(5 * 60 * SECOND, attempt);
    Pow2Landmarks();
    if attempt <= 8 { Pow2Increases(attempt, 8); } else { Pow2Increases(9, attempt); }
  }
}
