/** The emission schedule: what compute_reward adds up to when it is paid block after block. */
module Emission {
  import opened Params
  import opened Ledgers

  const NUM: int := EMISSION_DECAY_NUMERATOR
  const DEN: int := EMISSION_DECAY_DENOMINATOR

  /** The least pool that still pays a tick: the least c with c * NUM >= DEN. */
  const LEAST_PAYING_POOL: int := (DEN + NUM - 1) / NUM

  /** total_minted after n rewards, each computed by compute_reward. */
  function MintedAfter(n: nat): int {
    if n == 0 then 0 else MintedAfter(n - 1) + Reward(MintedAfter(n - 1))
  }

  /** The mintable pool after n rewards. */
  function PoolAfter(n: nat): int {
    CanMint(MintedAfter(n))
  }

  lemma LeastPayingPool()
    ensures LEAST_PAYING_POOL * NUM >= DEN
    ensures forall c: int :: c * NUM >= DEN ==> c >= LEAST_PAYING_POOL
    ensures 1 < LEAST_PAYING_POOL < SUPPLY_CAP
  {
  }

  /** One reward: it never exceeds the pool, is positive exactly while the pool is large enough, and
      never pays the pool below one tick short of that size. */
  lemma RewardBounds(minted: int)
    requires 0 <= minted <= SUPPLY_CAP
    ensures 0 <= Reward(minted) <= CanMint(minted)
    ensures Reward(minted) > 0 <==> CanMint(minted) >= LEAST_PAYING_POOL
    ensures CanMint(minted) >= LEAST_PAYING_POOL - 1 ==> CanMint(minted) - Reward(minted) >= LEAST_PAYING_POOL - 1
    ensures CanMint(minted + Reward(minted)) == CanMint(minted) - Reward(minted)
  {
  }

  /** The supply never exceeds the cap, and the pool never falls below its floor. */
  lemma {:induction false} PoolFloor(n: nat)
    ensures 0 <= MintedAfter(n) <= SUPPLY_CAP
    ensures PoolAfter(n) == SUPPLY_CAP - MintedAfter(n)
    ensures PoolAfter(n) >= LEAST_PAYING_POOL - 1
  {
    LeastPayingPool();
    if n > 0 {
      PoolFloor(n - 1);
      RewardBounds(MintedAfter(n - 1));
    }
  }

  /** The pool strictly decreases until it reaches the floor and then stays there, unpaid. */
  lemma PoolStep(n: nat)
    ensures PoolAfter(n) > LEAST_PAYING_POOL - 1 ==> PoolAfter(n + 1) < PoolAfter(n)
    ensures PoolAfter(n) == LEAST_PAYING_POOL - 1 ==> Reward(MintedAfter(n)) == 0 && PoolAfter(n + 1) == PoolAfter(n)
  {
    PoolFloor(n);
    RewardBounds(MintedAfter(n));
  }

  lemma {:induction false} PoolCeiling(n: nat)
    ensures PoolAfter(n) <= SUPPLY_CAP - n || PoolAfter(n) == LEAST_PAYING_POOL - 1
  {
    if n > 0 {
      PoolCeiling(n - 1);
      PoolFloor(n - 1);
      PoolStep(n - 1);
    }
  }

  /** The exact limit of the supply, reached after finitely many blocks and never left. */
  lemma {:induction false} SupplyLimit(n: nat)
    requires n >= SUPPLY_CAP
    ensures MintedAfter(n) == SUPPLY_CAP - (LEAST_PAYING_POOL - 1)
    ensures Reward(MintedAfter(n)) == 0
  {
    PoolCeiling(n);
    PoolFloor(n);
    LeastPayingPool();
    PoolStep(n);
  }

  function Pow(b: int, n: nat): int {
    if n == 0 then 1 else b * Pow(b, n - 1)
  }

  lemma {:induction false} PowPositive(b: int, n: nat)
    requires b > 0
    ensures Pow(b, n) > 0
  {
    if n > 0 {
      PowPositive(b, n - 1);
    }
  }

  lemma ScaledStep(pool: int, next: int, scale: int, bound: int, d: int, r: int)
    requires next * d >= pool * r && pool * scale >= bound && scale > 0 && r >= 0
    ensures next * (d * scale) >= r * bound
  {
    assert next * (d * scale) == (next * d) * scale;
    assert (next * d) * scale >= (pool * r) * scale;
    assert (pool * r) * scale == r * (pool * scale);
    assert r * (pool * scale) >= r * bound;
  }

  /** Rounding down only ever leaves more in the pool than the exact exponential decay would. */
  lemma {:induction false} PoolAboveExponential(n: nat)
    ensures PoolAfter(n) * Pow(DEN, n) >= SUPPLY_CAP * Pow(DEN - NUM, n)
  {
    if n > 0 {
      var m := n - 1;
      PoolAboveExponential(m);
      PoolFloor(m);
      RewardBounds(MintedAfter(m));
      assert PoolAfter(n) * DEN >= PoolAfter(m) * (DEN - NUM);
      PowPositive(DEN, m);
      ScaledStep(PoolAfter(m), PoolAfter(n), Pow(DEN, m), SUPPLY_CAP * Pow(DEN - NUM, m), DEN, DEN - NUM);
      assert (DEN - NUM) * (SUPPLY_CAP * Pow(DEN - NUM, m)) == SUPPLY_CAP * ((DEN - NUM) * Pow(DEN - NUM, m));
    }
  }

  /** The reward is the pool's share NUM / DEN, rounded down to a tick. */
  lemma RewardIsShare(minted: int)
    ensures
      var pool := if minted < SUPPLY_CAP then SUPPLY_CAP - minted else 0;
      Reward(minted) * DEN <= pool * NUM < (Reward(minted) + 1) * DEN
  {
    var x := CanMint(minted) * NUM;
    assert x == (x / DEN) * DEN + x % DEN;
  }

  /** The pool follows the exponential curve from above, never more than one tick a block away from it. */
  lemma {:induction false} PoolNearExponential(n: nat)
    ensures PoolAfter(n) * Pow(DEN, n) <= SUPPLY_CAP * Pow(DEN - NUM, n) + n * Pow(DEN, n)
  {
    if n > 0 {
      var m := n - 1;
      PoolNearExponential(m);
      PoolFloor(m);
      PoolFloor(n);
      RewardIsShare(MintedAfter(m));
      PowPositive(DEN, m);
      NearStep(PoolAfter(m), PoolAfter(n), Pow(DEN, m), SUPPLY_CAP * Pow(DEN - NUM, m), m);
      assert (DEN - NUM) * (SUPPLY_CAP * Pow(DEN - NUM, m)) == SUPPLY_CAP * ((DEN - NUM) * Pow(DEN - NUM, m));
    }
  }

  lemma NearStep(p: int, q: int, d: int, c: int, m: nat)
    requires d > 0 && p * d <= c + m * d && q * DEN < p * (DEN - NUM) + DEN
    ensures q * (DEN * d) <= (DEN - NUM) * c + (m + 1) * (DEN * d)
  {
    Scaled(q * DEN, p * (DEN - NUM) + DEN, d);
    Scaled(p * d, c + m * d, DEN - NUM);
    assert (p * (DEN - NUM) + DEN) * d == p * d * (DEN - NUM) + DEN * d;
    assert (c + m * d) * (DEN - NUM) == (DEN - NUM) * c + m * (DEN * d) - m * d * NUM;
    Scaled(0, m * d, NUM);
    assert q * (DEN * d) == q * DEN * d;
    assert (m + 1) * (DEN * d) == m * (DEN * d) + DEN * d;
  }

  lemma Scaled(x: int, y: int, k: int)
    requires x <= y && k > 0
    ensures x * k <= y * k
  {
  }
}
