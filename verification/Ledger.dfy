/** src/state.py: balances, nonces and emission accounting. */
module Ledgers {
  import opened Params
  import opened Types

  /** compute_can_mint. */
  function CanMint(totalMinted: int): int {
    if SUPPLY_CAP - totalMinted > 0 then SUPPLY_CAP - totalMinted else 0
  }

  /** compute_reward: the mintable pool times the decay ratio, rounded down. */
  function Reward(totalMinted: int): int {
    CanMint(totalMinted) * EMISSION_DECAY_NUMERATOR / EMISSION_DECAY_DENOMINATOR
  }

  /** The value of a State object. */
  datatype Ledger = Ledger(balances: map<Address, int>, nonces: map<Address, int>, minted: int) {
    function Balance(a: Address): int {
      if a in balances then balances[a] else 0
    }

    function Nonce(a: Address): int {
      if a in nonces then nonces[a] else 0
    }
  }

  const EMPTY_LEDGER: Ledger := Ledger(map[], map[], 0)

  /** An operation that either completes or raises ValueError; a raise keeps what was written before it. */
  datatype Attempt = Done(ledger: Ledger) | Raised(ledger: Ledger)

  function Credit(l: Ledger, a: Address, amount: int): Attempt {
    if amount <= 0 then Raised(l)
    else Done(l.(balances := l.balances[a := l.Balance(a) + amount]))
  }

  function Debit(l: Ledger, a: Address, amount: int): Attempt {
    if amount <= 0 then Raised(l)
    else if l.Balance(a) < amount then Raised(l)
    else Done(l.(balances := l.balances[a := l.Balance(a) - amount]))
  }

  function TotalOut(outs: seq<Output>): int {
    if outs == [] then 0 else outs[0].amount + TotalOut(outs[1..])
  }

  function CreditOutputs(l: Ledger, outs: seq<Output>): Attempt
    decreases |outs|
  {
    if outs == [] then Done(l)
    else
      match Credit(l, outs[0].to, outs[0].amount)
      case Raised(l1) => Raised(l1)
      case Done(l1) => CreditOutputs(l1, outs[1..])
  }

  /** apply_tx: debit outputs and fee, credit each output, set the nonce. */
  function ApplyTx(l: Ledger, t: Tx): Attempt {
    match Debit(l, t.from, TotalOut(t.outputs) + t.fee)
    case Raised(l1) => Raised(l1)
    case Done(l1) =>
      match CreditOutputs(l1, t.outputs)
      case Raised(l2) => Raised(l2)
      case Done(l2) => Done(l2.(nonces := l2.nonces[t.from := t.nonce]))
  }

  /** apply_reward_distribution: amounts below one tick are skipped. */
  function Distribute(l: Ledger, shares: seq<(Address, int)>): Ledger
    decreases |shares|
  {
    if shares == [] then l
    else
      var (a, n) := shares[0];
      if n >= 1 then
        var paid := l.(balances := l.balances[a := l.Balance(a) + n], minted := l.minted + n);
        Distribute(paid, shares[1..])
      else Distribute(l, shares[1..])
  }

  lemma {:induction false} DistributeOne(l: Ledger, a: Address, n: int)
    requires n >= 1
    ensures Distribute(l, [(a, n)]) == l.(balances := l.balances[a := l.Balance(a) + n], minted := l.minted + n)
  {
    var paid := l.(balances := l.balances[a := l.Balance(a) + n], minted := l.minted + n);
    assert [(a, n)][1..] == [];
    assert Distribute(paid, []) == paid;
  }

  /** _save_state_inner followed by load_state: one row per address known to either map, missing
      entries stored as 0 (src/storage.py). */
  function SnapshotRows(l: Ledger): map<Address, (int, int)> {
    map a | a in l.balances.Keys + l.nonces.Keys :: (l.Balance(a), l.Nonce(a))
  }

  function FromRows(rows: map<Address, (int, int)>, minted: int): Ledger {
    Ledger(map a | a in rows :: rows[a].0, map a | a in rows :: rows[a].1, minted)
  }

  /** Two ledgers no getter can tell apart. */
  ghost predicate SameView(l: Ledger, m: Ledger) {
    && (forall a :: l.Balance(a) == m.Balance(a) && l.Nonce(a) == m.Nonce(a))
    && l.minted == m.minted
  }

  ghost predicate SameAttempt(x: Attempt, y: Attempt) {
    x.Done? == y.Done? && SameView(x.ledger, y.ledger)
  }

  lemma SnapshotRestores(l: Ledger)
    ensures SameView(FromRows(SnapshotRows(l), l.minted), l)
    ensures FromRows(SnapshotRows(l), l.minted).balances.Keys == l.balances.Keys + l.nonces.Keys
    ensures FromRows(SnapshotRows(l), l.minted).nonces.Keys == l.balances.Keys + l.nonces.Keys
  {
    var r := FromRows(SnapshotRows(l), l.minted);
    assert r.balances.Keys == l.balances.Keys + l.nonces.Keys;
    assert r.nonces.Keys == l.balances.Keys + l.nonces.Keys;
    forall a ensures r.Balance(a) == l.Balance(a) && r.Nonce(a) == l.Nonce(a) {
      assert a in r.balances.Keys <==> a in l.balances.Keys + l.nonces.Keys;
    }
  }

  lemma WriteSameView(l: Ledger, m: Ledger, a: Address, v: int)
    requires SameView(l, m)
    ensures SameView(l.(balances := l.balances[a := v]), m.(balances := m.balances[a := v]))
    ensures SameView(l.(nonces := l.nonces[a := v]), m.(nonces := m.nonces[a := v]))
  {
    var l1, m1 := l.(balances := l.balances[a := v]), m.(balances := m.balances[a := v]);
    var l2, m2 := l.(nonces := l.nonces[a := v]), m.(nonces := m.nonces[a := v]);
    forall b
      ensures l1.Balance(b) == m1.Balance(b) && l1.Nonce(b) == m1.Nonce(b)
      ensures l2.Balance(b) == m2.Balance(b) && l2.Nonce(b) == m2.Nonce(b)
    {
      assert l.Balance(b) == m.Balance(b) && l.Nonce(b) == m.Nonce(b);
    }
  }

  lemma {:induction false} CreditOutputsSameView(l: Ledger, m: Ledger, outs: seq<Output>)
    requires SameView(l, m)
    ensures SameAttempt(CreditOutputs(l, outs), CreditOutputs(m, outs))
    decreases |outs|
  {
    if outs != [] {
      WriteSameView(l, m, outs[0].to, l.Balance(outs[0].to) + outs[0].amount);
      var x, y := Credit(l, outs[0].to, outs[0].amount), Credit(m, outs[0].to, outs[0].amount);
      assert SameAttempt(x, y);
      if x.Done? {
        CreditOutputsSameView(x.ledger, y.ledger, outs[1..]);
      }
    }
  }

  /** Applying a transaction cannot tell a ledger from its restored snapshot. */
  lemma ApplyTxSameView(l: Ledger, m: Ledger, t: Tx)
    requires SameView(l, m)
    ensures SameAttempt(ApplyTx(l, t), ApplyTx(m, t))
  {
    var n := TotalOut(t.outputs) + t.fee;
    WriteSameView(l, m, t.from, l.Balance(t.from) - n);
    var x, y := Debit(l, t.from, n), Debit(m, t.from, n);
    assert SameAttempt(x, y);
    if x.Done? {
      CreditOutputsSameView(x.ledger, y.ledger, t.outputs);
      WriteSameView(CreditOutputs(x.ledger, t.outputs).ledger, CreditOutputs(y.ledger, t.outputs).ledger,
                    t.from, t.nonce);
    }
  }

  // ----------------------------------------------------- what apply_tx does to one account

  /** What the outputs pay to address a. */
  function PaidTo(outs: seq<Output>, a: Address): int {
    if outs == [] then 0
    else (if outs[0].to == a then outs[0].amount else 0) + PaidTo(outs[1..], a)
  }

  predicate PositiveOutputs(outs: seq<Output>) {
    forall o :: o in outs ==> o.amount > 0
  }

  lemma {:induction false} TotalOutPositive(outs: seq<Output>)
    requires PositiveOutputs(outs)
    ensures TotalOut(outs) >= 0
    ensures outs != [] ==> TotalOut(outs) > 0
    ensures forall a :: 0 <= PaidTo(outs, a) <= TotalOut(outs)
  {
    if outs != [] {
      assert outs[0] in outs;
      TotalOutPositive(outs[1..]);
    }
  }

  lemma {:induction false} CreditOutputsEffect(l: Ledger, outs: seq<Output>)
    requires PositiveOutputs(outs)
    ensures var r := CreditOutputs(l, outs);
      && r.Done?
      && (forall a :: r.ledger.Balance(a) == l.Balance(a) + PaidTo(outs, a))
      && r.ledger.nonces == l.nonces && r.ledger.minted == l.minted
    decreases |outs|
  {
    if outs != [] {
      assert outs[0] in outs;
      CreditOutputsEffect(Credit(l, outs[0].to, outs[0].amount).ledger, outs[1..]);
    }
  }

  /** apply_tx succeeds exactly when the debit is positive and covered and every output is positive;
      it then moves exactly the outputs, takes the fee from the sender and touches one nonce. */
  lemma ApplyTxEffect(l: Ledger, t: Tx)
    requires PositiveOutputs(t.outputs)
    ensures var cost := TotalOut(t.outputs) + t.fee;
      var r := ApplyTx(l, t);
      && (r.Done? <==> 0 < cost <= l.Balance(t.from))
      && (r.Done? ==>
        && (forall a :: r.ledger.Balance(a)
              == l.Balance(a) + PaidTo(t.outputs, a) - (if a == t.from then cost else 0))
        && (forall a :: r.ledger.Nonce(a) == if a == t.from then t.nonce else l.Nonce(a))
        && r.ledger.minted == l.minted)
  {
    var d := Debit(l, t.from, TotalOut(t.outputs) + t.fee);
    if d.Done? {
      CreditOutputsEffect(d.ledger, t.outputs);
    }
  }

  // --------------------------------------------------------------------- total of all balances

  /** get_circulating_supply: the sum of all stored balances. */
  ghost function Supply(m: map<Address, int>): int
    decreases |m|
  {
    if m == map[] then 0
    else
      var a :| a in m;
      m[a] + Supply(m - {a})
  }

  lemma {:induction false} SupplySplit(m: map<Address, int>, a: Address)
    requires a in m
    ensures Supply(m) == m[a] + Supply(m - {a})
    decreases |m|
  {
    var b :| b in m && Supply(m) == m[b] + Supply(m - {b});
    if a != b {
      SupplySplit(m - {b}, a);
      SupplySplit(m - {a}, b);
      assert m - {a} - {b} == m - {b} - {a};
    }
  }

  lemma SupplyUpdate(m: map<Address, int>, a: Address, v: int)
    ensures Supply(m[a := v]) == Supply(m) + v - (if a in m then m[a] else 0)
  {
    var n := m[a := v];
    SupplySplit(n, a);
    if a in m {
      SupplySplit(m, a);
      assert n - {a} == m - {a};
    } else {
      assert n - {a} == m;
    }
  }

  lemma {:induction false} CreditOutputsSupply(l: Ledger, outs: seq<Output>)
    requires PositiveOutputs(outs)
    ensures CreditOutputs(l, outs).Done?
    ensures Supply(CreditOutputs(l, outs).ledger.balances) == Supply(l.balances) + TotalOut(outs)
    decreases |outs|
  {
    if outs != [] {
      assert outs[0] in outs;
      SupplyUpdate(l.balances, outs[0].to, l.Balance(outs[0].to) + outs[0].amount);
      CreditOutputsSupply(Credit(l, outs[0].to, outs[0].amount).ledger, outs[1..]);
    }
  }

  /** A transaction takes exactly its fee out of circulation; the builder credit puts it back. */
  lemma ApplyTxSupply(l: Ledger, t: Tx)
    requires PositiveOutputs(t.outputs) && ApplyTx(l, t).Done?
    ensures Supply(ApplyTx(l, t).ledger.balances) == Supply(l.balances) - t.fee
  {
    var cost := TotalOut(t.outputs) + t.fee;
    SupplyUpdate(l.balances, t.from, l.Balance(t.from) - cost);
    CreditOutputsSupply(Debit(l, t.from, cost).ledger, t.outputs);
  }
}
