/** The mutable State object of src/state.py, method by method proved against the functions of Ledgers. */
module StateObject {
  import opened Types
  import Ledgers

  /** State: the mutable ledger. */
  class State {
    var balances: map<Address, int>
    var nonces: map<Address, int>
    var totalMinted: int

    constructor ()
      ensures Value() == Ledgers.EMPTY_LEDGER
    {
      balances, nonces, totalMinted := map[], map[], 0;
    }

    constructor FromSnapshot(balances: map<Address, int>, nonces: map<Address, int>, totalMinted: int)
      ensures Value() == Ledgers.Ledger(balances, nonces, totalMinted)
    {
      this.balances, this.nonces, this.totalMinted := balances, nonces, totalMinted;
    }

    function Value(): Ledgers.Ledger
      reads this
    {
      Ledgers.Ledger(balances, nonces, totalMinted)
    }

    method Credit(a: Address, amount: int) returns (ok: bool)
      modifies this
      ensures ok == Ledgers.Credit(old(Value()), a, amount).Done?
      ensures Value() == Ledgers.Credit(old(Value()), a, amount).ledger
    {
      if amount <= 0 {
        return false;
      }
      balances := balances[a := Value().Balance(a) + amount];
      return true;
    }

    method Debit(a: Address, amount: int) returns (ok: bool)
      modifies this
      ensures ok == Ledgers.Debit(old(Value()), a, amount).Done?
      ensures Value() == Ledgers.Debit(old(Value()), a, amount).ledger
    {
      if amount <= 0 {
        return false;
      }
      var bal := Value().Balance(a);
      if bal < amount {
        return false;
      }
      balances := balances[a := bal - amount];
      return true;
    }

    method SetNonce(a: Address, nonce: int)
      modifies this
      ensures Value() == old(Value()).(nonces := old(nonces)[a := nonce])
    {
      nonces := nonces[a := nonce];
    }

    /** apply_tx; ok is false where the program raises. */
    method ApplyTx(t: Tx) returns (ok: bool)
      modifies this
      ensures ok == Ledgers.ApplyTx(old(Value()), t).Done?
      ensures Value() == Ledgers.ApplyTx(old(Value()), t).ledger
    {
      var debited := Debit(t.from, Ledgers.TotalOut(t.outputs) + t.fee);
      if !debited {
        return false;
      }
      ghost var start := Value();
      var i := 0;
      while i < |t.outputs|
        invariant 0 <= i <= |t.outputs|
        invariant Ledgers.CreditOutputs(start, t.outputs) == Ledgers.CreditOutputs(Value(), t.outputs[i..])
      {
        var credited := Credit(t.outputs[i].to, t.outputs[i].amount);
        if !credited {
          return false;
        }
        i := i + 1;
      }
      SetNonce(t.from, t.nonce);
      return true;
    }

    method ApplyRewardDistribution(shares: seq<(Address, int)>)
      modifies this
      ensures Value() == Ledgers.Distribute(old(Value()), shares)
    {
      var i := 0;
      while i < |shares|
        invariant 0 <= i <= |shares|
        invariant Ledgers.Distribute(old(Value()), shares) == Ledgers.Distribute(Value(), shares[i..])
      {
        var (a, amount) := shares[i];
        if amount >= 1 {
          var _ := Credit(a, amount);
          totalMinted := totalMinted + amount;
        }
        i := i + 1;
      }
    }

    /** snapshot: an independent copy. */
    method Snapshot() returns (s: State)
      ensures fresh(s) && s.Value() == Value()
    {
      s := new State.FromSnapshot(balances, nonces, totalMinted);
    }
  }
}
