/** src/tx.py: when a transaction is valid against a ledger, and what running a list of them does. */
module TxRules {
  import opened Prelude
  import opened Types
  import opened Ledgers

  datatype TxError =
    | NoOutputs
    | BadAmount
    | BadAddress
    | NegativeFee
    | MalformedKeyOrSignature
    | KeyMismatch
    | InvalidSignature
    | BadNonce(expected: int, got: int)
    | InsufficientBalance(have: int, need: int)

  /** The loop over the outputs in _check_fields_and_outputs: the first bad output decides. */
  function CheckOutputs(e: Env, outs: seq<Output>): Verdict<TxError> {
    if outs == [] then Accept
    else if outs[0].amount <= 0 then Reject(BadAmount)
    else if !IsAddress(e, outs[0].to) then Reject(BadAddress)
    else CheckOutputs(e, outs[1..])
  }

  /** _check_fields_and_outputs. */
  function CheckFields(e: Env, t: Tx): Verdict<TxError> {
    if t.outputs == [] then Reject(NoOutputs)
    else if CheckOutputs(e, t.outputs).Reject? then CheckOutputs(e, t.outputs)
    else if t.fee < 0 then Reject(NegativeFee)
    else Accept
  }

  /** _check_signature. */
  function CheckSignature(e: Env, t: Tx): Verdict<TxError> {
    if !e.isHex(t.pubkey) || !e.isHex(t.signature) then Reject(MalformedKeyOrSignature)
    else if e.addressOf(t.pubkey) != t.from then Reject(KeyMismatch)
    else if !e.signatureOk(t) then Reject(InvalidSignature)
    else Accept
  }

  /** _check_nonce. */
  function CheckNonce(t: Tx, l: Ledger): Verdict<TxError> {
    if t.nonce != l.Nonce(t.from) + 1 then Reject(BadNonce(l.Nonce(t.from) + 1, t.nonce)) else Accept
  }

  /** _check_balance. */
  function CheckBalance(t: Tx, l: Ledger): Verdict<TxError> {
    var need := TotalOut(t.outputs) + t.fee;
    if need > l.Balance(t.from) then Reject(InsufficientBalance(l.Balance(t.from), need)) else Accept
  }

  /** validate: the four checks in order. */
  function Validate(e: Env, t: Tx, l: Ledger): Verdict<TxError> {
    if CheckFields(e, t).Reject? then CheckFields(e, t)
    else if CheckSignature(e, t).Reject? then CheckSignature(e, t)
    else if CheckNonce(t, l).Reject? then CheckNonce(t, l)
    else CheckBalance(t, l)
  }

  /** The part of validity that does not look at the ledger. */
  ghost predicate WellFormed(e: Env, t: Tx) {
    && t.outputs != [] && PositiveOutputs(t.outputs) && t.fee >= 0
    && (forall o :: o in t.outputs ==> o.to != "" && e.isWordPhrase(o.to))
    && e.isHex(t.pubkey) && e.isHex(t.signature) && e.addressOf(t.pubkey) == t.from && e.signatureOk(t)
  }

  lemma {:induction false} CheckOutputsMeaning(e: Env, outs: seq<Output>)
    ensures CheckOutputs(e, outs).Accept?
       <==> PositiveOutputs(outs) && forall o :: o in outs ==> IsAddress(e, o.to)
  {
    if outs != [] {
      assert outs[0] in outs;
      CheckOutputsMeaning(e, outs[1..]);
      assert forall o :: o in outs <==> o == outs[0] || o in outs[1..];
    }
  }

  /** A transaction is valid exactly when it is well formed, next in its sender's sequence, and
      covered by the sender's balance. */
  lemma ValidateMeaning(e: Env, t: Tx, l: Ledger)
    ensures Validate(e, t, l).Accept?
       <==> && WellFormed(e, t)
            && t.nonce == l.Nonce(t.from) + 1
            && TotalOut(t.outputs) + t.fee <= l.Balance(t.from)
  {
    CheckOutputsMeaning(e, t.outputs);
  }

  /** No transaction that validates can make apply_tx raise, and what it then does to each account. */
  lemma ValidatedTxApplies(e: Env, t: Tx, l: Ledger)
    requires Validate(e, t, l).Accept?
    ensures var r := ApplyTx(l, t);
      && r.Done?
      && (forall a :: r.ledger.Balance(a) == l.Balance(a) + PaidTo(t.outputs, a)
            - (if a == t.from then TotalOut(t.outputs) + t.fee else 0))
      && (forall a :: r.ledger.Nonce(a) == if a == t.from then t.nonce else l.Nonce(a))
      && (forall a :: a != t.from ==> r.ledger.Balance(a) >= l.Balance(a))
      && r.ledger.Balance(t.from) >= 0
      && r.ledger.minted == l.minted
  {
    ValidateMeaning(e, t, l);
    TotalOutPositive(t.outputs);
    ApplyTxEffect(l, t);
  }

  lemma ValidateSameView(e: Env, t: Tx, l: Ledger, m: Ledger)
    requires SameView(l, m)
    ensures Validate(e, t, l) == Validate(e, t, m)
  {
    assert l.Balance(t.from) == m.Balance(t.from) && l.Nonce(t.from) == m.Nonce(t.from);
  }

  // ------------------------------------------------------------- running a list of transactions

  /** The outcome of running a list in order; a refusal keeps the transactions before it applied. */
  datatype Run = Ran(ledger: Ledger) | Stopped(ledger: Ledger, error: TxError)

  /** The loop of block._apply_transactions: validate each against the running ledger, then apply. */
  function RunTxs(e: Env, l: Ledger, txs: seq<Tx>): Run
    decreases |txs|
  {
    if txs == [] then Ran(l)
    else
      match Validate(e, txs[0], l)
      case Reject(err) => Stopped(l, err)
      case Accept => RunTxs(e, ApplyTx(l, txs[0]).ledger, txs[1..])
  }

  lemma {:induction false} RunConcat(e: Env, l: Ledger, a: seq<Tx>, b: seq<Tx>)
    ensures RunTxs(e, l, a + b)
         == if RunTxs(e, l, a).Ran? then RunTxs(e, RunTxs(e, l, a).ledger, b) else RunTxs(e, l, a)
    decreases |a|
  {
    if a == [] {
      assert a + b == b;
    } else {
      assert (a + b)[1..] == a[1..] + b;
      RunConcat(e, ApplyTx(l, a[0]).ledger, a[1..], b);
    }
  }

  lemma {:induction false} RunSameView(e: Env, l: Ledger, m: Ledger, txs: seq<Tx>)
    requires SameView(l, m)
    ensures var x, y := RunTxs(e, l, txs), RunTxs(e, m, txs);
      x.Ran? == y.Ran? && SameView(x.ledger, y.ledger) && (x.Stopped? ==> x.error == y.error)
    decreases |txs|
  {
    if txs != [] {
      ValidateSameView(e, txs[0], l, m);
      ApplyTxSameView(l, m, txs[0]);
      RunSameView(e, ApplyTx(l, txs[0]).ledger, ApplyTx(m, txs[0]).ledger, txs[1..]);
    }
  }

  // ---------------------------------------------------------- one sender's run, seen in isolation

  /** Selects the transactions sent by a. */
  function By(a: Address): Tx -> bool {
    (t: Tx) => t.from == a
  }

  /** m gives a at least what l gives it, at the same nonce. */
  ghost predicate NoWorseFor(a: Address, l: Ledger, m: Ledger) {
    m.Nonce(a) == l.Nonce(a) && m.Balance(a) >= l.Balance(a)
  }

  /** More money never hurts: a sender's list that runs on l runs on any ledger no worse for it. */
  lemma {:induction false} RunMonotone(e: Env, a: Address, l: Ledger, m: Ledger, txs: seq<Tx>)
    requires forall t :: t in txs ==> t.from == a
    requires NoWorseFor(a, l, m)
    requires RunTxs(e, l, txs).Ran?
    ensures RunTxs(e, m, txs).Ran?
    ensures NoWorseFor(a, RunTxs(e, l, txs).ledger, RunTxs(e, m, txs).ledger)
    decreases |txs|
  {
    if txs != [] {
      var t := txs[0];
      assert t in txs;
      ValidateMeaning(e, t, l);
      ValidateMeaning(e, t, m);
      ValidatedTxApplies(e, t, l);
      ValidatedTxApplies(e, t, m);
      RunMonotone(e, a, ApplyTx(l, t).ledger, ApplyTx(m, t).ledger, txs[1..]);
    }
  }

  /** If every sender's own transactions, kept in their order, run on l by themselves, then so does
      any interleaving of all of them; and no sender ends up worse off than alone. */
  lemma {:induction false} InterleavingRuns(e: Env, l: Ledger, txs: seq<Tx>)
    requires forall a :: RunTxs(e, l, Filter(txs, By(a))).Ran?
    ensures RunTxs(e, l, txs).Ran?
    ensures forall a :: NoWorseFor(a, RunTxs(e, l, Filter(txs, By(a))).ledger, RunTxs(e, l, txs).ledger)
    decreases |txs|
  {
    if txs != [] {
      var t, rest := txs[0], txs[1..];
      var own := Filter(rest, By(t.from));
      assert Filter(txs, By(t.from)) == [t] + own;
      assert ([t] + own)[1..] == own;
      assert RunTxs(e, l, Filter(txs, By(t.from))).Ran?;
      assert Validate(e, t, l).Accept?;
      ValidatedTxApplies(e, t, l);
      var l1 := ApplyTx(l, t).ledger;
      forall a ensures RunTxs(e, l1, Filter(rest, By(a))).Ran?
        && NoWorseFor(a, RunTxs(e, l, Filter(txs, By(a))).ledger, RunTxs(e, l1, Filter(rest, By(a))).ledger)
      {
        if a != t.from {
          assert Filter(txs, By(a)) == Filter(rest, By(a));
          RunMonotone(e, a, l, l1, Filter(rest, By(a)));
        }
      }
      InterleavingRuns(e, l1, rest);
      forall a ensures NoWorseFor(a, RunTxs(e, l, Filter(txs, By(a))).ledger, RunTxs(e, l, txs).ledger) {
        assert NoWorseFor(a, RunTxs(e, l1, Filter(rest, By(a))).ledger, RunTxs(e, l1, rest).ledger);
      }
    } else {
      forall a ensures Filter(txs, By(a)) == [] {
      }
    }
  }

  // ------------------------------------------------------------------------------------ nonces

  /** A list that runs carries, for each sender, consecutive nonces from the ledger's on. */
  lemma {:induction false} RunNonces(e: Env, l: Ledger, txs: seq<Tx>, a: Address)
    requires RunTxs(e, l, txs).Ran?
    ensures var own := Filter(txs, By(a));
      && (forall i :: 0 <= i < |own| ==> own[i].nonce == l.Nonce(a) + 1 + i)
      && RunTxs(e, l, txs).ledger.Nonce(a) == l.Nonce(a) + |own|
    decreases |txs|
  {
    if txs != [] {
      var own, rest := Filter(txs, By(a)), Filter(txs[1..], By(a));
      FilterFirst(txs, By(a));
      hide Filter;
      RunNoncesFirst(e, l, txs, a);
      RunNonces(e, ApplyTx(l, txs[0]).ledger, txs[1..], a);
      hide RunTxs, ApplyTx;
      if txs[0].from == a {
        OneNonceMore(txs[0], rest, l.Nonce(a));
      }
    }
  }

  lemma OneNonceMore(t: Tx, rest: seq<Tx>, n: int)
    requires t.nonce == n + 1 && forall i :: 0 <= i < |rest| ==> rest[i].nonce == n + 2 + i
    ensures var own := [t] + rest; forall i :: 0 <= i < |own| ==> own[i].nonce == n + 1 + i
  {
  }

  lemma {:induction false} RunNoncesFirst(e: Env, l: Ledger, txs: seq<Tx>, a: Address)
    requires txs != [] && RunTxs(e, l, txs).Ran?
    ensures RunTxs(e, l, txs) == RunTxs(e, ApplyTx(l, txs[0]).ledger, txs[1..])
    ensures ApplyTx(l, txs[0]).ledger.Nonce(a) == l.Nonce(a) + if txs[0].from == a then 1 else 0
    ensures txs[0].from == a ==> txs[0].nonce == l.Nonce(a) + 1
  {
    ValidateMeaning(e, txs[0], l);
    ValidatedTxApplies(e, txs[0], l);
    hide ApplyTx;
  }

  /** Every transaction of an accepted list is well formed, so signed with the key of its sender. */
  lemma {:induction false} RunWellFormed(e: Env, l: Ledger, txs: seq<Tx>)
    requires RunTxs(e, l, txs).Ran?
    ensures forall t :: t in txs ==> WellFormed(e, t)
    decreases |txs|
  {
    if txs != [] {
      ValidateMeaning(e, txs[0], l);
      hide WellFormed;
      RunWellFormed(e, ApplyTx(l, txs[0]).ledger, txs[1..]);
    }
  }

  // ------------------------------------------------------------------------------ the balance sheet

  /** What a list of transactions pays to a. */
  function Received(txs: seq<Tx>, a: Address): int {
    if txs == [] then 0 else PaidTo(txs[0].outputs, a) + Received(txs[1..], a)
  }

  /** What a pays by a list of transactions, fees included. */
  function Spent(txs: seq<Tx>, a: Address): int {
    if txs == [] then 0
    else (if txs[0].from == a then TotalOut(txs[0].outputs) + txs[0].fee else 0) + Spent(txs[1..], a)
  }

  /** An accepted list changes each balance by what it receives minus what it spends. */
  lemma {:induction false} RunPays(e: Env, l: Ledger, txs: seq<Tx>, a: Address)
    requires RunTxs(e, l, txs).Ran?
    ensures RunTxs(e, l, txs).ledger.Balance(a) == l.Balance(a) + Received(txs, a) - Spent(txs, a)
    decreases |txs|
  {
    if txs != [] {
      ValidatedTxApplies(e, txs[0], l);
      hide ApplyTx, Validate, PaidTo, TotalOut;
      RunPays(e, ApplyTx(l, txs[0]).ledger, txs[1..], a);
    }
  }

  lemma {:induction false} SheetConcat(x: seq<Tx>, y: seq<Tx>, a: Address)
    ensures Received(x + y, a) == Received(x, a) + Received(y, a)
    ensures Spent(x + y, a) == Spent(x, a) + Spent(y, a)
  {
    if x == [] {
      assert x + y == y;
    } else {
      assert (x + y)[1..] == x[1..] + y;
      SheetConcat(x[1..], y, a);
    }
  }

  // ------------------------------------------------------------------------------ conservation

  function TotalFees(txs: seq<Tx>): int {
    if txs == [] then 0 else txs[0].fee + TotalFees(txs[1..])
  }

  /** No balance is negative. */
  ghost predicate NonNegative(l: Ledger) {
    forall a :: l.Balance(a) >= 0
  }

  /** Running transactions removes exactly their fees from circulation, overdraws nobody and mints
      nothing. */
  lemma {:induction false} RunSupply(e: Env, l: Ledger, txs: seq<Tx>)
    requires RunTxs(e, l, txs).Ran? && NonNegative(l)
    ensures var r := RunTxs(e, l, txs).ledger;
      && Supply(r.balances) == Supply(l.balances) - TotalFees(txs)
      && NonNegative(r) && r.minted == l.minted
    ensures TotalFees(txs) >= 0
    decreases |txs|
  {
    if txs != [] {
      ValidateMeaning(e, txs[0], l);
      ValidatedTxApplies(e, txs[0], l);
      ApplyTxSupply(l, txs[0]);
      RunSupply(e, ApplyTx(l, txs[0]).ledger, txs[1..]);
    }
  }
}
