/** What holds of the ledger of every valid chain: conservation of supply, and the nonce sequence. */
module Conservation {
  import opened Params
  import opened Prelude
  import opened Types
  import opened Ledgers
  import opened TxRules
  import opened BlockRules
  import opened Chains
  import Emission

  // ------------------------------------------------------------------------------ supply

  /** The builder credit puts back exactly the block's fees and adds exactly the reward it mints. */
  lemma SettleSupply(l: Ledger, b: Block)
    requires HasBuilder(b) && BlockFees(b) >= 0 && NonNegative(l)
    ensures var s := Settle(l, b);
      && Supply(s.balances) == Supply(l.balances) + BlockFees(b) + (s.minted - l.minted)
      && s.minted == l.minted + (if Reward(l.minted) >= 1 then Reward(l.minted) else 0)
      && s.nonces == l.nonces
      && NonNegative(s)
      && (forall a :: s.Balance(a) >= l.Balance(a))
  {
    var builder := b.builder.value;
    var fees := BlockFees(b);
    var paid := if fees > 0 then Credit(l, builder, fees).ledger else l;
    SupplyUpdate(l.balances, builder, l.Balance(builder) + fees);
    var reward := Reward(paid.minted);
    SupplyUpdate(paid.balances, builder, paid.Balance(builder) + reward);
    if reward >= 1 {
      DistributeOne(paid, builder, reward);
    }
    hide Supply;
    var s := Settle(l, b);
    forall a ensures s.Balance(a) >= l.Balance(a) >= 0 {
      assert l.Balance(a) >= 0;
    }
  }

  lemma EmptyLedgerIsBalanced()
    ensures Supply(EMPTY_LEDGER.balances) == 0 && NonNegative(EMPTY_LEDGER)
  {
  }

  lemma GenesisLedger(e: Env, chain: seq<Block>)
    requires chain == [Genesis(e)]
    ensures LedgerOf(chain) == EMPTY_LEDGER
  {
    ReplayOfGenesis(e);
  }

  lemma {:induction false} ShortIsGenesis(e: Env, chain: seq<Block>)
    requires ValidChain(e, chain) && |chain| <= 1
    ensures chain == [Genesis(e)]
  {
  }

  /** A block of a valid chain has a builder, since "" is no address. */
  lemma {:induction false} LastHasBuilder(e: Env, chain: seq<Block>)
    requires ValidChain(e, chain) && |chain| > 1
    ensures ValidChain(e, Front(chain)) && HasBuilder(chain[|chain| - 1])
    ensures RunTxs(e, LedgerOf(Front(chain)), chain[|chain| - 1].txs).Ran?
  {
  }

  /** On every valid chain no balance is negative, the balances add up to what was minted, and that
      is the emission schedule's value for the height, never more than the cap. */
  lemma {:induction false} SupplyIsConserved(e: Env, chain: seq<Block>)
    requires ValidChain(e, chain)
    ensures var l := LedgerOf(chain);
      && NonNegative(l)
      && Supply(l.balances) == l.minted == Emission.MintedAfter(|chain| - 1)
      && 0 <= l.minted <= SUPPLY_CAP - (Emission.LEAST_PAYING_POOL - 1)
    decreases |chain|
  {
    SupplyFollows(e, chain);
    Emission.PoolFloor(|chain| - 1);
    hide ValidChain, LedgerOf, NonNegative, Supply, Emission.MintedAfter, Emission.PoolAfter;
  }

  lemma {:induction false} SupplyFollows(e: Env, chain: seq<Block>)
    requires ValidChain(e, chain)
    ensures chain != [] && var l := LedgerOf(chain);
      NonNegative(l) && Supply(l.balances) == l.minted == Emission.MintedAfter(|chain| - 1)
    decreases |chain|
  {
    assert Emission.MintedAfter(0) == 0;
    hide ValidChain, LedgerOf, Supply, NonNegative, RunTxs, Settle, Emission.MintedAfter;
    if |chain| <= 1 {
      ShortIsGenesis(e, chain);
      GenesisLedger(e, chain);
      EmptyLedgerIsBalanced();
    } else {
      LastHasBuilder(e, chain);
      ValidChainReplays(e, chain);
      SupplyFollows(e, Front(chain));
      SupplyStep(e, LedgerOf(Front(chain)), chain[|chain| - 1], |chain| - 2);
    }
  }

  lemma SupplyStep(e: Env, l: Ledger, b: Block, n: nat)
    requires RunTxs(e, l, b.txs).Ran? && HasBuilder(b)
    requires NonNegative(l) && Supply(l.balances) == l.minted == Emission.MintedAfter(n)
    ensures var s := Settle(RunTxs(e, l, b.txs).ledger, b);
      NonNegative(s) && Supply(s.balances) == s.minted == Emission.MintedAfter(n + 1)
  {
    RunSupply(e, l, b.txs);
    SettleSupply(RunTxs(e, l, b.txs).ledger, b);
    Emission.PoolFloor(n);
    Emission.RewardBounds(l.minted);
  }

  // ------------------------------------------------------------------------------ nonces

  /** All transactions of a chain, in chain order. */
  function ChainTxs(chain: seq<Block>): seq<Tx> {
    if chain == [] then [] else ChainTxs(chain[..|chain| - 1]) + chain[|chain| - 1].txs
  }

  /** a's transactions in chain order. */
  function SentBy(chain: seq<Block>, a: Address): seq<Tx> {
    Filter(ChainTxs(chain), By(a))
  }

  lemma SentByGrows(chain: seq<Block>, a: Address)
    requires chain != []
    ensures SentBy(chain, a) == SentBy(Front(chain), a) + Filter(chain[|chain| - 1].txs, By(a))
  {
    FilterConcat(ChainTxs(Front(chain)), chain[|chain| - 1].txs, By(a));
  }

  /** On every valid chain each sender's transactions carry the nonces 1, 2, 3, ... in chain order, and
      the ledger's nonce is their number. */
  lemma {:induction false} NonceSequence(e: Env, chain: seq<Block>, a: Address)
    requires ValidChain(e, chain)
    ensures forall i :: 0 <= i < |SentBy(chain, a)| ==> SentBy(chain, a)[i].nonce == i + 1
    ensures LedgerOf(chain).Nonce(a) == |SentBy(chain, a)|
    decreases |chain|
  {
    if |chain| <= 1 {
      GenesisLedger(e, chain);
      assert chain[|chain| - 1].txs == [] && chain[..0] == [];
      assert ChainTxs(chain) == [];
    } else {
      var front, b := Front(chain), chain[|chain| - 1];
      NonceSequence(e, front, a);
      LastHasBuilder(e, chain);
      ValidChainReplays(e, chain);
      SentByGrows(chain, a);
      hide ValidChain, SentBy, LedgerOf;
      NonceStep(e, LedgerOf(front), b, a, SentBy(front, a));
    }
  }

  lemma {:induction false} NonceStep(e: Env, l: Ledger, b: Block, a: Address, sent: seq<Tx>)
    requires RunTxs(e, l, b.txs).Ran?
    requires l.Nonce(a) == |sent| && forall i :: 0 <= i < |sent| ==> sent[i].nonce == i + 1
    ensures var more := sent + Filter(b.txs, By(a));
      && Settle(RunTxs(e, l, b.txs).ledger, b).Nonce(a) == |more|
      && forall i :: 0 <= i < |more| ==> more[i].nonce == i + 1
  {
    RunNonces(e, l, b.txs, a);
    SettleKeepsNonces(RunTxs(e, l, b.txs).ledger, b);
    hide RunTxs, Settle, Filter;
  }

  lemma SettleKeepsNonces(l: Ledger, b: Block)
    ensures Settle(l, b).nonces == l.nonces
  {
    if HasBuilder(b) {
      var fees := BlockFees(b);
      var paid := if fees > 0 then Credit(l, b.builder.value, fees).ledger else l;
      if Reward(paid.minted) >= 1 {
        DistributeOne(paid, b.builder.value, Reward(paid.minted));
      }
    }
  }

  /** Two positions of a filtered sequence holding the same value at different places. */
  lemma FilterRepeats<T>(s: seq<T>, keep: T -> bool, i: nat, j: nat) returns (m: nat, n: nat)
    requires i < j < |s| && keep(s[i]) && keep(s[j])
    ensures m < n < |Filter(s, keep)| && Filter(s, keep)[m] == s[i] && Filter(s, keep)[n] == s[j]
  {
    hide Filter;
    var front, rest := s[..i], s[i + 1..];
    assert s[i..][1..] == rest && front + s[i..] == s;
    FilterConcat(front, s[i..], keep);
    FilterFirst(s[i..], keep);
    var k := FilterFinds(rest, keep, j - i - 1);
    m := |Filter(front, keep)|;
    n := m + 1 + k;
  }

  lemma FilterFinds<T>(s: seq<T>, keep: T -> bool, j: nat) returns (k: nat)
    requires j < |s| && keep(s[j])
    ensures k < |Filter(s, keep)| && Filter(s, keep)[k] == s[j]
  {
    hide Filter;
    assert s[j] in Filter(s, keep);
    k :| 0 <= k < |Filter(s, keep)| && Filter(s, keep)[k] == s[j];
  }

  /** No transaction occurs twice on a valid chain: any two have different hashes, even when they
      differ in the signature only. */
  lemma {:induction false} NoTxTwice(e: Env, chain: seq<Block>, i: nat, j: nat)
    requires ValidChain(e, chain) && TxCollisionFree(e)
    requires i < j < |ChainTxs(chain)|
    ensures TxHash(e, ChainTxs(chain)[i]) != TxHash(e, ChainTxs(chain)[j])
  {
    var txs := ChainTxs(chain);
    var a := txs[i].from;
    if TxHash(e, txs[i]) == TxHash(e, txs[j]) {
      assert txs[i].(signature := "") == txs[j].(signature := "");
      assert txs[j].from == txs[j].(signature := "").from == a;
      assert txs[j].nonce == txs[j].(signature := "").nonce == txs[i].nonce;
      NonceSequence(e, chain, a);
      var m, n := FilterRepeats(txs, By(a), i, j);
      assert false;
    }
  }

  /** Every transaction of a valid chain is signed, with a key whose address is its sender. */
  lemma {:induction false} ChainIsSigned(e: Env, chain: seq<Block>)
    requires ValidChain(e, chain)
    ensures forall t :: t in ChainTxs(chain) ==>
      e.isHex(t.pubkey) && e.isHex(t.signature) && e.addressOf(t.pubkey) == t.from && e.signatureOk(t)
    decreases |chain|
  {
    if |chain| > 1 {
      LastHasBuilder(e, chain);
      RunWellFormed(e, LedgerOf(Front(chain)), chain[|chain| - 1].txs);
      hide ValidChain, RunTxs, LedgerOf;
      ChainIsSigned(e, Front(chain));
    } else {
      NoTxsInGenesis(e, chain);
    }
  }

  lemma {:induction false} NoTxsInGenesis(e: Env, chain: seq<Block>)
    requires ValidChain(e, chain) && |chain| <= 1
    ensures ChainTxs(chain) == []
  {
    assert chain[|chain| - 1].txs == [] && chain[..0] == [];
  }

  // ------------------------------------------------------------------------------ who is paid

  /** The builder, and nobody else, is credited with the block's fees and the reward; only the reward is minted. */
  lemma SettlePays(l: Ledger, b: Block, a: Address)
    requires BlockFees(b) >= 0
    ensures
      var s := Settle(l, b);
      var reward := if HasBuilder(b) then Reward(l.minted) else 0;
      && s.Balance(a) == l.Balance(a) + (if HasBuilder(b) && a == b.builder.value then BlockFees(b) + reward else 0)
      && s.minted == l.minted + reward && s.nonces == l.nonces && reward >= 0
  {
    hide BlockFees;
    if HasBuilder(b) {
      var builder := b.builder.value;
      var paid := if BlockFees(b) > 0 then Credit(l, builder, BlockFees(b)).ledger else l;
      if Reward(paid.minted) >= 1 {
        DistributeOne(paid, builder, Reward(paid.minted));
      }
    }
  }

  /** What a earned as a builder: the fees of its blocks, and for each the reward of its height. */
  function Earned(chain: seq<Block>, a: Address): int {
    if |chain| <= 1 then 0
    else
      var b := chain[|chain| - 1];
      Earned(chain[..|chain| - 1], a)
      + if b.builder == Some(a) then BlockFees(b) + Reward(Emission.MintedAfter(|chain| - 2)) else 0
  }

  /** The balance sheet: on every valid chain each balance is what the address was paid, minus what it spent, plus
      what it earned as a builder. */
  lemma {:induction false} BalanceSheet(e: Env, chain: seq<Block>, a: Address)
    requires ValidChain(e, chain)
    ensures LedgerOf(chain).Balance(a) == Received(ChainTxs(chain), a) - Spent(ChainTxs(chain), a) + Earned(chain, a)
    decreases |chain|
  {
    if |chain| <= 1 {
      ShortIsGenesis(e, chain);
      NoTxsInGenesis(e, chain);
      GenesisLedger(e, chain);
    } else {
      LastHasBuilder(e, chain);
      ValidChainReplays(e, chain);
      hide ValidChain, LedgerOf, RunTxs, Settle;
      BalanceSheet(e, Front(chain), a);
      SupplyFollows(e, Front(chain));
      BalanceStep(e, LedgerOf(Front(chain)), chain[|chain| - 1], |chain| - 2, a);
      SheetConcat(ChainTxs(Front(chain)), chain[|chain| - 1].txs, a);
    }
  }

  lemma {:induction false} BalanceStep(e: Env, l: Ledger, b: Block, n: nat, a: Address)
    requires RunTxs(e, l, b.txs).Ran? && HasBuilder(b) && NonNegative(l) && l.minted == Emission.MintedAfter(n)
    ensures Settle(RunTxs(e, l, b.txs).ledger, b).Balance(a)
         == l.Balance(a) + Received(b.txs, a) - Spent(b.txs, a)
            + if b.builder == Some(a) then BlockFees(b) + Reward(Emission.MintedAfter(n)) else 0
  {
    RunSupply(e, l, b.txs);
    RunPays(e, l, b.txs, a);
    hide RunTxs, Settle, Received, Spent, Reward;
    SettlePays(RunTxs(e, l, b.txs).ledger, b, a);
  }
}
