/** The loops of src/chainstate.py and block._apply_transactions, which work on a State object in
    place, proved against the functions of Chains and BlockRules. */
module ChainMethods {
  import opened Prelude
  import opened Types
  import opened Ledgers
  import opened TxRules
  import opened BlockRules
  import opened Chains
  import opened StateObject

  /** _apply_transactions: state is changed in place, also when the block is refused. */
  method ApplyTransactionsInPlace(e: Env, b: Block, state: State) returns (verdict: Verdict<BlockError>)
    modifies state
    ensures Checked(verdict, state.Value()) == ApplyTransactions(e, b, old(state.Value()))
  {
    var i := 0;
    while i < |b.txs|
      invariant 0 <= i <= |b.txs|
      invariant RunTxs(e, old(state.Value()), b.txs) == RunTxs(e, state.Value(), b.txs[i..])
    {
      var t := b.txs[i];
      assert b.txs[i..][0] == t && b.txs[i..][1..] == b.txs[i + 1..];
      var ok := Validate(e, t, state.Value());
      if ok.Reject? {
        return Reject(InvalidTx(ok.reason));
      }
      var _ := state.ApplyTx(t);
      i := i + 1;
    }
    return Accept;
  }

  /** validate. Callers pass a snapshot, so that a refusal leaves their own state clean. */
  method ValidateInPlace(e: Env, b: Block, state: State, chain: seq<Block>, now: Instant)
    returns (verdict: Verdict<BlockError>)
    modifies state
    ensures Checked(verdict, state.Value()) == ValidateBlock(e, b, old(state.Value()), chain, now)
  {
    verdict := CheckHeader(e, b, chain, now);
    if verdict.Accept? {
      verdict := ApplyTransactionsInPlace(e, b, state);
    }
  }

  /** _apply_builder_reward. */
  method ApplyBuilderReward(state: State, builder: Address, b: Block)
    modifies state
    ensures state.Value() == RewardBuilder(old(state.Value()), builder, b)
  {
    var fees := BlockFees(b);
    if fees > 0 {
      var _ := state.Credit(builder, fees);
    }
    var reward := Reward(state.totalMinted);
    if reward >= 1 {
      state.ApplyRewardDistribution([(builder, reward)]);
    }
  }

  /** The inner loop of from_chain and the loop of apply_block; ok is false where apply_tx raises. */
  method ReplayInPlace(state: State, txs: seq<Tx>) returns (ok: bool)
    modifies state
    ensures ReplayTxs(old(state.Value()), txs) == if ok then Done(state.Value()) else Raised(state.Value())
  {
    var i := 0;
    while i < |txs|
      invariant 0 <= i <= |txs|
      invariant ReplayTxs(old(state.Value()), txs) == ReplayTxs(state.Value(), txs[i..])
    {
      assert txs[i..][0] == txs[i] && txs[i..][1..] == txs[i + 1..];
      var applied := state.ApplyTx(txs[i]);
      if !applied {
        return false;
      }
      i := i + 1;
    }
    return true;
  }

  /** from_chain. */
  method FromChainByReplay(chain: seq<Block>) returns (cs: Option<ChainState>)
    ensures cs == FromChain(chain)
  {
    var state := new State();
    var i := 0;
    while i < |chain|
      invariant 0 <= i <= |chain|
      invariant Replay(chain[..i]) == Done(state.Value())
    {
      var b := chain[i];
      ReplayPrefix(chain, i);
      if b.height != 0 {
        var ok := ReplayInPlace(state, b.txs);
        if !ok {
          RaiseIsFinal(chain, i + 1);
          return None;
        }
        if HasBuilder(b) {
          ApplyBuilderReward(state, b.builder.value, b);
        }
      }
      i := i + 1;
    }
    assert chain[..i] == chain;
    return Some(ChainState(chain, state.Value(), CumulativeIterations(chain)));
  }

  lemma ReplayPrefix(chain: seq<Block>, i: nat)
    requires i < |chain| && Replay(chain[..i]).Done?
    ensures Replay(chain[..i + 1]) == ReplayBlock(LedgerOf(chain[..i]), chain[i])
  {
    assert chain[..i + 1][..i] == chain[..i];
  }

  lemma {:induction false} RaiseIsFinal(chain: seq<Block>, n: nat)
    requires n <= |chain| && Replay(chain[..n]).Raised?
    ensures Replay(chain).Raised?
    decreases |chain| - n
  {
    if n < |chain| {
      assert chain[..n + 1][..n] == chain[..n];
      RaiseIsFinal(chain, n + 1);
    } else {
      assert chain[..n] == chain;
    }
  }

  method FinishInPlace(cs: ChainState, b: Block, postTx: State) returns (next: ChainState)
    modifies postTx
    ensures next == Finish(cs, b, old(postTx.Value()))
  {
    if HasBuilder(b) {
      ApplyBuilderReward(postTx, b.builder.value, b);
    }
    return ChainState(cs.chain + [b], postTx.Value(), cs.work + b.vdfIterations);
  }

  /** snapshot of the held state, as a fresh object. */
  method SnapshotOf(l: Ledger) returns (s: State)
    ensures fresh(s) && s.Value() == l
  {
    s := new State.FromSnapshot(l.balances, l.nonces, l.minted);
  }

  /** apply_block. */
  method ApplyBlockToCopy(cs: ChainState, b: Block) returns (next: Option<ChainState>)
    ensures next == ApplyBlock(cs, b)
  {
    var postTx := SnapshotOf(cs.ledger);
    var ok := ReplayInPlace(postTx, b.txs);
    if !ok {
      return None;
    }
    var done := FinishInPlace(cs, b, postTx);
    return Some(done);
  }

  /** validate_and_apply: the transactions are applied once, by the validation itself. */
  method ValidateAndApplyOnProbe(e: Env, cs: ChainState, b: Block, now: Instant)
    returns (verdict: Verdict<BlockError>, next: ChainState)
    ensures (verdict, next) == ValidateAndApply(e, cs, b, now)
  {
    var probe := SnapshotOf(cs.ledger);
    verdict := ValidateInPlace(e, b, probe, cs.chain, now);
    if verdict.Reject? {
      return verdict, cs;
    }
    next := FinishInPlace(cs, b, probe);
  }
}
