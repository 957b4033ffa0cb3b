/** src/chainstate.py: replay, incremental application and fork choice. */
module Chains {
  import opened Params
  import opened Prelude
  import opened Types
  import opened Ledgers
  import opened TxRules
  import opened Difficulty
  import opened BlockRules

  /** A chain with its ledger and its cumulative proven work. Never changed once built. */
  datatype ChainState = ChainState(chain: seq<Block>, ledger: Ledger, work: int) {
    function Tip(): Block
      requires chain != []
    {
      chain[|chain| - 1]
    }
  }

  /** The truth value of blk.get("builder"). */
  predicate HasBuilder(b: Block) {
    b.builder.Some? && b.builder.value != ""
  }

  /** _apply_builder_reward: fees first, then the freshly minted reward. */
  function RewardBuilder(l: Ledger, builder: Address, b: Block): Ledger {
    var fees := BlockFees(b);
    var paid := if fees > 0 then Credit(l, builder, fees).ledger else l;
    var reward := Reward(paid.minted);
    if reward >= 1 then Distribute(paid, [(builder, reward)]) else paid
  }

  function Settle(l: Ledger, b: Block): Ledger {
    if HasBuilder(b) then RewardBuilder(l, b.builder.value, b) else l
  }

  /** apply_tx on each transaction, without validation. */
  function ReplayTxs(l: Ledger, txs: seq<Tx>): Attempt
    decreases |txs|
  {
    if txs == [] then Done(l)
    else
      match ApplyTx(l, txs[0])
      case Raised(l1) => Raised(l1)
      case Done(l1) => ReplayTxs(l1, txs[1..])
  }

  /** One round of the from_chain loop. */
  function ReplayBlock(l: Ledger, b: Block): Attempt {
    if b.height == 0 then Done(l)
    else
      match ReplayTxs(l, b.txs)
      case Raised(l1) => Raised(l1)
      case Done(l1) => Done(Settle(l1, b))
  }

  function Replay(chain: seq<Block>): Attempt
    decreases |chain|
  {
    if chain == [] then Done(EMPTY_LEDGER)
    else
      match Replay(chain[..|chain| - 1])
      case Raised(l) => Raised(l)
      case Done(l) => ReplayBlock(l, chain[|chain| - 1])
  }

  /** _cumulative_iterations. */
  function CumulativeIterations(chain: seq<Block>): int {
    if chain == [] then 0
    else
      var last := chain[|chain| - 1];
      CumulativeIterations(chain[..|chain| - 1]) + if last.height > 0 then last.vdfIterations else 0
  }

  /** from_genesis. */
  function FromGenesis(e: Env): ChainState {
    ChainState([Genesis(e)], EMPTY_LEDGER, 0)
  }

  /** from_chain; None where the replay raises. */
  function FromChain(chain: seq<Block>): Option<ChainState> {
    match Replay(chain)
    case Raised(_) => None
    case Done(l) => Some(ChainState(chain, l, CumulativeIterations(chain)))
  }

  /** from_storage. */
  function FromStorage(chain: seq<Block>, stored: Ledger): ChainState {
    ChainState(chain, stored, CumulativeIterations(chain))
  }

  /** _apply_block_with_state. */
  function Finish(cs: ChainState, b: Block, postTx: Ledger): ChainState {
    ChainState(cs.chain + [b], Settle(postTx, b), cs.work + b.vdfIterations)
  }

  /** apply_block; None where a transaction raises. */
  function ApplyBlock(cs: ChainState, b: Block): Option<ChainState> {
    match ReplayTxs(cs.ledger, b.txs)
    case Raised(_) => None
    case Done(l) => Some(Finish(cs, b, l))
  }

  /** validate_and_apply: (verdict, new chain state), the old one being kept on refusal. */
  function ValidateAndApply(e: Env, cs: ChainState, b: Block, now: Instant): (Verdict<BlockError>, ChainState) {
    var checked := ValidateBlock(e, b, cs.ledger, cs.chain, now);
    if checked.verdict.Reject? then (checked.verdict, cs) else (Accept, Finish(cs, b, checked.ledger))
  }

  /** is_better_than: more proven work, then the smaller key of the tip. */
  predicate IsBetter(a: ChainState, b: ChainState)
    requires a.chain != [] && b.chain != []
  {
    if a.work != b.work then a.work > b.work
    else StringLess(TieBreakKey(a.Tip()), TieBreakKey(b.Tip()))
  }

  // -------------------------------------------------------------------------- fork choice order

  /** Fork choice is a strict order: nothing beats itself, and beating is transitive. */
  lemma IsBetterIsStrict(a: ChainState, b: ChainState, c: ChainState)
    requires a.chain != [] && b.chain != [] && c.chain != []
    ensures !IsBetter(a, a)
    ensures IsBetter(a, b) && IsBetter(b, c) ==> IsBetter(a, c)
    ensures IsBetter(a, b) ==> !IsBetter(b, a)
  {
    StringLessIrreflexive(TieBreakKey(a.Tip()));
    if IsBetter(a, b) && IsBetter(b, c) && a.work == b.work && b.work == c.work {
      StringLessTransitive(TieBreakKey(a.Tip()), TieBreakKey(b.Tip()), TieBreakKey(c.Tip()));
    }
    if IsBetter(a, b) && IsBetter(b, a) {
      StringLessTransitive(TieBreakKey(a.Tip()), TieBreakKey(b.Tip()), TieBreakKey(a.Tip()));
    }
  }

  /** Two chain states that differ are decided, unless work and tip key both tie. */
  lemma IsBetterDecides(a: ChainState, b: ChainState)
    requires a.chain != [] && b.chain != []
    ensures IsBetter(a, b) || IsBetter(b, a) || (a.work == b.work && TieBreakKey(a.Tip()) == TieBreakKey(b.Tip()))
  {
    StringLessTotal(TieBreakKey(a.Tip()), TieBreakKey(b.Tip()));
  }

  // -------------------------------------------------------------------------------- valid chains

  function Front(chain: seq<Block>): seq<Block>
    requires chain != []
  {
    chain[..|chain| - 1]
  }

  function LedgerOf(chain: seq<Block>): Ledger {
    Replay(chain).ledger
  }

  /** A chain every block of which was accepted in turn, clocks aside. Every block but the first has
      a non-zero height. */
  ghost predicate ValidChain(e: Env, chain: seq<Block>)
    decreases |chain|
  {
    if |chain| <= 1 then chain == [Genesis(e)]
    else
      var last := chain[|chain| - 1];
      ValidChain(e, Front(chain)) && last.height != 0 && Extends(e, last, LedgerOf(Front(chain)), Front(chain))
  }

  lemma {:induction false} PrefixIsValid(e: Env, chain: seq<Block>, n: nat)
    requires ValidChain(e, chain) && 0 < n <= |chain|
    ensures ValidChain(e, chain[..n])
    decreases |chain|
  {
    hide Extends, LedgerOf;
    if n < |chain| {
      PrefixIsValid(e, Front(chain), n);
      assert Front(chain)[..n] == chain[..n];
    } else {
      assert chain[..n] == chain;
    }
  }

  /** What ValidChain says of each block. */
  lemma {:induction false} BlockExtends(e: Env, chain: seq<Block>, i: nat)
    requires ValidChain(e, chain) && 0 < i < |chain|
    ensures ValidChain(e, chain[..i]) && chain[i].height != 0
    ensures Extends(e, chain[i], LedgerOf(chain[..i]), chain[..i])
  {
    hide Extends, LedgerOf;
    PrefixIsValid(e, chain, i);
    PrefixIsValid(e, chain, i + 1);
    assert Front(chain[..i + 1]) == chain[..i];
  }

  lemma FollowsParent(e: Env, b: Block, l: Ledger, chain: seq<Block>)
    requires Extends(e, b, l, chain) && b.height != 0
    ensures chain != [] && b.height == chain[|chain| - 1].height + 1 && b.previousHash == chain[|chain| - 1].hash
  {
  }

  /** A block's height is its position. */
  lemma {:induction false} HeightIsPosition(e: Env, chain: seq<Block>, i: nat)
    requires ValidChain(e, chain) && i < |chain|
    ensures chain[i].height == i
  {
    hide ValidChain, Extends, LedgerOf;
    if i > 0 {
      BlockExtends(e, chain, i);
      FollowsParent(e, chain[i], LedgerOf(chain[..i]), chain[..i]);
      HeightIsPosition(e, chain, i - 1);
    } else {
      StartsAtGenesis(e, chain);
    }
  }

  lemma {:induction false} StartsAtGenesis(e: Env, chain: seq<Block>)
    requires ValidChain(e, chain)
    ensures chain != [] && chain[0] == Genesis(e)
  {
    if |chain| > 1 {
      PrefixIsValid(e, chain, 1);
      assert chain[0] == chain[..1][0];
    }
  }

  lemma {:induction false} ValidFollowsRule(e: Env, chain: seq<Block>)
    requires ValidChain(e, chain)
    ensures FollowsRule(chain)
  {
    hide ValidChain, GetVdfIterations;
    FirstCount(e, chain);
    forall i | 0 < i < |chain| ensures chain[i].vdfIterations == GetVdfIterations(chain[..i]) {
      RuleAt(e, chain, i);
    }
  }

  lemma {:induction false} RuleAt(e: Env, chain: seq<Block>, i: nat)
    requires ValidChain(e, chain) && 0 < i < |chain|
    ensures chain[i].vdfIterations == GetVdfIterations(chain[..i])
  {
    hide ValidChain, GetVdfIterations, LedgerOf;
    BlockExtends(e, chain, i);
    hide IsAddress, BlockSize, RunTxs;
  }

  lemma TakenFrom(chain: seq<Block>, i: nat, k: int)
    requires 0 <= k < i <= |chain|
    ensures chain[..i][k] == chain[k]
  {
  }

  lemma {:induction false} FirstCount(e: Env, chain: seq<Block>)
    requires ValidChain(e, chain)
    ensures chain != [] && chain[0].vdfIterations == VDF_ITERATIONS
  {
    StartsAtGenesis(e, chain);
  }

  /** On every valid chain each block behind genesis is proven work on its parent's hash, and the work that decides
      between chains is the sum of what has been proven. */
  lemma {:induction false} WorkIsProven(e: Env, chain: seq<Block>, i: nat)
    requires ValidChain(e, chain) && 0 < i < |chain|
    ensures Proven(e, chain[i], chain[i - 1], chain[i].vdfIterations)
    ensures CumulativeIterations(chain[..1]) == 0
    ensures CumulativeIterations(chain[..i + 1]) == CumulativeIterations(chain[..i]) + chain[i].vdfIterations
  {
    hide ValidChain, Extends, LedgerOf, Proven;
    BlockExtends(e, chain, i);
    ExtendsProves(e, chain[i], LedgerOf(chain[..i]), chain[..i]);
    TakenFrom(chain, i, i - 1);
    HeightIsPosition(e, chain, i);
    HeightIsPosition(e, chain, 0);
    WorkGrows(chain, i);
  }

  lemma ExtendsProves(e: Env, b: Block, l: Ledger, chain: seq<Block>)
    requires Extends(e, b, l, chain) && b.height != 0
    ensures chain != [] && Proven(e, b, chain[|chain| - 1], b.vdfIterations)
  {
  }

  lemma WorkGrows(chain: seq<Block>, i: nat)
    requires 0 < i < |chain| && chain[0].height == 0 && chain[i].height > 0
    ensures CumulativeIterations(chain[..1]) == 0
    ensures CumulativeIterations(chain[..i + 1]) == CumulativeIterations(chain[..i]) + chain[i].vdfIterations
  {
    assert chain[..i + 1][..i] == chain[..i] && chain[..1] == [chain[0]] && chain[..1][..0] == [];
  }

  /** On every valid chain, at the end of every window the count moves as its timestamps ask, and between the ends
      it stays. */
  lemma {:induction false} EpochsRetarget(e: Env, chain: seq<Block>, i: nat)
    requires ValidChain(e, chain) && 0 < i < |chain|
    ensures i % INTERVAL == 0 ==> Retargeted(chain[..i], chain[i].vdfIterations)
    ensures i % INTERVAL != 0 ==> chain[i].vdfIterations == chain[i - i % INTERVAL].vdfIterations
  {
    hide ValidChain, GetVdfIterations, Retargeted;
    RuleAt(e, chain, i);
    if i % INTERVAL == 0 {
      RetargetMeaning(chain[..i]);
    } else {
      BetweenRetargets(chain[..i]);
      FirstCount(e, chain);
      TakenFrom(chain, i, i - i % INTERVAL);
    }
  }

  /** On every valid chain the constant-time difficulty lookup is the recomputation from genesis, and
      every block carries its epoch's count. */
  lemma {:induction false} ValidChainDifficulty(e: Env, chain: seq<Block>, i: nat)
    requires ValidChain(e, chain) && i < |chain|
    ensures GetVdfIterations(chain) == EpochIterations(chain, |chain| / INTERVAL)
    ensures chain[i].vdfIterations == EpochIterations(chain, i / INTERVAL)
    ensures VDF_ITERATIONS <= chain[i].vdfIterations <= GetVdfIterations(chain)
  {
    ValidFollowsRule(e, chain);
    LookupIsRecomputation(chain);
    BlockCarriesEpoch(chain, i);
    DifficultyNeverFalls(chain, i, i);
  }

  /** The work of a valid chain is the sum of all its blocks' counts but the first. */
  lemma {:induction false} ExtendingAddsWork(e: Env, chain: seq<Block>)
    requires ValidChain(e, chain) && |chain| > 1
    ensures CumulativeIterations(chain) == CumulativeIterations(Front(chain)) + chain[|chain| - 1].vdfIterations
    ensures chain[|chain| - 1].vdfIterations >= VDF_ITERATIONS
  {
    HeightIsPosition(e, chain, |chain| - 1);
    ValidChainDifficulty(e, chain, |chain| - 1);
  }

  lemma {:induction false} LongerHasMoreWork(e: Env, chain: seq<Block>, n: nat)
    requires ValidChain(e, chain) && 0 < n <= |chain|
    ensures CumulativeIterations(chain[..n]) + (|chain| - n) * VDF_ITERATIONS <= CumulativeIterations(chain)
    decreases |chain|
  {
    if n < |chain| {
      ExtendingAddsWork(e, chain);
      LongerHasMoreWork(e, Front(chain), n);
      assert Front(chain)[..n] == chain[..n];
    } else {
      assert chain[..n] == chain;
    }
  }

  /** Extending a valid chain always gives a better one. */
  lemma {:induction false} ExtensionIsBetter(e: Env, longer: ChainState, n: nat, shorter: ChainState)
    requires ValidChain(e, longer.chain) && 0 < n < |longer.chain|
    requires longer.work == CumulativeIterations(longer.chain)
    requires shorter.chain == longer.chain[..n] && shorter.work == CumulativeIterations(shorter.chain)
    ensures IsBetter(longer, shorter)
  {
    LongerHasMoreWork(e, longer.chain, n);
  }

  // ------------------------------------------------------- the four ways to a ledger, reconciled

  lemma {:induction false} RunIsReplay(e: Env, l: Ledger, txs: seq<Tx>)
    requires RunTxs(e, l, txs).Ran?
    ensures ReplayTxs(l, txs) == Done(RunTxs(e, l, txs).ledger)
    decreases |txs|
  {
    if txs != [] {
      ValidatedTxApplies(e, txs[0], l);
      RunIsReplay(e, ApplyTx(l, txs[0]).ledger, txs[1..]);
    }
  }

  /** Replaying a valid chain never raises, and each block continues from the ledger before it. */
  lemma {:induction false} ValidChainReplays(e: Env, chain: seq<Block>)
    requires ValidChain(e, chain)
    ensures Replay(chain).Done?
    ensures |chain| > 1 ==>
      LedgerOf(chain) == Settle(RunTxs(e, LedgerOf(Front(chain)), chain[|chain| - 1].txs).ledger, chain[|chain| - 1])
    decreases |chain|
  {
    if |chain| <= 1 {
      assert Replay([]) == Done(EMPTY_LEDGER);
      assert chain[..0] == [];
    } else {
      ValidChainReplays(e, Front(chain));
      RunIsReplay(e, LedgerOf(Front(chain)), chain[|chain| - 1].txs);
    }
  }

  /** Folding apply_block from genesis. */
  function FoldApply(e: Env, chain: seq<Block>): Option<ChainState>
    decreases |chain|
  {
    if |chain| <= 1 then Some(FromGenesis(e))
    else
      match FoldApply(e, chain[..|chain| - 1])
      case None => None
      case Some(cs) => ApplyBlock(cs, chain[|chain| - 1])
  }

  /** The chain state after an accepted block. */
  function Accepted(e: Env, cs: ChainState, b: Block, now: Instant): Option<ChainState> {
    var (verdict, next) := ValidateAndApply(e, cs, b, now);
    if verdict.Accept? then Some(next) else None
  }

  /** Folding validate_and_apply from genesis, block i being checked at clock(i). */
  function FoldValidate(e: Env, chain: seq<Block>, clock: nat -> Instant): Option<ChainState>
    decreases |chain|
  {
    if |chain| <= 1 then Some(FromGenesis(e))
    else
      match FoldValidate(e, chain[..|chain| - 1], clock)
      case None => None
      case Some(cs) => Accepted(e, cs, chain[|chain| - 1], clock(|chain| - 1))
  }

  lemma {:induction false} ReplayOfGenesis(e: Env)
    ensures FromChain([Genesis(e)]) == Some(FromGenesis(e))
    ensures ValidChain(e, [Genesis(e)])
  {
    var g := [Genesis(e)];
    assert g[..0] == [];
    assert Replay(g) == ReplayBlock(EMPTY_LEDGER, Genesis(e));
    assert CumulativeIterations(g) == 0;
  }

  /** Replaying one block more is apply_block, raising included. No validity is needed. */
  lemma ReplayStep(chain: seq<Block>, b: Block)
    requires b.height > 0
    ensures FromChain(chain + [b]) == if FromChain(chain).Some? then ApplyBlock(FromChain(chain).value, b) else None
  {
    var grown := chain + [b];
    assert grown[..|chain|] == chain && grown[|chain|] == b;
    assert Replay(grown) == if Replay(chain).Done? then ReplayBlock(LedgerOf(chain), b) else Replay(chain);
    assert CumulativeIterations(grown) == CumulativeIterations(chain) + b.vdfIterations;
  }

  /** Replay and apply_block agree on every chain whose blocks after genesis have positive heights. */
  lemma {:induction false} ReplayIsFoldApply(e: Env, chain: seq<Block>)
    requires chain != [] && chain[0] == Genesis(e)
    requires forall i :: 0 < i < |chain| ==> chain[i].height > 0
    ensures FromChain(chain) == FoldApply(e, chain)
    decreases |chain|
  {
    if |chain| == 1 {
      assert chain == [Genesis(e)];
      ReplayOfGenesis(e);
    } else {
      ReplayIsFoldApply(e, Front(chain));
      ReplayStep(Front(chain), chain[|chain| - 1]);
      assert chain == Front(chain) + [chain[|chain| - 1]];
    }
  }

  /** validate_and_apply on the state of a valid chain accepts exactly the blocks that make a longer
      valid chain and are not ahead of the clock, and yields what replaying that chain yields. */
  lemma {:induction false} ValidateStep(e: Env, chain: seq<Block>, b: Block, now: Instant)
    requires ValidChain(e, chain) && b.height != 0
    ensures FromChain(chain).Some?
    ensures var next := Accepted(e, FromChain(chain).value, b, now);
      && (next.Some? <==> ValidChain(e, chain + [b]) && b.timestamp <= now + TIMESTAMP_SKEW)
      && (next.Some? ==> next == FromChain(chain + [b]) && next == ApplyBlock(FromChain(chain).value, b))
  {
    ValidChainReplays(e, chain);
    var l := LedgerOf(chain);
    ValidateBlockMeaning(e, b, l, chain, now);
    ValidChainGrows(e, chain, b);
    if ValidateBlock(e, b, l, chain, now).verdict.Accept? {
      RunIsReplay(e, l, b.txs);
      HeightIsPosition(e, chain + [b], |chain|);
      ReplayStep(chain, b);
    }
  }

  lemma {:induction false} ValidChainGrows(e: Env, chain: seq<Block>, b: Block)
    requires chain != []
    ensures ValidChain(e, chain + [b])
       <==> ValidChain(e, chain) && b.height != 0 && Extends(e, b, LedgerOf(chain), chain)
  {
    assert Front(chain + [b]) == chain && (chain + [b])[|chain|] == b;
  }

  /** No block is ahead of the clock it was checked at. */
  ghost predicate InTime(chain: seq<Block>, clock: nat -> Instant) {
    forall i :: 0 < i < |chain| ==> chain[i].timestamp <= clock(i) + TIMESTAMP_SKEW
  }

  lemma InTimeStep(chain: seq<Block>, b: Block, clock: nat -> Instant)
    requires chain != []
    ensures InTime(chain + [b], clock)
       <==> InTime(chain, clock) && b.timestamp <= clock(|chain|) + TIMESTAMP_SKEW
  {
    var grown := chain + [b];
    assert grown[|chain|] == b;
    assert forall i :: 0 < i < |chain| ==> grown[i] == chain[i];
  }

  lemma {:induction false} FoldStep(e: Env, chain: seq<Block>, b: Block, clock: nat -> Instant)
    requires chain != []
    ensures var before := FoldValidate(e, chain, clock);
      FoldValidate(e, chain + [b], clock)
        == if before.Some? then Accepted(e, before.value, b, clock(|chain|)) else None
  {
    hide Accepted, FromGenesis;
    assert (chain + [b])[..|chain|] == chain;
  }

  lemma {:induction false} FoldBase(e: Env, chain: seq<Block>, clock: nat -> Instant)
    requires chain == [Genesis(e)]
    ensures ValidChain(e, chain) && InTime(chain, clock)
    ensures FoldValidate(e, chain, clock) == Some(FromGenesis(e)) == FromChain(chain)
  {
    ReplayOfGenesis(e);
  }

  /** Incremental validation from genesis accepts exactly the valid chains that are in time, and ends
      in what replay ends in. */
  lemma {:induction false} FoldValidateIsValidChain(e: Env, chain: seq<Block>, clock: nat -> Instant)
    requires chain != [] && chain[0] == Genesis(e)
    requires forall i :: 0 < i < |chain| ==> chain[i].height != 0
    ensures FoldValidate(e, chain, clock).Some? <==> ValidChain(e, chain) && InTime(chain, clock)
    ensures FoldValidate(e, chain, clock).Some? ==> FoldValidate(e, chain, clock) == FromChain(chain)
    decreases |chain|
  {
    if |chain| == 1 {
      FoldBase(e, chain, clock);
    } else {
      var n := |chain| - 1;
      assert chain == chain[..n] + [chain[n]];
      FoldValidateIsValidChain(e, chain[..n], clock);
      FoldValidateGrows(e, chain[..n], chain[n], clock);
    }
  }

  lemma {:induction false} FoldValidateGrows(e: Env, front: seq<Block>, last: Block, clock: nat -> Instant)
    requires front != [] && last.height != 0
    requires FoldValidate(e, front, clock).Some? <==> ValidChain(e, front) && InTime(front, clock)
    requires FoldValidate(e, front, clock).Some? ==> FoldValidate(e, front, clock) == FromChain(front)
    ensures var r := FoldValidate(e, front + [last], clock);
      && (r.Some? <==> ValidChain(e, front + [last]) && InTime(front + [last], clock))
      && (r.Some? ==> r == FromChain(front + [last]))
  {
    ValidChainGrows(e, front, last);
    InTimeStep(front, last, clock);
    FoldStep(e, front, last, clock);
    if ValidChain(e, front) {
      ValidateStep(e, front, last, clock(|front|));
    }
  }

  /** The four ways to the ledger of a valid chain agree: replay from scratch, incremental validation,
      incremental application, and the restored snapshot (through its getters). */
  lemma {:induction false} FourLedgersAgree(e: Env, chain: seq<Block>, clock: nat -> Instant)
    requires ValidChain(e, chain) && InTime(chain, clock)
    ensures FromChain(chain).Some?
    ensures FoldValidate(e, chain, clock) == FromChain(chain)
    ensures FoldApply(e, chain) == FromChain(chain)
    ensures var cs := FromChain(chain).value;
      var restored := FromStorage(chain, FromRows(SnapshotRows(cs.ledger), cs.ledger.minted));
      restored.chain == cs.chain && restored.work == cs.work && SameView(restored.ledger, cs.ledger)
  {
    PrefixIsValid(e, chain, 1);
    assert chain[..1] == [Genesis(e)];
    assert chain[0] == chain[..1][0];
    forall i | 0 < i < |chain| ensures chain[i].height > 0 {
      HeightIsPosition(e, chain, i);
    }
    FoldValidateIsValidChain(e, chain, clock);
    ReplayIsFoldApply(e, chain);
    SnapshotRestores(FromChain(chain).value.ledger);
  }

  /** A block of height 0 that would change nothing if it were not skipped. */
  predicate Idle(l: Ledger, b: Block) {
    b.vdfIterations == 0 && b.txs == [] && (!HasBuilder(b) || Reward(l.minted) < 1)
  }

  /** The domain condition is needed: of the blocks validate_and_apply accepts, replay agrees on exactly those
      with a non-zero height, and on blocks of height 0 that change nothing anyway. */
  lemma {:induction false} ReplayAgreesIff(e: Env, chain: seq<Block>, b: Block, now: Instant)
    requires ValidChain(e, chain)
    requires ValidateBlock(e, b, LedgerOf(chain), chain, now).verdict.Accept?
    ensures FromChain(chain).Some?
    ensures FromChain(chain + [b]) == Some(ValidateAndApply(e, FromChain(chain).value, b, now).1)
       <==> b.height != 0 || Idle(LedgerOf(chain), b)
  {
    ValidChainReplays(e, chain);
    if b.height != 0 {
      ValidateStep(e, chain, b, now);
      hide ValidChain, ValidateBlock, FromChain, Idle;
    } else {
      hide ValidChain;
      SkippedAgreesIff(e, chain, b, now);
    }
  }

  lemma {:induction false} SkippedAgreesIff(e: Env, chain: seq<Block>, b: Block, now: Instant)
    requires Replay(chain).Done? && b.height == 0
    requires ValidateBlock(e, b, LedgerOf(chain), chain, now).verdict.Accept?
    ensures FromChain(chain + [b]) == Some(ValidateAndApply(e, FromChain(chain).value, b, now).1)
       <==> Idle(LedgerOf(chain), b)
  {
    SkippedBlock(chain, b);
    ValidateBlockMeaning(e, b, LedgerOf(chain), chain, now);
    SettledIdle(e, LedgerOf(chain), b);
    hide Extends, ValidateBlock, Settle, RunTxs, Idle, Replay, CumulativeIterations;
  }

  /** Replay skips a block of height 0. */
  lemma {:induction false} SkippedBlock(chain: seq<Block>, b: Block)
    requires Replay(chain).Done? && b.height == 0
    ensures FromChain(chain + [b]) == Some(ChainState(chain + [b], LedgerOf(chain), CumulativeIterations(chain)))
  {
    var grown := chain + [b];
    assert grown[..|chain|] == chain && grown[|chain|] == b;
  }

  /** Applying an accepted block leaves ledger and work as they are exactly when the block is idle. */
  lemma {:induction false} SettledIdle(e: Env, l: Ledger, b: Block)
    requires RunTxs(e, l, b.txs).Ran?
    ensures Settle(RunTxs(e, l, b.txs).ledger, b) == l && b.vdfIterations == 0 <==> Idle(l, b)
  {
    var m := RunTxs(e, l, b.txs).ledger;
    if b.txs == [] {
      if HasBuilder(b) && Reward(l.minted) >= 1 {
        DistributeOne(l, b.builder.value, Reward(l.minted));
      }
    } else {
      var a := b.txs[0].from;
      RunNonces(e, l, b.txs, a);
      assert By(a)(b.txs[0]) && b.txs[0] in Filter(b.txs, By(a));
      assert m.Nonce(a) > l.Nonce(a);
      SettledNonce(m, b, a);
    }
  }

  lemma SettledNonce(l: Ledger, b: Block, a: Address)
    ensures Settle(l, b).Nonce(a) == l.Nonce(a)
  {
    if HasBuilder(b) {
      var builder := b.builder.value;
      var fees := BlockFees(b);
      var paid := if fees > 0 then Credit(l, builder, fees).ledger else l;
      if Reward(paid.minted) >= 1 {
        DistributeOne(paid, builder, Reward(paid.minted));
      }
    }
  }

  /** Such a block of height 0 exists: it escapes the parent and VDF checks. */
  lemma HeightZeroIsAccepted(e: Env, now: Instant)
    ensures var g := Genesis(e);
      var b := Block(0, "", g.timestamp + TIMESTAMP_SKEW, [], None, None, None, None, 1, None, "");
      var c := b.(hash := BlockHash(e, b));
      BlockSize(e, c) <= BLOCK_SIZE_LIMIT && g.timestamp <= now ==>
        && ValidateBlock(e, c, LedgerOf([g]), [g], now).verdict.Accept?
        && FromChain([g, c]) != Some(ValidateAndApply(e, FromGenesis(e), c, now).1)
  {
    var g := Genesis(e);
    var b := Block(0, "", g.timestamp + TIMESTAMP_SKEW, [], None, None, None, None, 1, None, "");
    var c := b.(hash := BlockHash(e, b));
    assert [g, c] == [g] + [c];
    assert FromGenesis(e).chain == [g];
    assert ValidChain(e, [g]);
    assert BlockHash(e, c) == BlockHash(e, b) by {
      assert c.(hash := "") == b.(hash := "");
    }
    ReplayOfGenesis(e);
    if BlockSize(e, c) <= BLOCK_SIZE_LIMIT && g.timestamp <= now {
      ReplayAgreesIff(e, [g], c, now);
    }
  }
}
