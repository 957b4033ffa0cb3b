/** src/block.py: sizes, the genesis block, and the checks a block must pass. */
module BlockRules {
  import opened Params
  import opened Prelude
  import opened Types
  import opened Ledgers
  import opened TxRules
  import opened Difficulty

  /** "0" * 64. */
  function NoParentHash(): Hash {
    seq(64, _ => '0')
  }

  /** create_genesis. */
  function Genesis(e: Env): Block {
    var b := Block(0, NoParentHash(), e.genesisTimestamp,
                   [], None, Some(e.genesisMessage), None, None, VDF_ITERATIONS, None, "");
    b.(hash := BlockHash(e, b))
  }

  /** tx_size_in_block: one more byte for the comma before every element but the first. */
  function TxSizeInBlock(e: Env, t: Tx, position: nat): nat {
    e.jsonSize(t) + if position > 0 then 1 else 0
  }

  /** The bytes between the brackets of the transaction list. */
  function TxListSize(e: Env, txs: seq<Tx>): nat {
    if txs == [] then 0
    else TxListSize(e, txs[..|txs| - 1]) + TxSizeInBlock(e, txs[|txs| - 1], |txs| - 1)
  }

  /** block_size. */
  function BlockSize(e: Env, b: Block): nat {
    e.headerSize(b.(txs := [])) + TxListSize(e, b.txs)
  }

  /** block_fees. */
  function BlockFees(b: Block): int {
    TotalFees(b.txs)
  }

  /** tie_break_key: the VDF output, or the hash where it is missing or empty. */
  function TieBreakKey(b: Block): string {
    if b.vdfOutput.Some? && b.vdfOutput.value != "" then b.vdfOutput.value else b.hash
  }

  datatype BlockError =
    | TooLarge
    | HashMismatch
    | NoParent
    | WrongParent
    | WrongHeight
    | FutureTimestamp
    | EarlyTimestamp
    | BadBuilder
    | MissingVdf
    | WrongIterations
    | BadProof
    | InvalidTx(error: TxError)

  function CheckHash(e: Env, b: Block): Verdict<BlockError> {
    if b.hash != BlockHash(e, b) then Reject(HashMismatch) else Accept
  }

  function CheckParent(b: Block, chain: seq<Block>): Verdict<BlockError> {
    if b.height == 0 then Accept
    else if chain == [] then Reject(NoParent)
    else
      var parent := chain[|chain| - 1];
      if b.previousHash != parent.hash then Reject(WrongParent)
      else if b.height != parent.height + 1 then Reject(WrongHeight)
      else Accept
  }

  function CheckTimestamp(b: Block, chain: seq<Block>, now: Instant): Verdict<BlockError> {
    if b.timestamp > now + TIMESTAMP_SKEW then Reject(FutureTimestamp)
    else if chain != [] && b.timestamp < chain[|chain| - 1].timestamp + TIMESTAMP_SKEW then Reject(EarlyTimestamp)
    else Accept
  }

  /** _check_builder_and_vdf. It runs after CheckParent, which refuses height > 0 on an empty chain. */
  function CheckBuilderAndVdf(e: Env, b: Block, chain: seq<Block>): Verdict<BlockError>
    requires b.height != 0 ==> chain != []
  {
    if b.height == 0 then Accept
    else if !b.builder.Some? || !IsAddress(e, b.builder.value) then Reject(BadBuilder)
    else if !b.vdfOutput.Some? || !b.vdfProof.Some? then Reject(MissingVdf)
    else if b.vdfIterations != GetVdfIterations(chain) then Reject(WrongIterations)
    else if !e.vdfVerify(e.challenge(chain[|chain| - 1].hash, b.builder.value), b.vdfOutput.value,
                         b.vdfProof.value, b.vdfIterations) then Reject(BadProof)
    else Accept
  }

  /** A verdict, and what is left in the state object the check ran on. */
  datatype Checked = Checked(verdict: Verdict<BlockError>, ledger: Ledger)

  /** _apply_transactions. */
  function ApplyTransactions(e: Env, b: Block, l: Ledger): Checked {
    match RunTxs(e, l, b.txs)
    case Ran(l1) => Checked(Accept, l1)
    case Stopped(l1, err) => Checked(Reject(InvalidTx(err)), l1)
  }

  /** The checks that come before the transactions. */
  function CheckHeader(e: Env, b: Block, chain: seq<Block>, now: Instant): Verdict<BlockError> {
    if BlockSize(e, b) > BLOCK_SIZE_LIMIT then Reject(TooLarge)
    else if CheckHash(e, b).Reject? then CheckHash(e, b)
    else if CheckParent(b, chain).Reject? then CheckParent(b, chain)
    else if CheckTimestamp(b, chain, now).Reject? then CheckTimestamp(b, chain, now)
    else CheckBuilderAndVdf(e, b, chain)
  }

  /** validate. */
  function ValidateBlock(e: Env, b: Block, l: Ledger, chain: seq<Block>, now: Instant): Checked {
    if CheckHeader(e, b, chain, now).Reject? then Checked(CheckHeader(e, b, chain, now), l)
    else ApplyTransactions(e, b, l)
  }

  /** b passes every check that does not look at the clock, as the next block after chain, whose
      ledger is l. */
  ghost predicate Extends(e: Env, b: Block, l: Ledger, chain: seq<Block>) {
    && BlockSize(e, b) <= BLOCK_SIZE_LIMIT
    && b.hash == BlockHash(e, b)
    && CheckParent(b, chain).Accept?
    && (chain != [] ==> b.timestamp >= chain[|chain| - 1].timestamp + TIMESTAMP_SKEW)
    && CheckBuilderAndVdf(e, b, chain).Accept?
    && RunTxs(e, l, b.txs).Ran?
  }

  /** Validation accepts exactly the blocks that extend the chain and are not too far in the future,
      and leaves the probe with exactly the block's transactions applied. */
  lemma {:induction false} ValidateBlockMeaning(e: Env, b: Block, l: Ledger, chain: seq<Block>, now: Instant)
    ensures ValidateBlock(e, b, l, chain, now).verdict.Accept?
       <==> Extends(e, b, l, chain) && b.timestamp <= now + TIMESTAMP_SKEW
    ensures ValidateBlock(e, b, l, chain, now).verdict.Accept?
        ==> RunTxs(e, l, b.txs) == Ran(ValidateBlock(e, b, l, chain, now).ledger)
  {
  }

  /** b is a proven step on parent: it is linked to it, its builder is an address, and its output is proven to be
      what iterations rounds of the VDF make of the parent's hash and the builder. */
  ghost predicate Proven(e: Env, b: Block, parent: Block, iterations: int) {
    && b.height == parent.height + 1 && b.previousHash == parent.hash && b.vdfIterations == iterations
    && b.builder.Some? && b.builder.value != "" && e.isWordPhrase(b.builder.value)
    && b.vdfOutput.Some? && b.vdfProof.Some?
    && e.vdfVerify(e.challenge(parent.hash, b.builder.value), b.vdfOutput.value, b.vdfProof.value, iterations)
  }

  /** Validation in the fields of the block: what a block of height 0 must meet, and what any other. */
  lemma {:induction false} ValidateBlockIff(e: Env, b: Block, l: Ledger, chain: seq<Block>, now: Instant)
    ensures ValidateBlock(e, b, l, chain, now).verdict.Accept?
       <==> && BlockSize(e, b) <= 10_000_000 && b.hash == e.contentHash(b.(hash := ""))
            && b.timestamp <= now + 30 * SECOND && RunTxs(e, l, b.txs).Ran?
            && (chain != [] ==> b.timestamp >= chain[|chain| - 1].timestamp + 30 * SECOND)
            && (b.height != 0 ==> chain != [] && Proven(e, b, chain[|chain| - 1], GetVdfIterations(chain)))
  {
  }

  /** The first block, as every node has it. */
  lemma GenesisIs(e: Env)
    ensures
      var g := Genesis(e);
      && g.height == 0 && |g.previousHash| == 64 && (forall c :: c in g.previousHash ==> c == '0')
      && g.timestamp == e.genesisTimestamp && g.txs == [] && g.builder == None && g.message == Some(e.genesisMessage)
      && g.vdfOutput == None && g.vdfProof == None && g.vdfIterations == 12_200_000 && g.txBytes == None
      && g.hash == e.contentHash(g.(hash := "")) && TieBreakKey(g) == g.hash
  {
    var g := Genesis(e);
    assert g.(hash := "") == g.(hash := "").(hash := "");
  }
}
