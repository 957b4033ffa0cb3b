/** Transactions, blocks, and the foreign functions (hashing, signatures, VDF, serialization)
    the node calls but does not define. */
module Types {
  import opened Prelude

  type Address = string
  type Hash = string

  /** A point in time or a span, in microseconds. */
  type Instant = int

  datatype Output = Output(to: Address, amount: int)

  datatype Tx = Tx(
    from: Address,
    pubkey: string,
    outputs: seq<Output>,
    nonce: int,
    fee: int,
    signature: string)

  datatype Block = Block(
    height: int,
    previousHash: Hash,
    timestamp: Instant,
    txs: seq<Tx>,
    builder: Option<Address>,
    message: Option<string>,
    vdfOutput: Option<string>,
    vdfProof: Option<string>,
    vdfIterations: int,
    txBytes: Option<int>,
    hash: Hash)

  /** The functions of src/crypto.py and src/vdf.py, left uninterpreted. Every statement of this
      project holds for whatever functions are put here. */
  datatype Env = Env(
    isWordPhrase: string -> bool,
    isHex: string -> bool,
    addressOf: string -> Address,
    signatureOk: Tx -> bool,
    bodyHash: Tx -> Hash,
    bodySize: Tx -> nat,
    jsonSize: Tx -> nat,
    contentHash: Block -> Hash,
    headerSize: Block -> nat,
    challenge: (Hash, Address) -> string,
    vdfVerify: (string, string, string, int) -> bool,
    genesisTimestamp: Instant,
    genesisMessage: string)

  /** is_valid_address: a phrase of dictionary words, so never the empty string. */
  predicate IsAddress(e: Env, s: string) {
    s != "" && e.isWordPhrase(s)
  }

  /** tx_hash: the signature is left out of what is hashed. */
  function TxHash(e: Env, t: Tx): Hash {
    e.bodyHash(t.(signature := ""))
  }

  /** tx_size: the fee-basis size, signature left out. */
  function TxSize(e: Env, t: Tx): nat {
    e.bodySize(t.(signature := ""))
  }

  /** fee_rate, as an exact rational. */
  function FeeRate(e: Env, t: Tx): real {
    var size := TxSize(e, t);
    t.fee as real / (if size > 1 then size else 1) as real
  }

  /** block_hash: every field but the hash itself. */
  function BlockHash(e: Env, b: Block): Hash {
    e.contentHash(b.(hash := ""))
  }

  /** Collision freedom, the one thing assumed of the two hash functions. Hashes.CollisionFreeExists gives
      functions that have it. */
  ghost predicate TxCollisionFree(e: Env) {
    forall t, u :: e.bodyHash(t) == e.bodyHash(u) ==> t == u
  }

  ghost predicate BlockCollisionFree(e: Env) {
    forall b, c :: e.contentHash(b) == e.contentHash(c) ==> b == c
  }

  ghost predicate CollisionFree(e: Env) {
    TxCollisionFree(e) && BlockCollisionFree(e)
  }
}
