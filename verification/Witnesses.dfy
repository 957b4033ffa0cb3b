/** Concrete inputs: that the hypotheses of the project can be met, and where the program falls short. */
module Witnesses {
  import opened Params
  import opened Prelude
  import opened Types
  import opened Ledgers
  import opened TxRules
  import opened Difficulty
  import opened BlockRules
  import opened Chains
  import opened Likeness
  import opened ForkChoice
  import opened Hashes
  import opened Stores
  import opened Chunks
  import opened Sync
  import opened Carriage
  import opened Packing
  import opened NodeMachine

  /** An environment without hash collisions in which every block header takes this many bytes. */
  function SizedEnv(size: nat): Env {
    PlainEnv().(headerSize := b => size)
  }

  lemma SizedEnvIsCollisionFree(size: nat)
    ensures CollisionFree(SizedEnv(size))
  {
    PlainEnvIsCollisionFree();
    assert SizedEnv(size).bodyHash == PlainEnv().bodyHash && SizedEnv(size).contentHash == PlainEnv().contentHash;
  }

  /** The next empty block on a chain. A peer that leaves tx_bytes out passes every check. */
  function NextBlock(e: Env, chain: seq<Block>, txBytes: Option<int>): Block
    requires chain != []
  {
    var tip := chain[|chain| - 1];
    var b := Block(tip.height + 1, tip.hash, tip.timestamp + TIMESTAMP_SKEW, [], Some("builder"), None, Some("output"),
                   Some("proof"), GetVdfIterations(chain), txBytes, "");
    b.(hash := BlockHash(e, b))
  }

  lemma NextExtends(size: nat, chain: seq<Block>, txBytes: Option<int>, l: Ledger)
    requires size <= BLOCK_SIZE_LIMIT && chain != [] && chain[|chain| - 1].height >= 0
    ensures Extends(SizedEnv(size), NextBlock(SizedEnv(size), chain, txBytes), l, chain)
  {
    hide BlockText, TxText, GetVdfIterations;
    var e := SizedEnv(size);
    var b := NextBlock(e, chain, txBytes);
    HashIsOwn(e, b.(hash := ""));
    assert b.txs == [] && TxListSize(e, b.txs) == 0;
    assert BlockSize(e, b) == size;
    hide BlockHash, BlockSize;
    assert CheckParent(b, chain).Accept? && CheckBuilderAndVdf(e, b, chain).Accept?;
    assert RunTxs(e, l, b.txs).Ran?;
  }

  lemma NextAccepted(cs: ChainState, txBytes: Option<int>, now: Instant)
    requires cs.chain != [] && cs.Tip().height >= 0 && cs.Tip().timestamp <= now
    ensures Accepted(SizedEnv(0), cs, NextBlock(SizedEnv(0), cs.chain, txBytes), now).Some?
  {
    var e := SizedEnv(0);
    var b := NextBlock(e, cs.chain, txBytes);
    assert b.timestamp <= now + TIMESTAMP_SKEW;
    NextExtends(0, cs.chain, txBytes, cs.ledger);
    hide SizedEnv, NextBlock, Extends;
    ValidateBlockMeaning(e, b, cs.ledger, cs.chain, now);
  }

  /** A first block without tx_bytes. */
  function BareBlock(size: nat): Block {
    var e := SizedEnv(size);
    NextBlock(e, [Genesis(e)], None)
  }

  lemma BareBlockIs(size: nat)
    ensures var b := BareBlock(size);
      b.height == 1 && b.timestamp == TIMESTAMP_SKEW && b.txBytes.None? && b.txs == []
  {
    hide BlockHash, NoParentHash;
  }

  lemma BareBlockExtends(size: nat)
    requires size <= BLOCK_SIZE_LIMIT
    ensures Extends(SizedEnv(size), BareBlock(size), EMPTY_LEDGER, [Genesis(SizedEnv(size))])
  {
    NextExtends(size, [Genesis(SizedEnv(size))], None, EMPTY_LEDGER);
  }

  lemma HashIsOwn(e: Env, b: Block)
    ensures var c := b.(hash := BlockHash(e, b)); c.hash == BlockHash(e, c)
  {
    assert b.(hash := BlockHash(e, b)).(hash := "") == b.(hash := "");
  }

  lemma BareChainIsValid(size: nat, now: Instant)
    requires size <= BLOCK_SIZE_LIMIT && now >= 0
    ensures
      var e, b := SizedEnv(size), BareBlock(size);
      ValidChain(e, [Genesis(e), b]) && Accepted(e, FromGenesis(e), b, now).Some? && b.txBytes.None?
  {
    BareBlockExtends(size);
    BareBlockIs(size);
    var e, b := SizedEnv(size), BareBlock(size);
    hide SizedEnv, BareBlock, Genesis, Extends;
    BareChainGrows(e, Genesis(e), b, now);
  }

  lemma {:induction false} BareChainGrows(e: Env, g: Block, b: Block, now: Instant)
    requires g == Genesis(e) && Extends(e, b, EMPTY_LEDGER, [g])
    requires b.height != 0 && b.timestamp <= now + TIMESTAMP_SKEW
    ensures ValidChain(e, [g, b]) && Accepted(e, FromGenesis(e), b, now).Some?
  {
    ReplayOfGenesis(e);
    assert [g] + [b] == [g, b];
    ValidChainGrows(e, [g], b);
    ValidateStep(e, [g], b, now);
    hide ValidChain, Extends;
  }

  /** What a restart does to the second block of such a chain: no peer accepts it as loaded, and no node that lacks
      it takes the chain. */
  lemma {:induction false} RestartBreaks(e: Env, chain: seq<Block>, peer: ChainState, held: ChainState,
                                         accepted: seq<Block>, now: Instant)
    requires BlockCollisionFree(e) && ValidChain(e, chain) && |chain| == 2 && chain[1].txBytes.None?
    requires Held(e, held, accepted) && held.chain != [] && ForkPoint(held.chain, chain, 0) <= 1
    ensures
      var loaded := Backfill(e, chain);
      && loaded[1] != chain[1] && Accepted(e, peer, loaded[1], now).None?
      && !Evaluate(e, held, loaded, now).Better?
  {
    hide ValidChain, Held, Evaluate, Accepted, IsBetter, FromChain;
    BackfilledIsRefused(e, chain, 1, peer, now);
    LoadedKeepsIff(e, chain, 1);
    RestartedOfferIff(e, held, accepted, chain, now);
  }

  /** The chain of genesis and that block is valid, and every node accepts the block. After a restart the node
      holds another block in its place, which every peer refuses, and no node that lacks it takes the chain. */
  lemma RestartBreaksBareBlock(peer: ChainState, held: ChainState, accepted: seq<Block>, now: Instant)
    requires now >= 0
    requires
      var e := SizedEnv(0);
      Held(e, held, accepted) && held.chain != [] && ForkPoint(held.chain, [Genesis(e), BareBlock(0)], 0) <= 1
    ensures
      var e, b := SizedEnv(0), BareBlock(0);
      var chain := [Genesis(e), b];
      && CollisionFree(e) && ValidChain(e, chain)
      && Accepted(e, FromGenesis(e), b, now).Some?
      && Backfill(e, chain)[1] != b && Accepted(e, peer, Backfill(e, chain)[1], now).None?
      && !Evaluate(e, held, Backfill(e, chain), now).Better?
  {
    SizedEnvIsCollisionFree(0);
    BareChainIsValid(0, now);
    hide SizedEnv, BareBlock, Genesis, ValidChain, Accepted, FromGenesis, Held, Evaluate;
    RestartBreaks(SizedEnv(0), [Genesis(SizedEnv(0)), BareBlock(0)], peer, held, accepted, now);
    hide Backfill;
  }

  /** Yet the block does not stand in the way of what comes after it: a node that has it already takes the chain of
      the restarted one, by the hash fields. */
  lemma SharedBareBlockPasses(now: Instant)
    requires now >= TIMESTAMP_SKEW
    ensures
      var e := SizedEnv(0);
      var shared := [Genesis(e), BareBlock(0)];
      var chain := shared + [NextBlock(e, shared, Some(0))];
      && CollisionFree(e) && ValidChain(e, chain) && !ValidBehindGenesis(e, Backfill(e, chain))
      && FromChain(shared).Some? && Evaluate(e, FromChain(shared).value, Backfill(e, chain), now).Better?
  {
    var e := SizedEnv(0);
    SizedEnvIsCollisionFree(0);
    BareChainIsValid(0, now);
    BareBlockIs(0);
    var shared := [Genesis(e), BareBlock(0)];
    NextExtends(0, shared, Some(0), LedgerOf(shared));
    NextIs(e, shared, Some(0));
    hide SizedEnv, BareBlock, Genesis, NextBlock, Extends, ValidChain, LedgerOf;
    SharedPasses(e, shared, NextBlock(e, shared, Some(0)), now);
  }

  lemma NextIs(e: Env, chain: seq<Block>, txBytes: Option<int>)
    requires chain != []
    ensures var b := NextBlock(e, chain, txBytes);
      && b.height == chain[|chain| - 1].height + 1 && b.timestamp == chain[|chain| - 1].timestamp + TIMESTAMP_SKEW
      && b.txBytes == txBytes && b.txs == [] && b.vdfIterations == GetVdfIterations(chain)
  {
  }

  lemma {:induction false} SharedPasses(e: Env, shared: seq<Block>, b: Block, now: Instant)
    requires BlockCollisionFree(e) && ValidChain(e, shared) && |shared| == 2 && shared[1].txBytes.None?
    requires b.height != 0 && b.txBytes.Some? && b.timestamp <= now + TIMESTAMP_SKEW
    requires Extends(e, b, LedgerOf(shared), shared)
    ensures ValidChain(e, shared + [b]) && !ValidBehindGenesis(e, Backfill(e, shared + [b]))
    ensures FromChain(shared).Some? && Evaluate(e, FromChain(shared).value, Backfill(e, shared + [b]), now).Better?
  {
    var chain := shared + [b];
    ValidChainGrows(e, shared, b);
    hide ValidChain, Extends, LedgerOf, FromChain, Evaluate, ValidBehindGenesis, BlockCollisionFree, Backfill, IsBetter;
    hide SameView, CumulativeIterations, AlikeAll;
    assert chain[1].txBytes.None?;
    RestartKeepsIff(e, chain);
    SharedForkPoint(shared, b);
    ExtensionTaken(e, shared, b, now);
  }

  lemma {:induction false} SharedForkPoint(shared: seq<Block>, b: Block)
    ensures ForkPoint(shared, shared + [b], 0) == |shared|
  {
    var chain := shared + [b];
    assert forall i :: 0 <= i < |shared| ==> shared[i].hash == chain[i].hash;
  }

  /** A node takes one block more with tx_bytes from a restarted one. */
  lemma {:induction false} ExtensionTaken(e: Env, shared: seq<Block>, b: Block, now: Instant)
    requires BlockCollisionFree(e) && ValidChain(e, shared) && ValidChain(e, shared + [b]) && shared != []
    requires b.txBytes.Some? && b.timestamp <= now + TIMESTAMP_SKEW
    requires ForkPoint(shared, shared + [b], 0) == |shared|
    ensures FromChain(shared).Some? && FromChain(shared).value.chain == shared
    ensures Evaluate(e, FromChain(shared).value, Backfill(e, shared + [b]), now).Better?
  {
    hide ValidChain, FromChain, Evaluate, BlockCollisionFree, Backfill, IsBetter, ForkPoint;
    var chain := shared + [b];
    KeptReplay(e, shared);
    KeptReplay(e, chain);
    var held := FromChain(shared).value;
    RestartedOfferIff(e, held, shared, chain, now);
    assert chain[|shared|..] == [b] && chain[..|shared|] == shared;
    hide Held;
    ExtensionIsBetter(e, FromChain(chain).value, |shared|, held);
  }

  lemma {:induction false} KeptReplay(e: Env, chain: seq<Block>)
    requires ValidChain(e, chain)
    ensures FromChain(chain).Some? && FromChain(chain).value.chain == chain && Held(e, FromChain(chain).value, chain)
    ensures FromChain(chain).value.work == CumulativeIterations(chain)
  {
    AlikeSelf(chain);
    ReplayedIsHeld(e, chain, chain);
  }

  // ------------------------------------------------------------------------ a block of one's own

  lemma NothingPacked(e: Env, tip: Block, builder: Address, iterations: int, now: Instant)
    ensures Packing.Assembled(e, tip, [], builder, iterations, None, now).txs == []
  {
    assert Senders([]) == [] && MapSeq([], GroupFrom([])) == [] && SortBy([], LeadKey(e)) == [];
    assert Groups(e, []) == [];
  }

  lemma EmptyIsMineable(e: Env, start: ChainState, builder: Address, iterations: int, now: Instant)
    requires start.chain != [] && IsAddress(e, builder) && iterations == GetVdfIterations(start.chain)
    requires e.vdfVerify(e.challenge(start.Tip().hash, builder), "output", "proof", iterations)
    requires now >= start.Tip().timestamp + 30 * SECOND && forall c: Block :: c.txs == [] ==> BlockSize(e, c) == 0
    ensures Mineable(e, start, [], builder, iterations, "output", "proof", now)
  {
    NothingPacked(e, start.Tip(), builder, iterations, now);
    hide Packing.Assembled, BlockHash, GetVdfIterations, BlockSize;
  }

  lemma NoBytes(c: Block)
    requires c.txs == []
    ensures BlockSize(SizedEnv(0), c) == 0
  {
    assert TxListSize(SizedEnv(0), []) == 0;
    hide PlainEnv;
  }

  /** A node on genesis with an empty pool can mine: its cycle commits a block. */
  lemma FirstBlockIsMineable(now: Instant)
    requires now >= TIMESTAMP_SKEW
    ensures
      var e := SizedEnv(0);
      Mineable(e, FromGenesis(e), [], "builder", VDF_ITERATIONS, "output", "proof", now)
  {
    var e := SizedEnv(0);
    var start := FromGenesis(e);
    assert start.chain == [Genesis(e)] && GetVdfIterations(start.chain) == VDF_ITERATIONS;
    assert IsAddress(e, "builder") && start.Tip().timestamp == 0;
    assert e.vdfVerify(e.challenge(start.Tip().hash, "builder"), "output", "proof", VDF_ITERATIONS);
    hide SizedEnv, PlainEnv, FromGenesis, Genesis, BlockSize, GetVdfIterations, IsAddress, Mineable;
    forall c: Block | c.txs == [] ensures BlockSize(e, c) == 0 {
      NoBytes(c);
    }
    EmptyIsMineable(e, start, "builder", VDF_ITERATIONS, now);
  }

  // ------------------------------------------------------------------------ offers that are not fair

  /** Against a node that holds genesis and one block, the offer of that block with one more iteration claimed and
      a block on top is adopted, and what is then held is no chain that was ever valid. */
  lemma ForgedOffer(now: Instant)
    requires now >= TIMESTAMP_SKEW
    ensures
      var e := SizedEnv(0);
      var chain := [Genesis(e), BareBlock(0)];
      var remote := Inflated(chain) + [NextBlock(e, Inflated(chain), Some(0))];
      && ValidChain(e, chain) && FromChain(chain).Some?
      && FromChain(remote).Some? && Evaluate(e, FromChain(chain).value, remote, now).Better?
      && forall accepted :: !Held(e, FromChain(remote).value, accepted)
  {
    var e := SizedEnv(0);
    SizedEnvIsCollisionFree(0);
    BareChainIsValid(0, now);
    BareBlockIs(0);
    var chain := [Genesis(e), BareBlock(0)];
    var forged := Inflated(chain);
    assert forged[1].height == 1 && forged[1].timestamp == TIMESTAMP_SKEW;
    NextIs(e, forged, Some(0));
    AlikeSelf(chain);
    hide SizedEnv, BareBlock, Genesis, NextBlock, ValidChain, Inflated;
    ReplayedIsHeld(e, chain, chain);
    if FromChain(forged).Some? {
      NextAccepted(FromChain(forged).value, Some(0), now);
    }
    hide FromChain, Accepted, Held;
    ForgedPrefixIsTaken(e, FromChain(chain).value, chain, NextBlock(e, forged, Some(0)), now);
  }

  /** A block of height 0, which needs no parent, builder or proof. */
  function ZeroBlock(e: Env): Block {
    var b := Block(0, "", TIMESTAMP_SKEW, [], None, None, None, None, 1, None, "");
    b.(hash := BlockHash(e, b))
  }

  lemma ZeroExtends(e: Env, l: Ledger)
    requires e == SizedEnv(0)
    ensures Extends(e, ZeroBlock(e), l, [Genesis(e)])
  {
    hide BlockText, TxText, NoParentHash;
    var b := ZeroBlock(e);
    HashIsOwn(e, b.(hash := ""));
    assert b.txs == [] && TxListSize(e, b.txs) == 0;
    assert BlockSize(e, b) == 0;
    hide BlockHash, BlockSize;
    assert RunTxs(e, l, b.txs).Ran?;
  }

  /** Against a node that holds genesis, the offer of genesis, a block of height 0 and one on top of that is
      adopted, and the stored chain then starts with another block. */
  lemma ZeroOffer(now: Instant)
    requires now >= TIMESTAMP_SKEW
    ensures
      var e := SizedEnv(0);
      var z := ZeroBlock(e);
      var b := NextBlock(e, [Genesis(e), z], Some(0));
      && Evaluate(e, FromGenesis(e), [Genesis(e), z, b], now).Better?
      && forall t, l, chain :: ValidChain(e, chain) ==> !Mirrors(e, Replaced(e, t, 1, [z, b], l), chain)
  {
    var e := SizedEnv(0);
    var z := ZeroBlock(e);
    ZeroExtends(e, EMPTY_LEDGER);
    ZeroIs(e);
    NextOnZero(now);
    hide *;
    ZeroAdopted(e, z, NextBlock(e, [Genesis(e), z], Some(0)), now);
  }

  lemma NextOnZero(now: Instant)
    requires now >= TIMESTAMP_SKEW
    ensures
      var e := SizedEnv(0);
      var chain := [Genesis(e), ZeroBlock(e)];
      var b := NextBlock(e, chain, Some(0));
      && b.height > 0 && b.txs == [] && b.vdfIterations > 0
      && forall cs: ChainState :: cs.chain == chain ==> Accepted(e, cs, b, now).Some?
  {
    var e := SizedEnv(0);
    var chain := [Genesis(e), ZeroBlock(e)];
    NextIs(e, chain, Some(0));
    assert GetVdfIterations(chain) > 0;
    ZeroIs(e);
    hide SizedEnv, NextBlock, ZeroBlock, Genesis, GetVdfIterations, Accepted;
    forall cs: ChainState | cs.chain == chain ensures Accepted(e, cs, NextBlock(e, chain, Some(0)), now).Some? {
      NextAccepted(cs, Some(0), now);
    }
  }

  lemma {:induction false} ZeroAdopted(e: Env, z: Block, b: Block, now: Instant)
    requires Extends(e, z, EMPTY_LEDGER, [Genesis(e)]) && z.timestamp <= now + TIMESTAMP_SKEW
    requires z.height == 0 && b.height > 0 && b.txs == [] && b.vdfIterations > 0
    requires forall cs: ChainState :: cs.chain == [Genesis(e), z] ==> Accepted(e, cs, b, now).Some?
    ensures FromGenesis(e).chain != [] && Evaluate(e, FromGenesis(e), [Genesis(e), z, b], now).Better?
    ensures forall t, l, chain :: ValidChain(e, chain) ==> !Mirrors(e, Replaced(e, t, 1, [z, b], l), chain)
  {
    hide Extends, Accepted, Genesis, Held, FromGenesis, FromChain, Evaluate, Mirrors, Replaced, TailFrom, ValidChain;
    ZeroTaken(e, z, b, now);
    assert [Genesis(e)] + [z, b] == [Genesis(e), z, b];
    GenesisIsOverwritten(e, FromGenesis(e), [Genesis(e)], z, b, now);
  }

  lemma {:induction false} ZeroTaken(e: Env, z: Block, b: Block, now: Instant)
    requires Extends(e, z, EMPTY_LEDGER, [Genesis(e)]) && z.timestamp <= now + TIMESTAMP_SKEW
    requires z.height == 0 && b.height > 0 && b.txs == []
    requires forall cs: ChainState :: cs.chain == [Genesis(e), z] ==> Accepted(e, cs, b, now).Some?
    ensures Held(e, FromGenesis(e), [Genesis(e)]) && FromGenesis(e).chain == [Genesis(e)]
    ensures FromChain([Genesis(e)]) == Some(FromGenesis(e))
    ensures TailFrom(e, FromGenesis(e), [z, b], now).Some? && FromChain([Genesis(e)] + [z, b]).Some?
  {
    var g, start := Genesis(e), FromGenesis(e);
    ReplayOfGenesis(e);
    assert start.chain == [g] && start.ledger == EMPTY_LEDGER;
    AlikeSelf([g]);
    hide ValidChain, FromGenesis, Genesis;
    ReplayedIsHeld(e, [g], [g]);
    ZeroReplays(g, z, b);
    hide FromChain, Held;
    ValidateBlockMeaning(e, z, EMPTY_LEDGER, [g], now);
    assert Accepted(e, start, z, now).Some? && [g] + [z] == [g, z];
    var next := Accepted(e, start, z, now).value;
    assert next.chain == [g, z];
    hide Accepted, Extends;
    assert [z, b][1..] == [b] && [b][1..] == [];
    TailFromStep(e, start, [z, b], now);
    TailFromStep(e, next, [b], now);
  }

  lemma ZeroIs(e: Env)
    ensures var z := ZeroBlock(e); z.height == 0 && z.timestamp == TIMESTAMP_SKEW && z.txs == []
  {
  }

  lemma ZeroReplays(g: Block, z: Block, b: Block)
    requires FromChain([g]).Some? && z.height == 0 && b.height > 0 && b.txs == []
    ensures FromChain([g] + [z, b]).Some?
  {
    SkippedBlock([g], z);
    ReplayStep([g] + [z], b);
    assert [g] + [z] + [b] == [g] + [z, b];
  }

  // ------------------------------------------------------------------------------- codes of pages

  /** Three bytes for a character. */
  function CharBytes(c: char): (r: Bytes)
    ensures |r| == 3
  {
    var n := c as int;
    [n / 65536 % 256, n / 256 % 256, n % 256]
  }

  lemma Digits(n: nat)
    ensures n == 65536 * (n / 65536) + 256 * (n / 256 % 256) + n % 256
  {
    assert n / 256 / 256 == n / 65536;
  }

  lemma CharDecides(c: char, d: char)
    requires CharBytes(c) == CharBytes(d)
    ensures c == d
  {
    Digits(c as int);
    Digits(d as int);
    assert CharBytes(c)[0] == CharBytes(d)[0];
    assert CharBytes(c)[1] == CharBytes(d)[1] && CharBytes(c)[2] == CharBytes(d)[2];
  }

  function TextBytes(s: string): (r: Bytes)
    ensures |r| == 3 * |s|
  {
    if s == "" then [] else CharBytes(s[0]) + TextBytes(s[1..])
  }

  lemma {:induction false} TextBytesDecide(s: string, t: string)
    requires TextBytes(s) == TextBytes(t)
    ensures s == t
  {
    assert |s| == |t|;
    if s != "" {
      assert TextBytes(s)[..3] == CharBytes(s[0]) && TextBytes(t)[..3] == CharBytes(t[0]);
      assert TextBytes(s)[3..] == TextBytes(s[1..]) && TextBytes(t)[3..] == TextBytes(t[1..]);
      CharDecides(s[0], t[0]);
      TextBytesDecide(s[1..], t[1..]);
      assert s == [s[0]] + s[1..] && t == [t[0]] + t[1..];
    }
  }

  function BlockTexts(page: seq<Block>): (r: seq<string>)
    ensures |r| == |page| && forall i :: 0 <= i < |page| ==> r[i] == BlockText(page[i])
  {
    seq(|page|, i requires 0 <= i < |page| => BlockText(page[i]))
  }

  /** A code of pages, none shorter than n bytes. */
  function PageBytes(n: nat, page: seq<Block>): (r: Bytes)
    ensures |r| >= n
  {
    seq(n, i => 0) + TextBytes(ListText(BlockTexts(page)))
  }

  lemma PageDecides(n: nat, a: seq<Block>, b: seq<Block>)
    requires PageBytes(n, a) == PageBytes(n, b)
    ensures a == b
  {
    assert PageBytes(n, a)[n..] == TextBytes(ListText(BlockTexts(a)));
    assert PageBytes(n, b)[n..] == TextBytes(ListText(BlockTexts(b)));
    TextBytesDecide(ListText(BlockTexts(a)), ListText(BlockTexts(b)));
    ListReads(BlockTexts(a), BlockTexts(b));
    forall i | 0 <= i < |a| ensures a[i] == b[i] {
      assert BlockTexts(a)[i] == BlockTexts(b)[i];
      BlockDecides(a[i], b[i]);
    }
  }

  /** The page that has this code, if there is one. */
  ghost function Decoded(n: nat, bytes: Bytes): Option<seq<Block>> {
    if exists page :: PageBytes(n, page) == bytes then
      var page :| PageBytes(n, page) == bytes;
      Some(page)
    else None
  }

  lemma DecodedIs(n: nat, page: seq<Block>)
    ensures Decoded(n, PageBytes(n, page)) == Some(page)
  {
    var bytes := PageBytes(n, page);
    assert PageBytes(n, page) == bytes;
    hide PageBytes;
    assert exists p :: PageBytes(n, p) == bytes;
    PageDecides(n, Decoded(n, bytes).value, page);
  }

  /** Every page comes back from its code. */
  lemma CodeExists(n: nat) returns (encode: seq<Block> -> Bytes, decode: Bytes -> Option<seq<Block>>)
    ensures forall page :: encode(page) == PageBytes(n, page)
    ensures forall page :: decode(encode(page)) == Some(page)
  {
    encode := page => PageBytes(n, page);
    decode := bytes => Decoded(n, bytes);
    forall page ensures decode(encode(page)) == Some(page) {
      DecodedIs(n, page);
    }
  }

  lemma LargeStays(e: Env, encode: seq<Block> -> Bytes, decode: Bytes -> Option<seq<Block>>, g: Block, b: Block)
    requires (forall page :: decode(encode(page)) == Some(page)) && Extends(e, b, EMPTY_LEDGER, [g])
    requires MESSAGE_LIMIT < BlockSize(e, b) <= |encode([b])|
    ensures BlockSize(e, b) <= BLOCK_SIZE_LIMIT
    ensures BestAnswer(encode, decode, [g, b], 1, 1) == Lost && !Lossless(BestLink(encode, decode, [g, b]))
  {
    hide Extends, BestAnswer, BlockSize;
    ValidBlockNotCarried(e, encode, decode, [g, b], 1, EMPTY_LEDGER, [g]);
    assert BestLink(encode, decode, [g, b])(0, 1, 1).Lost?;
  }

  lemma BareBlockSize(size: nat)
    ensures BlockSize(SizedEnv(size), BareBlock(size)) == size
  {
    hide BlockHash, Genesis;
    assert TxListSize(SizedEnv(size), []) == 0;
  }

  /** For every block size between the two limits: a valid chain of two blocks whose second, of that size, no
      sync can bring across, even if the network loses nothing. The code of a page is one that is no shorter than
      the block counts. */
  lemma LargeBlockStays(size: nat) returns (e: Env, encode: seq<Block> -> Bytes, decode: Bytes -> Option<seq<Block>>)
    requires MESSAGE_LIMIT < size <= BLOCK_SIZE_LIMIT
    ensures
      var b := BareBlock(size);
      var chain := [Genesis(e), b];
      && CollisionFree(e) && ValidChain(e, chain) && BlockSize(e, b) == size
      && (forall page :: decode(encode(page)) == Some(page))
      && BestAnswer(encode, decode, chain, 1, 1) == Lost && !Lossless(BestLink(encode, decode, chain))
  {
    hide *;
    e := SizedEnv(size);
    encode, decode := CodeExists(size);
    SizedEnvIsCollisionFree(size);
    BareChainIsValid(size, 0);
    BareBlockExtends(size);
    BareBlockSize(size);
    LargeStays(e, encode, decode, Genesis(e), BareBlock(size));
  }
}
