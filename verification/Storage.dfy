/** src/storage.py: the persistent tables, and their agreement with the chain. */
module Stores {
  import opened Params
  import opened Prelude
  import opened Types
  import opened Ledgers
  import opened TxRules
  import opened BlockRules
  import opened Chains
  import opened ChainMethods
  import opened Conservation
  import opened PendingRun
  import opened Likeness
  import opened ForkChoice

  /** Block, State, Emission, TxIndex and AddrIndex, each a map from its primary key. */
  datatype Tables = Tables(
    blocks: map<int, Block>,
    rows: map<Address, (int, int)>,
    minted: Option<int>,
    txIndex: map<Hash, int>,
    addrIndex: map<(Address, Hash), int>)

  const NO_TABLES: Tables := Tables(map[], map[], None, map[], map[])

  /** The addresses a transaction is indexed under. */
  function Parties(t: Tx): set<Address> {
    {t.from} + set o | o in t.outputs :: o.to
  }

  /** The TxIndex rows of a block. */
  function TxRows(e: Env, b: Block): map<Hash, int> {
    map h | h in TxHashes(e, b.txs) :: b.height
  }

  /** The AddrIndex rows of the block's transactions. */
  function AddrRows(e: Env, height: int, txs: seq<Tx>): map<(Address, Hash), int> {
    if txs == [] then map[]
    else
      var t := txs[|txs| - 1];
      AddrRows(e, height, txs[..|txs| - 1]) + map a | a in Parties(t) :: (a, TxHash(e, t)) := height
  }

  /** _index_block: insert, ignoring keys already there. */
  function Indexed(e: Env, t: Tables, b: Block): Tables {
    t.(txIndex := TxRows(e, b) + t.txIndex, addrIndex := AddrRows(e, b.height, b.txs) + t.addrIndex)
  }

  function IndexedAll(e: Env, t: Tables, bs: seq<Block>): Tables
    decreases |bs|
  {
    if bs == [] then t else Indexed(e, IndexedAll(e, t, bs[..|bs| - 1]), bs[|bs| - 1])
  }

  /** _save_state_inner. */
  function WithState(t: Tables, l: Ledger): Tables {
    t.(rows := SnapshotRows(l), minted := Some(l.minted))
  }

  function InsertBlocks(blocks: map<int, Block>, bs: seq<Block>): map<int, Block>
    decreases |bs|
  {
    if bs == [] then blocks else InsertBlocks(blocks, bs[..|bs| - 1])[bs[|bs| - 1].height := bs[|bs| - 1]]
  }

  /** save_block_and_state. */
  function Saved(e: Env, t: Tables, b: Block, l: Ledger): Tables {
    WithState(Indexed(e, t.(blocks := t.blocks[b.height := b]), b), l)
  }

  /** The three deletes of replace_chain_and_state. */
  function CutFrom(t: Tables, fork: int): Tables {
    t.(blocks := map h | h in t.blocks && h < fork :: t.blocks[h],
       txIndex := map h | h in t.txIndex && t.txIndex[h] < fork :: t.txIndex[h],
       addrIndex := map k | k in t.addrIndex && t.addrIndex[k] < fork :: t.addrIndex[k])
  }

  /** replace_chain_and_state. */
  function Replaced(e: Env, t: Tables, fork: int, tail: seq<Block>, l: Ledger): Tables {
    var cut := CutFrom(t, fork);
    WithState(IndexedAll(e, cut.(blocks := InsertBlocks(cut.blocks, tail)), tail), l)
  }

  // ------------------------------------------------------------------ agreement with the chain

  ghost predicate InBlock(e: Env, b: Block, h: Hash) {
    exists t :: t in b.txs && TxHash(e, t) == h
  }

  ghost predicate Touches(e: Env, b: Block, k: (Address, Hash)) {
    exists t :: t in b.txs && TxHash(e, t) == k.1 && (k.0 == t.from || exists o :: o in t.outputs && o.to == k.0)
  }

  /** The stored blocks are the chain; the transaction index sends each hash to exactly the height of
      the block that contains it; the address index is what a full scan of the chain finds. */
  ghost predicate Mirrors(e: Env, t: Tables, chain: seq<Block>) {
    MirrorsBlocks(t.blocks, chain) && MirrorsTxs(e, t.txIndex, chain) && MirrorsAddrs(e, t.addrIndex, chain)
  }

  ghost predicate MirrorsBlocks(blocks: map<int, Block>, chain: seq<Block>) {
    && (forall i :: i in blocks <==> 0 <= i < |chain|)
    && (forall i :: 0 <= i < |chain| ==> blocks[i] == chain[i])
  }

  ghost predicate MirrorsTxs(e: Env, index: map<Hash, int>, chain: seq<Block>) {
    && (forall h :: h in index ==> 0 <= index[h] < |chain| && InBlock(e, chain[index[h]], h))
    && (forall h, i :: 0 <= i < |chain| && InBlock(e, chain[i], h) ==> h in index && index[h] == i)
  }

  ghost predicate MirrorsAddrs(e: Env, index: map<(Address, Hash), int>, chain: seq<Block>) {
    && (forall k :: k in index ==> 0 <= index[k] < |chain| && Touches(e, chain[index[k]], k))
    && (forall k, i :: 0 <= i < |chain| && Touches(e, chain[i], k) ==> k in index && index[k] == i)
  }

  /** The stored state restores to the ledger, or none has been stored yet. */
  ghost predicate KeepsState(t: Tables, l: Ledger) {
    t.rows == map[] || (t.rows == SnapshotRows(l) && t.minted == Some(l.minted))
  }

  lemma {:induction false} AddrRowsMeaning(e: Env, height: int, txs: seq<Tx>, k: (Address, Hash))
    ensures k in AddrRows(e, height, txs) <==> exists t :: t in txs && TxHash(e, t) == k.1 && k.0 in Parties(t)
    ensures k in AddrRows(e, height, txs) ==> AddrRows(e, height, txs)[k] == height
  {
    if txs != [] {
      var front, last := txs[..|txs| - 1], txs[|txs| - 1];
      AddrRowsMeaning(e, height, front, k);
      assert forall t :: t in txs <==> t in front || t == last by {
        assert txs == front + [last];
      }
    }
  }

  /** No hash of the block is on the chain already. */
  ghost predicate AllNew(e: Env, chain: seq<Block>, b: Block) {
    forall i, h :: 0 <= i < |chain| && InBlock(e, chain[i], h) ==> !InBlock(e, b, h)
  }

  lemma IndexingTxs(e: Env, index: map<Hash, int>, chain: seq<Block>, b: Block)
    requires MirrorsTxs(e, index, chain) && b.height == |chain| && AllNew(e, chain, b)
    ensures MirrorsTxs(e, TxRows(e, b) + index, chain + [b])
  {
    forall h ensures h in TxRows(e, b) <==> InBlock(e, b, h) {
      TxHashesContain(e, b.txs, h);
    }
    forall h | h in index ensures !InBlock(e, b, h) {
      assert InBlock(e, chain[index[h]], h);
    }
    hide InBlock, TxHashes, AllNew;
  }

  /** Every address row of b carries its height, and none is on the chain already. */
  lemma {:induction false} AddrRowsAreNew(e: Env, index: map<(Address, Hash), int>, chain: seq<Block>, b: Block)
    requires MirrorsAddrs(e, index, chain) && b.height == |chain| && AllNew(e, chain, b)
    ensures var rows := AddrRows(e, b.height, b.txs);
      && (forall k :: k in rows <==> Touches(e, b, k))
      && (forall k :: k in rows ==> rows[k] == |chain|)
    ensures forall k :: k in index ==> !Touches(e, b, k)
  {
    var rows := AddrRows(e, b.height, b.txs);
    forall k
      ensures k in rows <==> Touches(e, b, k)
      ensures k in rows ==> rows[k] == |chain|
    {
      AddrRowsMeaning(e, b.height, b.txs, k);
    }
    forall k | k in index ensures !Touches(e, b, k) {
      assert Touches(e, chain[index[k]], k);
      assert InBlock(e, chain[index[k]], k.1);
      assert !InBlock(e, b, k.1);
    }
  }

  lemma MergingAddrs(e: Env, rows: map<(Address, Hash), int>, index: map<(Address, Hash), int>, chain: seq<Block>,
                     b: Block)
    requires MirrorsAddrs(e, index, chain)
    requires forall k :: k in rows <==> Touches(e, b, k)
    requires forall k :: k in rows ==> rows[k] == |chain|
    requires forall k :: k in index ==> !Touches(e, b, k)
    ensures MirrorsAddrs(e, rows + index, chain + [b])
  {
  }

  lemma {:induction false} IndexingAddrs(e: Env, index: map<(Address, Hash), int>, chain: seq<Block>, b: Block)
    requires MirrorsAddrs(e, index, chain) && b.height == |chain| && AllNew(e, chain, b)
    ensures MirrorsAddrs(e, AddrRows(e, b.height, b.txs) + index, chain + [b])
  {
    AddrRowsAreNew(e, index, chain, b);
    MergingAddrs(e, AddrRows(e, b.height, b.txs), index, chain, b);
  }

  lemma IndexingMirrors(e: Env, t: Tables, chain: seq<Block>, b: Block)
    requires Mirrors(e, t, chain) && b.height == |chain| && AllNew(e, chain, b)
    ensures Mirrors(e, Indexed(e, t.(blocks := t.blocks[b.height := b]), b), chain + [b])
  {
    IndexingTxs(e, t.txIndex, chain, b);
    IndexingAddrs(e, t.addrIndex, chain, b);
    IndexingBlocks(t.blocks, chain, b);
    hide MirrorsTxs, MirrorsAddrs, MirrorsBlocks, AllNew;
  }

  lemma IndexingBlocks(blocks: map<int, Block>, chain: seq<Block>, b: Block)
    requires MirrorsBlocks(blocks, chain) && b.height == |chain|
    ensures MirrorsBlocks(blocks[b.height := b], chain + [b])
  {
  }

  lemma CuttingTxs(e: Env, index: map<Hash, int>, chain: seq<Block>, fork: nat)
    requires MirrorsTxs(e, index, chain) && fork <= |chain|
    ensures MirrorsTxs(e, map h | h in index && index[h] < fork :: index[h], chain[..fork])
  {
  }

  lemma CuttingAddrs(e: Env, index: map<(Address, Hash), int>, chain: seq<Block>, fork: nat)
    requires MirrorsAddrs(e, index, chain) && fork <= |chain|
    ensures MirrorsAddrs(e, map k | k in index && index[k] < fork :: index[k], chain[..fork])
  {
    hide Touches;
  }

  /** Deleting from a height on leaves the mirror of the chain below it. */
  lemma CuttingMirrors(e: Env, t: Tables, chain: seq<Block>, fork: nat)
    requires Mirrors(e, t, chain) && fork <= |chain|
    ensures Mirrors(e, CutFrom(t, fork), chain[..fork])
  {
    CuttingTxs(e, t.txIndex, chain, fork);
    CuttingAddrs(e, t.addrIndex, chain, fork);
    assert MirrorsBlocks(CutFrom(t, fork).blocks, chain[..fork]);
  }

  lemma {:induction false} OnChainTx(chain: seq<Block>, i: nat, t: Tx)
    requires i < |chain| && t in chain[i].txs
    ensures t in ChainTxs(chain)
  {
    if i < |chain| - 1 {
      OnChainTx(Front(chain), i, t);
    }
  }

  /** On a valid chain the last block's transactions are nowhere before it. */
  lemma {:induction false} LastIsNew(e: Env, chain: seq<Block>)
    requires ValidChain(e, chain) && |chain| > 1 && TxCollisionFree(e)
    ensures AllNew(e, Front(chain), chain[|chain| - 1])
  {
    var front, b := Front(chain), chain[|chain| - 1];
    forall i, h | 0 <= i < |front| && InBlock(e, front[i], h) ensures !InBlock(e, b, h) {
      var t :| t in front[i].txs && TxHash(e, t) == h;
      forall u | u in b.txs ensures TxHash(e, u) != h {
        if u.from == t.from {
          EarlierNonceIsSmaller(e, chain, i, t, u);
        }
        DifferentTxDifferentHash(e, t, u);
      }
    }
  }

  lemma {:induction false} EarlierNonceIsSmaller(e: Env, chain: seq<Block>, i: nat, t: Tx, u: Tx)
    requires ValidChain(e, chain) && |chain| > 1 && i < |chain| - 1
    requires t in chain[i].txs && u in chain[|chain| - 1].txs && t.from == u.from
    ensures t.nonce < u.nonce
  {
    var front, b, a := Front(chain), chain[|chain| - 1], t.from;
    OnChainTx(front, i, t);
    NonceSequence(e, front, a);
    assert By(a)(t) && t in SentBy(front, a);
    var j :| 0 <= j < |SentBy(front, a)| && SentBy(front, a)[j] == t;
    LastHasBuilder(e, chain);
    RunNonces(e, LedgerOf(front), b.txs, a);
    assert By(a)(u) && u in Filter(b.txs, By(a));
    var k :| 0 <= k < |Filter(b.txs, By(a))| && Filter(b.txs, By(a))[k] == u;
  }

  lemma MirrorsIgnoresState(e: Env, t: Tables, chain: seq<Block>, l: Ledger)
    requires Mirrors(e, t, chain)
    ensures Mirrors(e, WithState(t, l), chain) && KeepsState(WithState(t, l), l)
  {
  }

  /** A commit keeps the mirror. */
  lemma {:induction false} CommitMirrors(e: Env, t: Tables, chain: seq<Block>, b: Block, l: Ledger)
    requires TxCollisionFree(e) && Mirrors(e, t, chain) && chain != [] && ValidChain(e, chain + [b])
    ensures Mirrors(e, Saved(e, t, b, l), chain + [b]) && KeepsState(Saved(e, t, b, l), l)
  {
    NextIsNew(e, chain, b);
    IndexingMirrors(e, t, chain, b);
    MirrorsIgnoresState(e, Indexed(e, t.(blocks := t.blocks[b.height := b]), b), chain + [b], l);
  }

  lemma {:induction false} NextIsNew(e: Env, chain: seq<Block>, b: Block)
    requires TxCollisionFree(e) && chain != [] && ValidChain(e, chain + [b])
    ensures b.height == |chain| && AllNew(e, chain, b)
  {
    var grown := chain + [b];
    HeightIsPosition(e, grown, |chain|);
    LastIsNew(e, grown);
    assert Front(grown) == chain;
  }

  lemma {:induction false} IndexedBlocks(e: Env, t: Tables, bs: seq<Block>)
    ensures IndexedAll(e, t, bs).blocks == t.blocks
    decreases |bs|
  {
    if bs != [] {
      IndexedBlocks(e, t, bs[..|bs| - 1]);
    }
  }

  /** Whether the tail is inserted as a whole or block by block makes no difference to the indexes. */
  lemma {:induction false} IndexedIgnoresBlocks(e: Env, t: Tables, bs: seq<Block>, blocks: map<int, Block>)
    ensures IndexedAll(e, t.(blocks := blocks), bs) == IndexedAll(e, t, bs).(blocks := blocks)
    decreases |bs|
  {
    if bs != [] {
      IndexedIgnoresBlocks(e, t, bs[..|bs| - 1], blocks);
    }
  }

  /** The cut tables with bs inserted and indexed. */
  function Inserted(e: Env, cut: Tables, bs: seq<Block>): Tables {
    IndexedAll(e, cut.(blocks := InsertBlocks(cut.blocks, bs)), bs)
  }

  lemma InsertedStep(e: Env, cut: Tables, bs: seq<Block>, b: Block)
    ensures var before := Inserted(e, cut, bs);
      Inserted(e, cut, bs + [b]) == Indexed(e, before.(blocks := before.blocks[b.height := b]), b)
  {
    var all := bs + [b];
    assert all[..|all| - 1] == bs && all[|all| - 1] == b;
    var x := cut.(blocks := InsertBlocks(cut.blocks, bs));
    IndexedBlocks(e, x, bs);
    IndexedIgnoresBlocks(e, x, bs, InsertBlocks(cut.blocks, all));
    assert x.(blocks := InsertBlocks(cut.blocks, all)) == cut.(blocks := InsertBlocks(cut.blocks, all));
  }

  lemma InsertingOne(e: Env, cut: Tables, bs: seq<Block>, chain: seq<Block>, b: Block)
    requires b.height == |chain| && AllNew(e, chain, b)
    requires Mirrors(e, Inserted(e, cut, bs), chain)
    ensures Mirrors(e, Inserted(e, cut, bs + [b]), chain + [b])
  {
    InsertedStep(e, cut, bs, b);
    IndexingMirrors(e, Inserted(e, cut, bs), chain, b);
  }

  /** Block i sits at its height and brings only new transactions. */
  ghost predicate FreshAt(e: Env, chain: seq<Block>, i: nat)
    requires i < |chain|
  {
    chain[i].height == i && AllNew(e, chain[..i], chain[i])
  }

  lemma {:induction false} ValidIsFresh(e: Env, chain: seq<Block>, i: nat)
    requires TxCollisionFree(e) && ValidChain(e, chain) && 0 < i < |chain|
    ensures FreshAt(e, chain, i)
  {
    hide ValidChain, AllNew;
    PrefixIsValid(e, chain, i + 1);
    assert chain[..i + 1] == chain[..i] + [chain[i]];
    NextIsNew(e, chain[..i], chain[i]);
  }

  lemma {:induction false} InsertingMirrors(e: Env, cut: Tables, chain: seq<Block>, fork: nat, n: nat)
    requires fork <= n <= |chain|
    requires forall i :: fork <= i < |chain| ==> FreshAt(e, chain, i)
    requires Mirrors(e, cut, chain[..fork])
    ensures Mirrors(e, Inserted(e, cut, chain[fork..n]), chain[..n])
    decreases n
  {
    if n > fork {
      InsertingMirrors(e, cut, chain, fork, n - 1);
      assert FreshAt(e, chain, n - 1);
      assert chain[fork..n] == chain[fork..n - 1] + [chain[n - 1]];
      assert chain[..n] == chain[..n - 1] + [chain[n - 1]];
      InsertingOne(e, cut, chain[fork..n - 1], chain[..n - 1], chain[n - 1]);
    } else {
      assert chain[fork..n] == [];
    }
  }

  /** Replacing the chain from the fork point on keeps the mirror. */
  lemma {:induction false} ReplacementMirrors(e: Env, t: Tables, prior: seq<Block>, fork: nat, chain: seq<Block>,
                                              l: Ledger)
    requires TxCollisionFree(e) && ValidChain(e, chain) && Mirrors(e, t, prior)
    requires 0 < fork <= |prior| && fork <= |chain| && prior[..fork] == chain[..fork]
    ensures Mirrors(e, Replaced(e, t, fork, chain[fork..], l), chain)
    ensures KeepsState(Replaced(e, t, fork, chain[fork..], l), l)
  {
    CuttingMirrors(e, t, prior, fork);
    forall i | fork <= i < |chain| ensures FreshAt(e, chain, i) {
      ValidIsFresh(e, chain, i);
    }
    InsertingMirrors(e, CutFrom(t, fork), chain, fork, |chain|);
    assert chain[..|chain|] == chain && chain[fork..|chain|] == chain[fork..];
    MirrorsIgnoresState(e, Inserted(e, CutFrom(t, fork), chain[fork..]), chain, l);
  }

  /** The database after startup on an empty file: only genesis, and no state rows. */
  lemma GenesisMirrors(e: Env)
    ensures Mirrors(e, Indexed(e, NO_TABLES.(blocks := map[0 := Genesis(e)]), Genesis(e)), [Genesis(e)])
  {
    assert Mirrors(e, NO_TABLES, []);
    assert NO_TABLES.blocks[0 := Genesis(e)] == map[0 := Genesis(e)];
    IndexingMirrors(e, NO_TABLES, [], Genesis(e));
    assert [] + [Genesis(e)] == [Genesis(e)];
  }

  // ---------------------------------------------------------------------- blocks of height 0 in a tail

  lemma {:induction false} TimestampsRise(e: Env, chain: seq<Block>, i: nat)
    requires ValidChain(e, chain) && i < |chain|
    ensures chain[i].timestamp >= Genesis(e).timestamp
  {
    hide ValidChain, Genesis;
    if i == 0 {
      StartsFromGenesis(e, chain);
    } else {
      BlockExtends(e, chain, i);
      TimestampsRise(e, chain, i - 1);
    }
  }

  /** The height clause of FairOffer is needed. An offer that appends a block of height 0 and one on top of it to
      the held chain is adopted, its storage rows take the places of genesis and the block after it, and no table
      then mirrors a valid chain. */
  lemma {:induction false} GenesisIsOverwritten(e: Env, held: ChainState, accepted: seq<Block>, z: Block, b: Block,
                                                now: Instant)
    requires Held(e, held, accepted) && z.height == 0 && b.height != 0 && b.vdfIterations > 0
    requires
      var replayed := FromChain(held.chain);
      replayed.Some? ==> TailFrom(e, replayed.value, [z, b], now).Some?
    requires FromChain(held.chain + [z, b]).Some?
    ensures
      var n, remote := |held.chain|, held.chain + [z, b];
      && (forall i :: 0 <= i < |remote| ==> Genuine(e, remote[i]))
      && held.chain != [] && Evaluate(e, held, remote, now) == Better(n, [z, b], FromChain(remote).value)
      && forall t, l, chain :: ValidChain(e, chain) ==> !Mirrors(e, Replaced(e, t, n, [z, b], l), chain)
  {
    hide Held, Evaluate, Genuine, TailFrom, FromChain, Mirrors, Replaced, ValidChain;
    var n := |held.chain|;
    HeldNonEmpty(e, held, accepted);
    HeldReplays(e, held, accepted);
    ZeroTail(e, held, accepted, z, b, now);
    AppendedIsTaken(e, held, [z, b], now);
    forall t, l, chain ensures ValidChain(e, chain) ==> !Mirrors(e, Replaced(e, t, n, [z, b], l), chain) {
      RowZeroIs(e, t, n, z, b, l, chain);
    }
  }

  lemma HeldReplays(e: Env, held: ChainState, accepted: seq<Block>)
    requires Held(e, held, accepted)
    ensures FromChain(held.chain).Some? && FromChain(held.chain).value.chain == held.chain
    ensures FromChain(held.chain).value.work == held.work
    ensures held.chain != [] && held.Tip().timestamp >= Genesis(e).timestamp
    ensures forall i :: 0 <= i < |held.chain| ==> Genuine(e, held.chain[i])
  {
    hide ValidChain, SameView, FromChain, Genuine, Genesis, Alike, CumulativeIterations;
    HeldNonEmpty(e, held, accepted);
    ReplayedIsHeld(e, held.chain, accepted);
    TimestampsRise(e, accepted, |accepted| - 1);
    AlikeFields(held.Tip(), accepted[|accepted| - 1]);
    forall i | 0 <= i < |held.chain| ensures Genuine(e, held.chain[i]) {
      HeldIsGenuine(e, held, accepted, i);
    }
  }

  /** Such a tail: the block of height 0 is not genesis, and the one after it counts as work. */
  lemma {:induction false} ZeroTail(e: Env, held: ChainState, accepted: seq<Block>, z: Block, b: Block, now: Instant)
    requires Held(e, held, accepted) && z.height == 0 && b.height != 0 && b.vdfIterations > 0
    requires FromChain(held.chain).Some? && FromChain(held.chain).value.chain == held.chain
    requires FromChain(held.chain).value.work == held.work
    requires TailFrom(e, FromChain(held.chain).value, [z, b], now).Some? && FromChain(held.chain + [z, b]).Some?
    requires held.chain != [] && held.Tip().timestamp >= Genesis(e).timestamp
    ensures Genuine(e, z) && Genuine(e, b) && z != Genesis(e) && b.height == 1
    ensures FromChain(held.chain + [z, b]).value.work > held.work
  {
    var cs := FromChain(held.chain).value;
    assert [z, b][1..] == [b] && [b][1..] == [];
    TailFromStep(e, cs, [z, b], now);
    var next := Accepted(e, cs, z, now).value;
    TailFromStep(e, next, [b], now);
    hide TailFrom, Held;
    AcceptedExtends(e, cs, z, now);
    AcceptedExtends(e, next, b, now);
    hide Accepted, Genesis, FromChain;
    AlikeIsGenuine(e, z, z);
    AlikeIsGenuine(e, b, b);
    FollowsParent(e, b, next.ledger, next.chain);
    hide Extends, Genuine;
    ZeroWork(held.chain, z, b);
  }

  /** The skipped block adds no work, the one after it its own. */
  lemma ZeroWork(chain: seq<Block>, z: Block, b: Block)
    requires z.height == 0 && b.height > 0 && FromChain(chain).Some? && FromChain(chain + [z, b]).Some?
    ensures FromChain(chain + [z, b]).value.work == FromChain(chain).value.work + b.vdfIterations
  {
    SkippedBlock(chain, z);
    ReplayStep(chain + [z], b);
    assert chain + [z] + [b] == chain + [z, b];
  }

  lemma AcceptedExtends(e: Env, cs: ChainState, b: Block, now: Instant)
    requires Accepted(e, cs, b, now).Some?
    ensures Extends(e, b, cs.ledger, cs.chain) && Accepted(e, cs, b, now).value.chain == cs.chain + [b]
    ensures b.hash == BlockHash(e, b)
    ensures cs.chain != [] ==> b.timestamp >= cs.chain[|cs.chain| - 1].timestamp + TIMESTAMP_SKEW
  {
    ValidateBlockMeaning(e, b, cs.ledger, cs.chain, now);
  }

  lemma {:induction false} AppendedIsTaken(e: Env, held: ChainState, tail: seq<Block>, now: Instant)
    requires held.chain != [] && FromChain(held.chain).Some?
    requires TailFrom(e, FromChain(held.chain).value, tail, now).Some?
    requires FromChain(held.chain + tail).Some? && FromChain(held.chain + tail).value.work > held.work
    ensures Evaluate(e, held, held.chain + tail, now) == Better(|held.chain|, tail, FromChain(held.chain + tail).value)
  {
    var remote := held.chain + tail;
    var fork := ForkPoint(held.chain, remote, 0);
    assert forall i :: 0 <= i < |held.chain| ==> remote[i].hash == held.chain[i].hash;
    assert fork == |held.chain| && remote[..fork] == held.chain && remote[fork..] == tail;
    hide FromChain, Evaluate, TailFrom;
    EvaluateRest(e, held, remote, now);
  }

  lemma {:induction false} TwoInserted(blocks: map<int, Block>, z: Block, b: Block)
    requires z.height == 0 && b.height == 1
    ensures 0 in InsertBlocks(blocks, [z, b]) && InsertBlocks(blocks, [z, b])[0] == z
  {
    assert [z, b][..1] == [z];
    assert InsertBlocks(blocks, [z]) == InsertBlocks(blocks, [])[0 := z];
  }

  lemma {:induction false} MirrorStarts(e: Env, t: Tables, chain: seq<Block>)
    requires 0 in t.blocks && t.blocks[0] != Genesis(e)
    ensures ValidChain(e, chain) ==> !Mirrors(e, t, chain)
  {
    hide ValidChain, MirrorsTxs, MirrorsAddrs;
    if ValidChain(e, chain) {
      StartsFromGenesis(e, chain);
    }
  }

  /** After the replacement the row of height 0 is z. */
  lemma {:induction false} RowZeroIs(e: Env, t: Tables, n: nat, z: Block, b: Block, l: Ledger, chain: seq<Block>)
    requires z.height == 0 && b.height == 1 && z != Genesis(e)
    ensures ValidChain(e, chain) ==> !Mirrors(e, Replaced(e, t, n, [z, b], l), chain)
  {
    var cut := CutFrom(t, n);
    TwoInserted(cut.blocks, z, b);
    IndexedBlocks(e, cut.(blocks := InsertBlocks(cut.blocks, [z, b])), [z, b]);
    hide ValidChain, Mirrors, CutFrom, InsertBlocks, IndexedAll, SnapshotRows, Genesis;
    MirrorStarts(e, Replaced(e, t, n, [z, b], l), chain);
  }

  // ------------------------------------------------------------------------- whole runs, restart

  /** A commit of a block, or a replacement of everything from a fork point on. */
  datatype StoreOp = Commit(b: Block, after: Ledger) | Replace(fork: nat, newChain: seq<Block>, ledger: Ledger)

  function ChainAfter(chain: seq<Block>, op: StoreOp): seq<Block> {
    match op
    case Commit(b, _) => chain + [b]
    case Replace(_, newChain, _) => newChain
  }

  function TablesAfter(e: Env, t: Tables, op: StoreOp): Tables {
    match op
    case Commit(b, l) => Saved(e, t, b, l)
    case Replace(fork, newChain, l) => Replaced(e, t, fork, if fork <= |newChain| then newChain[fork..] else [], l)
  }

  ghost predicate OpAllowed(e: Env, chain: seq<Block>, op: StoreOp) {
    && ValidChain(e, ChainAfter(chain, op))
    && (op.Replace? ==>
          0 < op.fork <= |chain| && op.fork <= |op.newChain| && chain[..op.fork] == op.newChain[..op.fork])
  }

  function ChainAfterAll(chain: seq<Block>, ops: seq<StoreOp>): seq<Block>
    decreases |ops|
  {
    if ops == [] then chain else ChainAfter(ChainAfterAll(chain, ops[..|ops| - 1]), ops[|ops| - 1])
  }

  function TablesAfterAll(e: Env, t: Tables, ops: seq<StoreOp>): Tables
    decreases |ops|
  {
    if ops == [] then t else TablesAfter(e, TablesAfterAll(e, t, ops[..|ops| - 1]), ops[|ops| - 1])
  }

  /** After any run of commits and replacements through valid chains the tables mirror the chain. */
  lemma {:induction false} RunMirrors(e: Env, t: Tables, chain: seq<Block>, ops: seq<StoreOp>)
    requires TxCollisionFree(e) && chain != [] && Mirrors(e, t, chain)
    requires forall i :: 0 <= i < |ops| ==> OpAllowed(e, ChainAfterAll(chain, ops[..i]), ops[i])
    ensures ChainAfterAll(chain, ops) != []
    ensures Mirrors(e, TablesAfterAll(e, t, ops), ChainAfterAll(chain, ops))
    decreases |ops|
  {
    hide Mirrors, ValidChain;
    if ops != [] {
      var front, op := ops[..|ops| - 1], ops[|ops| - 1];
      forall i | 0 <= i < |front| ensures OpAllowed(e, ChainAfterAll(chain, front[..i]), front[i]) {
        assert front[..i] == ops[..i];
      }
      RunMirrors(e, t, chain, front);
      var held := ChainAfterAll(chain, front);
      assert OpAllowed(e, held, op);
      match op
      case Commit(b, l) => CommitMirrors(e, TablesAfterAll(e, t, front), held, b, l);
      case Replace(fork, newChain, l) => ReplacementMirrors(e, TablesAfterAll(e, t, front), held, fork, newChain, l);
    }
  }

  // ------------------------------------------------------------------------------------- restart

  function SumTxSizes(e: Env, txs: seq<Tx>): int {
    if txs == [] then 0 else SumTxSizes(e, txs[..|txs| - 1]) + TxSize(e, txs[|txs| - 1])
  }

  /** What _load_cs makes of a stored block: tx_bytes is filled in where it is missing. */
  function Backfilled(e: Env, b: Block): Block {
    if b.txBytes.None? then b.(txBytes := Some(SumTxSizes(e, b.txs))) else b
  }

  function Backfill(e: Env, chain: seq<Block>): (r: seq<Block>)
    ensures |r| == |chain| && forall i :: 0 <= i < |chain| ==> r[i] == Backfilled(e, chain[i])
  {
    seq(|chain|, i requires 0 <= i < |chain| => Backfilled(e, chain[i]))
  }

  /** _load_cs, once the blocks are read in height order: the snapshot if there is one, else replay. */
  function LoadCs(e: Env, t: Tables, stored: seq<Block>): Option<ChainState> {
    var chain := Backfill(e, stored);
    if t.rows != map[] then Some(FromStorage(chain, FromRows(t.rows, if t.minted.Some? then t.minted.value else 0)))
    else FromChain(chain)
  }

  lemma BackfillAlike(e: Env, chain: seq<Block>)
    ensures AlikeAll(Backfill(e, chain), chain)
  {
  }

  /** A loaded block is the stored one, and still carries its own hash, exactly when it had tx_bytes. */
  lemma BackfillKeepsIff(e: Env, b: Block)
    requires BlockCollisionFree(e) && b.hash == BlockHash(e, b)
    ensures Backfilled(e, b) == b <==> b.txBytes.Some?
    ensures Backfilled(e, b).hash == BlockHash(e, Backfilled(e, b)) <==> b.txBytes.Some?
  {
    if Backfilled(e, b).hash == BlockHash(e, Backfilled(e, b)) {
      SameHashSame(e, Backfilled(e, b), b);
    }
  }

  /** Genesis has got tx_bytes, all else is valid as it stands. */
  ghost predicate ValidBehindGenesis(e: Env, chain: seq<Block>) {
    chain != [] && Alike(chain[0], Genesis(e)) && ValidChain(e, [Genesis(e)] + chain[1..])
  }

  /** After a restart genesis never is what it was, and the held chain is never valid as it stands. Behind
      genesis the loaded blocks are the stored ones, and verify, exactly when each carried tx_bytes; only then
      is the chain valid but for genesis. */
  lemma {:induction false} RestartKeepsIff(e: Env, chain: seq<Block>)
    requires BlockCollisionFree(e) && ValidChain(e, chain)
    ensures
      var loaded := Backfill(e, chain);
      var complete := forall i :: 0 < i < |chain| ==> chain[i].txBytes.Some?;
      && loaded != [] && loaded[0] != Genesis(e) && loaded[0].hash != BlockHash(e, loaded[0])
      && !ValidChain(e, loaded)
      && (loaded[1..] == chain[1..] <==> complete)
      && ((forall i :: 0 < i < |chain| ==> loaded[i].hash == BlockHash(e, loaded[i])) <==> complete)
      && (ValidBehindGenesis(e, loaded) <==> complete)
  {
    var loaded := Backfill(e, chain);
    hide ValidChain, ValidBehindGenesis;
    StartsFromGenesis(e, chain);
    StartsFromGenesis(e, loaded);
    LoadedKeepsIff(e, chain, 0);
    ValidBehindGenesisIff(e, chain);
    LoadedBehindGenesis(e, chain);
  }

  lemma {:induction false} LoadedKeepsIff(e: Env, chain: seq<Block>, i: nat)
    requires BlockCollisionFree(e) && ValidChain(e, chain) && i < |chain|
    ensures Backfill(e, chain)[i] == chain[i] <==> chain[i].txBytes.Some?
    ensures Backfill(e, chain)[i].hash == BlockHash(e, Backfill(e, chain)[i]) <==> chain[i].txBytes.Some?
  {
    hide ValidChain;
    ValidHashes(e, chain, i);
    BackfillKeepsIff(e, chain[i]);
  }

  lemma {:induction false} LoadedBehindGenesis(e: Env, chain: seq<Block>)
    requires BlockCollisionFree(e) && ValidChain(e, chain) && chain != []
    ensures
      var loaded := Backfill(e, chain);
      var complete := forall i :: 0 < i < |chain| ==> chain[i].txBytes.Some?;
      && (loaded[1..] == chain[1..] <==> complete)
      && ((forall i :: 0 < i < |chain| ==> loaded[i].hash == BlockHash(e, loaded[i])) <==> complete)
  {
    var loaded := Backfill(e, chain);
    forall i | 0 < i < |chain|
      ensures loaded[i] == chain[i] <==> chain[i].txBytes.Some?
      ensures loaded[i].hash == BlockHash(e, loaded[i]) <==> chain[i].txBytes.Some?
    {
      LoadedKeepsIff(e, chain, i);
    }
    hide ValidChain, Backfilled, Backfill, BlockCollisionFree, BlockHash;
    SameTail(loaded, chain);
  }

  lemma SameTail(a: seq<Block>, b: seq<Block>)
    requires |a| == |b| > 0
    ensures a[1..] == b[1..] <==> forall i :: 0 < i < |b| ==> a[i] == b[i]
  {
    if a[1..] == b[1..] {
      forall i | 0 < i < |b| ensures a[i] == b[i] {
        assert a[1..][i - 1] == b[1..][i - 1];
      }
    }
  }

  lemma {:induction false} ValidBehindGenesisIff(e: Env, chain: seq<Block>)
    requires BlockCollisionFree(e) && ValidChain(e, chain)
    ensures ValidBehindGenesis(e, Backfill(e, chain)) <==> forall i :: 0 < i < |chain| ==> chain[i].txBytes.Some?
  {
    StartsFromGenesis(e, chain);
    if forall i :: 0 < i < |chain| ==> chain[i].txBytes.Some? {
      ProperIsChain(e, chain);
    }
    if ValidBehindGenesis(e, Backfill(e, chain)) {
      forall i | 0 < i < |chain| ensures chain[i].txBytes.Some? {
        BehindGenesisHasBytes(e, chain, i);
      }
    }
  }

  lemma ProperIsChain(e: Env, chain: seq<Block>)
    requires chain != [] && chain[0] == Genesis(e) && forall i :: 0 < i < |chain| ==> chain[i].txBytes.Some?
    ensures [Genesis(e)] + Backfill(e, chain)[1..] == chain
  {
    var proper := [Genesis(e)] + Backfill(e, chain)[1..];
    forall i | 0 < i < |chain| ensures proper[i] == chain[i] {
      assert proper[i] == Backfill(e, chain)[i];
    }
  }

  lemma {:induction false} BehindGenesisHasBytes(e: Env, chain: seq<Block>, i: nat)
    requires BlockCollisionFree(e) && ValidChain(e, chain) && ValidBehindGenesis(e, Backfill(e, chain))
    requires 0 < i < |chain|
    ensures chain[i].txBytes.Some?
  {
    var proper := [Genesis(e)] + Backfill(e, chain)[1..];
    hide ValidChain, Backfilled;
    assert proper[i] == Backfill(e, chain)[i];
    ValidHashes(e, proper, i);
    ValidHashes(e, chain, i);
    BackfillKeepsIff(e, chain[i]);
  }

  /** A peer on the same chain refuses a loaded block that had no tx_bytes. */
  lemma {:induction false} BackfilledIsRefused(e: Env, chain: seq<Block>, i: nat, peer: ChainState, now: Instant)
    requires BlockCollisionFree(e) && ValidChain(e, chain) && 0 < i < |chain| && chain[i].txBytes.None?
    ensures Accepted(e, peer, Backfill(e, chain)[i], now).None?
  {
    ValidHashes(e, chain, i);
    BackfillKeepsIff(e, chain[i]);
    ValidateBlockMeaning(e, Backfilled(e, chain[i]), peer.ledger, peer.chain, now);
  }

  /** The ledger, the work and, tx_bytes aside, the chain survive a restart. */
  lemma RestartRestores(e: Env, t: Tables, cs: ChainState, accepted: seq<Block>)
    requires Held(e, cs, accepted) && KeepsState(t, cs.ledger)
    ensures LoadCs(e, t, accepted).Some?
    ensures var r := LoadCs(e, t, accepted).value;
      r.chain == Backfill(e, accepted) && r.work == cs.work && SameView(r.ledger, cs.ledger) && Held(e, r, accepted)
  {
    BackfillAlike(e, accepted);
    ValidChainReplays(e, accepted);
    hide ValidChain, AlikeAll, Backfill, SnapshotRows, FromRows, Replay, CumulativeIterations;
    AlikeFromChain(Backfill(e, accepted), accepted);
    SnapshotRestores(cs.ledger);
    hide SameView;
    SameViewBothWays(cs.ledger, LedgerOf(accepted));
  }

  lemma SameViewBothWays(l: Ledger, m: Ledger)
    requires SameView(l, m)
    ensures SameView(m, l) && forall k :: SameView(k, l) ==> SameView(k, m)
  {
  }

  /** r is the rows of the table at these ascending heights. */
  ghost predicate ReadAt(blocks: map<int, Block>, r: seq<Block>, heights: seq<int>) {
    && |r| == |heights|
    && (forall h :: h in heights <==> h in blocks)
    && (forall i, j :: 0 <= i < j < |heights| ==> heights[i] < heights[j])
    && forall i :: 0 <= i < |r| ==> heights[i] in blocks && r[i] == blocks[heights[i]]
  }

  /** r is all rows of the table in ascending order of height. */
  ghost predicate InOrder(blocks: map<int, Block>, r: seq<Block>) {
    exists heights: seq<int> :: ReadAt(blocks, r, heights)
  }

  /** The rows of all addresses but those left. */
  ghost predicate RowsOf(l: Ledger, rows: map<Address, (int, int)>, left: set<Address>) {
    && left <= l.balances.Keys + l.nonces.Keys
    && rows.Keys == l.balances.Keys + l.nonces.Keys - left
    && forall a :: a in rows ==> rows[a] == (l.Balance(a), l.Nonce(a))
  }

  lemma RowsAreSnapshot(l: Ledger, rows: map<Address, (int, int)>)
    requires RowsOf(l, rows, {})
    ensures rows.Keys == l.balances.Keys + l.nonces.Keys
    ensures forall a :: a in rows ==> rows[a] == (l.Balance(a), l.Nonce(a))
    ensures rows == SnapshotRows(l) && SameView(FromRows(rows, l.minted), l)
  {
    SnapshotRestores(l);
    hide SameView;
    assert rows == SnapshotRows(l);
  }

  lemma OneRowMore(l: Ledger, rows: map<Address, (int, int)>, left: set<Address>, a: Address)
    requires RowsOf(l, rows, left) && a in left
    ensures RowsOf(l, rows[a := (l.Balance(a), l.Nonce(a))], left - {a})
  {
  }

  // -------------------------------------------------------------------------- the Storage object

  class Storage {
    const env: Env
    var tables: Tables

    constructor (env: Env)
      ensures this.env == env && tables == NO_TABLES
    {
      this.env := env;
      tables := NO_TABLES;
    }

    /** _index_block: collect the rows, then insert them, ignoring conflicts. */
    method IndexBlock(b: Block)
      modifies this
      ensures tables == Indexed(env, old(tables), b)
    {
      assert TxHashes(env, b.txs[..0]) == [] && AddrRows(env, b.height, b.txs[..0]) == map[];
      hide AddrRows, TxHashes;
      var txRows: map<Hash, int> := map[];
      var addrRows: map<(Address, Hash), int> := map[];
      var i := 0;
      while i < |b.txs|
        invariant 0 <= i <= |b.txs|
        invariant txRows == map h | h in TxHashes(env, b.txs[..i]) :: b.height
        invariant addrRows == AddrRows(env, b.height, b.txs[..i])
        invariant tables == old(tables)
      {
        var t := b.txs[i];
        var h := TxHash(env, t);
        RowsAppend(env, b.height, b.txs[..i], t);
        assert b.txs[..i + 1] == b.txs[..i] + [t];
        txRows := txRows[h := b.height];
        addrRows := addrRows + map a | a in Parties(t) :: (a, h) := b.height;
        i := i + 1;
      }
      assert b.txs[..i] == b.txs;
      tables := tables.(txIndex := txRows + tables.txIndex, addrIndex := addrRows + tables.addrIndex);
    }

    /** save_block. */
    method SaveBlock(b: Block)
      modifies this
      ensures tables == Indexed(env, old(tables).(blocks := old(tables).blocks[b.height := b]), b)
    {
      tables := tables.(blocks := tables.blocks[b.height := b]);
      IndexBlock(b);
    }

    /** _save_state_inner: the state rows are replaced by one row for each address that has a balance or a
        nonce. Loading them gives a ledger no getter can tell from l. */
    method SaveStateInner(l: Ledger)
      modifies this
      ensures tables.rows.Keys == l.balances.Keys + l.nonces.Keys
      ensures forall a :: a in tables.rows ==> tables.rows[a] == (l.Balance(a), l.Nonce(a))
      ensures tables == old(tables).(rows := tables.rows, minted := Some(l.minted))
      ensures SameView(FromRows(tables.rows, l.minted), l) && KeepsState(tables, l)
    {
      var rows: map<Address, (int, int)> := map[];
      var left := l.balances.Keys + l.nonces.Keys;
      assert RowsOf(l, rows, left);
      hide RowsOf;
      while left != {}
        invariant RowsOf(l, rows, left) && tables == old(tables)
        decreases |left|
      {
        var a: Address :| a in left;
        OneRowMore(l, rows, left, a);
        rows := rows[a := (l.Balance(a), l.Nonce(a))];
        left := left - {a};
      }
      RowsAreSnapshot(l, rows);
      tables := tables.(rows := rows, minted := Some(l.minted));
    }

    /** save_block_and_state: one transaction. */
    method SaveBlockAndState(b: Block, l: Ledger)
      modifies this
      ensures tables == Saved(env, old(tables), b, l)
    {
      tables := tables.(blocks := tables.blocks[b.height := b]);
      IndexBlock(b);
      SaveStateInner(l);
    }

    /** replace_chain_and_state: one transaction. */
    method ReplaceChainAndState(fork: int, tail: seq<Block>, l: Ledger)
      modifies this
      ensures tables == Replaced(env, old(tables), fork, tail, l)
    {
      tables := CutFrom(tables, fork);
      tables := tables.(blocks := InsertBlocks(tables.blocks, tail));
      ghost var start := tables;
      var i := 0;
      while i < |tail|
        invariant 0 <= i <= |tail|
        invariant tables == IndexedAll(env, start, tail[..i])
      {
        assert tail[..i + 1][..i] == tail[..i];
        IndexBlock(tail[i]);
        i := i + 1;
      }
      assert tail[..i] == tail;
      SaveStateInner(l);
    }

    /** load_all_blocks: the stored blocks in ascending order of height. */
    method LoadAllBlocks() returns (r: seq<Block>)
      ensures InOrder(tables.blocks, r)
    {
      r := [];
      ghost var heights: seq<int> := [];
      var left := tables.blocks.Keys;
      while left != {}
        invariant left <= tables.blocks.Keys && |r| == |heights|
        invariant forall h :: h in heights <==> h in tables.blocks && h !in left
        invariant forall i, j :: 0 <= i < j < |heights| ==> heights[i] < heights[j]
        invariant forall i, h :: 0 <= i < |heights| && h in left ==> heights[i] < h
        invariant forall i :: 0 <= i < |r| ==> heights[i] in tables.blocks && r[i] == tables.blocks[heights[i]]
        decreases left
      {
        LeastExists(left);
        var h :| h in left && forall k :: k in left ==> h <= k;
        r := r + [tables.blocks[h]];
        heights := heights + [h];
        left := left - {h};
      }
      assert ReadAt(tables.blocks, r, heights);
    }
  }

  /** The loop of _load_cs that fills in tx_bytes. */
  method BackfillTxBytes(e: Env, stored: seq<Block>) returns (r: seq<Block>)
    ensures r == Backfill(e, stored)
    ensures |r| == |stored| && forall i :: 0 <= i < |r| ==>
      r[i] == if stored[i].txBytes.Some? then stored[i] else stored[i].(txBytes := Some(SumTxSizes(e, stored[i].txs)))
  {
    r := [];
    var i := 0;
    while i < |stored|
      invariant 0 <= i <= |stored| && r == Backfill(e, stored[..i])
    {
      var b := stored[i];
      if b.txBytes.None? {
        var sum, k := 0, 0;
        while k < |b.txs|
          invariant 0 <= k <= |b.txs| && sum == SumTxSizes(e, b.txs[..k])
        {
          assert b.txs[..k + 1][..k] == b.txs[..k];
          sum := sum + TxSize(e, b.txs[k]);
          k := k + 1;
        }
        assert b.txs[..k] == b.txs;
        b := b.(txBytes := Some(sum));
      }
      r := r + [b];
      i := i + 1;
    }
    assert stored[..i] == stored;
  }

  /** _load_cs past the empty database. */
  method LoadedCs(e: Env, storage: Storage, stored: seq<Block>) returns (cs: ChainState)
    requires LoadCs(e, storage.tables, stored).Some?
    ensures cs == LoadCs(e, storage.tables, stored).value
  {
    var chain := BackfillTxBytes(e, stored);
    var t := storage.tables;
    if t.rows != map[] {
      return FromStorage(chain, FromRows(t.rows, if t.minted.Some? then t.minted.value else 0));
    }
    var replayed := FromChainByReplay(chain);
    return replayed.value;
  }

  /** Saving what was loaded changes no row. */
  lemma SavedAsLoaded(t: Tables)
    requires t.rows != map[] && t.minted.Some?
    ensures KeepsState(t, FromRows(t.rows, t.minted.value))
  {
    assert SnapshotRows(FromRows(t.rows, t.minted.value)) == t.rows;
  }

  lemma {:induction false} HashesAppend(e: Env, txs: seq<Tx>, t: Tx)
    ensures TxHashes(e, txs + [t]) == TxHashes(e, txs) + [TxHash(e, t)]
  {
    if txs == [] {
      assert [] + [t] == [t] && [t][1..] == [];
    } else {
      assert (txs + [t])[1..] == txs[1..] + [t];
      HashesAppend(e, txs[1..], t);
    }
  }

  lemma {:induction false} HashRowsAppend(e: Env, height: int, txs: seq<Tx>, t: Tx)
    ensures (map h | h in TxHashes(e, txs + [t]) :: height)
         == (map h | h in TxHashes(e, txs) :: height)[TxHash(e, t) := height]
  {
    HashesAppend(e, txs, t);
    RowsOfOneMore(TxHashes(e, txs), TxHash(e, t), height);
  }

  lemma RowsOfOneMore(hashes: seq<Hash>, h: Hash, height: int)
    ensures (map k | k in hashes + [h] :: height) == (map k | k in hashes :: height)[h := height]
  {
  }

  lemma {:induction false} AddrRowsAppend(e: Env, height: int, txs: seq<Tx>, t: Tx)
    ensures AddrRows(e, height, txs + [t])
         == AddrRows(e, height, txs) + map a | a in Parties(t) :: (a, TxHash(e, t)) := height
  {
    assert (txs + [t])[..|txs|] == txs;
  }

  /** The rows of one more transaction. */
  lemma {:induction false} RowsAppend(e: Env, height: int, txs: seq<Tx>, t: Tx)
    ensures (map h | h in TxHashes(e, txs + [t]) :: height)
         == (map h | h in TxHashes(e, txs) :: height)[TxHash(e, t) := height]
    ensures AddrRows(e, height, txs + [t])
         == AddrRows(e, height, txs) + map a | a in Parties(t) :: (a, TxHash(e, t)) := height
  {
    HashRowsAppend(e, height, txs, t);
    AddrRowsAppend(e, height, txs, t);
  }

  /** Strictly ascending heights that are exactly 0 to n - 1 are 0, 1, 2, ... */
  lemma {:induction false} AscendingPrefix(heights: seq<int>, n: nat, k: nat)
    requires forall h :: h in heights <==> 0 <= h < n
    requires forall a, b :: 0 <= a < b < |heights| ==> heights[a] < heights[b]
    requires k <= n
    ensures k <= |heights| && forall i :: 0 <= i < k ==> heights[i] == i
    decreases k
  {
    if k > 0 {
      AscendingPrefix(heights, n, k - 1);
      assert k - 1 in heights;
      var j :| 0 <= j < |heights| && heights[j] == k - 1;
      assert j >= k - 1;
      assert heights[k - 1] <= heights[j];
      assert heights[k - 1] in heights;
      if k > 1 {
        assert heights[k - 2] < heights[k - 1];
      }
    }
  }

  lemma {:induction false} AscendingFloor(heights: seq<int>, i: nat)
    requires i < |heights| && forall h :: h in heights ==> h >= 0
    requires forall a, b :: 0 <= a < b < |heights| ==> heights[a] < heights[b]
    ensures heights[i] >= i
  {
    assert heights[i] in heights;
    if i > 0 {
      AscendingFloor(heights, i - 1);
    }
  }

  /** Reading a mirror in ascending order of height gives back the chain. */
  lemma LoadingGivesChain(e: Env, t: Tables, chain: seq<Block>, r: seq<Block>)
    requires Mirrors(e, t, chain) && InOrder(t.blocks, r)
    ensures r == chain
  {
    var heights :| ReadAt(t.blocks, r, heights);
    hide MirrorsTxs, MirrorsAddrs, InOrder;
    ReadInOrder(t.blocks, chain, r, heights);
  }

  lemma ReadInOrder(blocks: map<int, Block>, chain: seq<Block>, r: seq<Block>, heights: seq<int>)
    requires MirrorsBlocks(blocks, chain) && ReadAt(blocks, r, heights)
    ensures r == chain
  {
    AscendingPrefix(heights, |chain|, |chain|);
    if heights != [] {
      AscendingFloor(heights, |heights| - 1);
      assert heights[|heights| - 1] in heights;
    }
  }

  /** The size filled in is the sum over the block's transactions. */
  lemma {:induction false} FilledInSize(e: Env, a: seq<Tx>, b: seq<Tx>)
    ensures SumTxSizes(e, []) == 0 && forall t :: SumTxSizes(e, [t]) == e.bodySize(t.(signature := ""))
    ensures SumTxSizes(e, a + b) == SumTxSizes(e, a) + SumTxSizes(e, b)
    decreases |b|
  {
    forall t: Tx ensures SumTxSizes(e, [t]) == TxSize(e, t) {
      assert [t][..0] == [] && SumTxSizes(e, []) == 0;
    }
    if b == [] {
      assert a + b == a;
    } else {
      assert (a + b)[..|a + b| - 1] == a + b[..|b| - 1];
      FilledInSize(e, a, b[..|b| - 1]);
    }
  }
}
