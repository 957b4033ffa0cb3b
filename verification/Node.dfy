/** src/node.py: the node state machine. One method per handler; the outside world (queue contents,
    offered chains, VDF results, clocks) comes in as arguments. */
module NodeMachine {
  import opened Params
  import opened Prelude
  import opened Types
  import opened Ledgers
  import opened TxRules
  import opened Difficulty
  import opened BlockRules
  import opened Packing
  import opened Chains
  import opened ChainMethods
  import opened Mempools
  import opened PendingRun
  import opened Stores
  import opened ForkChoice
  import opened Likeness

  const RELAY_RETRY: int := 180 * SECOND

  // -------------------------------------------------------------------------- queue and mempool

  /** A queue message with the time it is handled at. */
  datatype Message =
    | BlockMsg(b: Block)
    | SubmitMsg(t: Tx, at: Instant)
    | TxMsg(t: Tx, stem: bool, remainingHops: int, at: Instant)

  /** The pool, or a raise that leaves the handler. */
  datatype Intake = Intake(pool: seq<Entry>, raised: bool)

  /** What submit_tx and the fluff branch of _handle_inbound_tx do to the pool. */
  function IntakeOf(e: Env, l: Ledger, pool: seq<Entry>, t: Tx, now: Instant): Intake {
    match After(e, Pending(l, pool), Submit(t, now))
    case None => Intake(pool, true)
    case Some(s) => Intake(s.pool, false)
  }

  function HandledBy(e: Env, l: Ledger, pool: seq<Entry>, m: Message): Intake {
    match m
    case BlockMsg(_) => Intake(pool, false)
    case SubmitMsg(t, at) => IntakeOf(e, l, pool, t, at)
    case TxMsg(t, stem, hops, at) => if stem && hops > 0 then Intake(pool, false) else IntakeOf(e, l, pool, t, at)
  }

  /** The whole queue, stopping where a handler raises. */
  function Drained(e: Env, l: Ledger, pool: seq<Entry>, msgs: seq<Message>): Intake
    decreases |msgs|
  {
    if msgs == [] then Intake(pool, false)
    else
      var one := HandledBy(e, l, pool, msgs[0]);
      if one.raised then one else Drained(e, l, one.pool, msgs[1..])
  }

  function BlocksIn(msgs: seq<Message>): seq<Block> {
    if msgs == [] then []
    else BlocksIn(msgs[..|msgs| - 1]) + if msgs[|msgs| - 1].BlockMsg? then [msgs[|msgs| - 1].b] else []
  }

  function ReaddedOne(e: Env, pool: seq<Entry>, t: Tx, exclude: seq<Hash>, l: Ledger, now: Instant): seq<Entry> {
    if TxHash(e, t) in exclude || Validate(e, t, l).Reject? then pool
    else
      var added := Admit(e, pool, t, now);
      if added.Added? then added.pool else pool
  }

  /** _readd_valid_txs: each transaction is checked against the bare ledger. */
  function Readded(e: Env, pool: seq<Entry>, txs: seq<Tx>, exclude: seq<Hash>, l: Ledger, now: Instant): seq<Entry>
    decreases |txs|
  {
    if txs == [] then pool
    else Readded(e, ReaddedOne(e, pool, txs[0], exclude, l, now), txs[1..], exclude, l, now)
  }

  /** t comes back: it is not confirmed by the new chain and the new ledger itself accepts it, as the next one of
      its sender and with nothing else of its sender's pending counted in. */
  ghost predicate Returns(e: Env, t: Tx, exclude: seq<Hash>, l: Ledger) {
    && TxHash(e, t) !in exclude && WellFormed(e, t) && t.nonce == l.Nonce(t.from) + 1
    && TotalOut(t.outputs) + t.fee <= l.Balance(t.from)
  }

  /** Whatever is evicted meanwhile, nothing else comes in; and where there is room for all, every transaction that
      comes back is held, and all that was held stays. */
  lemma {:induction false} ReaddedIs(e: Env, pool: seq<Entry>, txs: seq<Tx>, exclude: seq<Hash>, l: Ledger,
                                     now: Instant)
    ensures
      var r := Readded(e, pool, txs, exclude, l, now);
      && (forall x :: x in r ==> x in pool || exists t ::
            t in txs && x == Entry(TxHash(e, t), t, now) && Returns(e, t, exclude, l))
      && (SumSizes(e, pool) + SizesOf(e, txs) <= MEMPOOL_MAX_BYTES ==>
            && pool <= r
            && forall h :: Holds(r, h) <==>
                 Holds(pool, h) || exists t :: t in txs && TxHash(e, t) == h && Returns(e, t, exclude, l))
    decreases |txs|
  {
    if txs != [] {
      var next := ReaddedOne(e, pool, txs[0], exclude, l, now);
      ReaddedFirst(e, pool, txs[0], exclude, l, now);
      assert txs == [txs[0]] + txs[1..];
      hide Readded, Returns, ReaddedOne, SumSizes, Holds;
      ReaddedIs(e, next, txs[1..], exclude, l, now);
    }
  }

  function SizesOf(e: Env, txs: seq<Tx>): nat {
    if txs == [] then 0 else TxSize(e, txs[0]) + SizesOf(e, txs[1..])
  }

  lemma {:induction false} ReaddedFirst(e: Env, pool: seq<Entry>, t: Tx, exclude: seq<Hash>, l: Ledger, now: Instant)
    ensures
      var r := ReaddedOne(e, pool, t, exclude, l, now);
      && (forall x :: x in r ==> x in pool || (x == Entry(TxHash(e, t), t, now) && Returns(e, t, exclude, l)))
      && (SumSizes(e, pool) + TxSize(e, t) <= MEMPOOL_MAX_BYTES ==>
            && pool <= r && SumSizes(e, r) <= SumSizes(e, pool) + TxSize(e, t)
            && forall h :: Holds(r, h) <==> Holds(pool, h) || (TxHash(e, t) == h && Returns(e, t, exclude, l)))
  {
    ValidateMeaning(e, t, l);
    hide WellFormed, Validate, SortBy, EvictCount, TotalOut;
    if Returns(e, t, exclude, l) && !Holds(pool, TxHash(e, t)) {
      AppendedHolds(e, pool, Entry(TxHash(e, t), t, now));
    }
    hide HashesOf, SumSizes;
  }

  lemma {:induction false} AppendedHolds(e: Env, pool: seq<Entry>, x: Entry)
    ensures SumSizes(e, pool + [x]) == SumSizes(e, pool) + TxSize(e, x.tx)
    ensures forall h :: Holds(pool + [x], h) <==> Holds(pool, h) || x.hash == h
  {
    SumConcat(e, pool, [x]);
    HashesConcat(pool, [x]);
    assert SumSizes(e, [x]) == TxSize(e, x.tx) + SumSizes(e, []);
    assert HashesOf([x]) == [x.hash] + HashesOf([]);
  }

  function TxsIn(blocks: seq<Block>): seq<Tx> {
    if blocks == [] then [] else TxsIn(blocks[..|blocks| - 1]) + blocks[|blocks| - 1].txs
  }

  // ------------------------------------------------------------------------------- fork choice

  /** b is a valid block on top of cs at this time. */
  ghost predicate ValidSibling(e: Env, cs: ChainState, b: Block, now: Instant)
    requires cs.chain != []
  {
    && b.height == cs.Tip().height + 1 && b.previousHash == cs.Tip().hash
    && ValidateBlock(e, b, cs.ledger, cs.chain, now).verdict.Accept?
  }

  /** b is a valid block on top of base, and no valid sibling among those seen beats it. */
  ghost predicate Wins(e: Env, base: ChainState, b: Block, seen: seq<Block>, now: Instant) {
    && base.chain != []
    && ValidSibling(e, base, b, now)
    && forall p :: p in seen && ValidSibling(e, base, p, now) ==> !StringLess(TieBreakKey(p), TieBreakKey(b))
  }

  lemma PickedWins(e: Env, base: ChainState, candidate: Block, b: Block, seen: seq<Block>, more: seq<Block>,
                   now: Instant)
    requires base.chain != [] && (b == candidate || ValidSibling(e, base, b, now))
    requires ValidSibling(e, base, candidate, now)
    requires forall p :: p in seen + more && ValidSibling(e, base, p, now) ==>
      !StringLess(TieBreakKey(p), TieBreakKey(b))
    ensures Wins(e, base, b, seen + more, now)
  {
    hide ValidSibling;
  }

  /** Between two valid blocks on the same tip, fork choice and the pick of the winner decide alike: by the VDF
      output, the smaller string wins. */
  lemma SiblingsDecide(e: Env, base: ChainState, p: Block, q: Block, now: Instant)
    requires base.chain != [] && base.Tip().height >= 0
    requires ValidSibling(e, base, p, now) && ValidSibling(e, base, q, now)
    ensures
      var x, y := Accepted(e, base, p, now), Accepted(e, base, q, now);
      && x.Some? && y.Some? && x.value.chain == base.chain + [p] && y.value.chain == base.chain + [q]
      && (IsBetter(x.value, y.value) <==> StringLess(TieBreakKey(p), TieBreakKey(q)))
      && p.vdfOutput.Some? && q.vdfOutput.Some?
      && (p.vdfOutput.value != "" && q.vdfOutput.value != "" ==>
            (IsBetter(x.value, y.value) <==> StringLess(p.vdfOutput.value, q.vdfOutput.value)))
  {
    ValidateBlockIff(e, p, base.ledger, base.chain, now);
    ValidateBlockIff(e, q, base.ledger, base.chain, now);
    hide ValidateBlock, BlockSize, RunTxs, GetVdfIterations, StringLess;
  }

  /** So no valid block the node saw would have been the better choice. */
  lemma WinnerIsBest(e: Env, base: ChainState, b: Block, seen: seq<Block>, now: Instant, p: Block)
    requires Wins(e, base, b, seen, now) && base.Tip().height >= 0 && p in seen && ValidSibling(e, base, p, now)
    ensures Accepted(e, base, p, now).Some? && Accepted(e, base, b, now).Some?
    ensures
      var x, y := Accepted(e, base, p, now).value, Accepted(e, base, b, now).value;
      x.chain != [] && y.chain != [] && !IsBetter(x, y)
  {
    SiblingsDecide(e, base, p, b, now);
    hide ValidSibling, Accepted, IsBetter;
  }

  /** The chain states a node held, in order: each is better than the one before. */
  ghost predicate Climbs(history: seq<ChainState>)
    decreases |history|
  {
    history != [] ==>
      && history[|history| - 1].chain != []
      && Climbs(history[..|history| - 1])
      && (|history| > 1 ==>
            history[|history| - 2].chain != [] && IsBetter(history[|history| - 1], history[|history| - 2]))
  }

  lemma {:induction false} ClimbOn(history: seq<ChainState>, next: ChainState)
    requires Climbs(history) && history != [] && next.chain != []
    requires history[|history| - 1].chain != [] && IsBetter(next, history[|history| - 1])
    ensures Climbs(history + [next])
  {
    assert (history + [next])[..|history|] == history;
  }

  /** Each is then better than all before it. */
  lemma {:induction false} ClimbsPairwise(history: seq<ChainState>, i: nat, j: nat)
    requires Climbs(history) && i < j < |history|
    ensures history[i].chain != [] && history[j].chain != [] && IsBetter(history[j], history[i])
    decreases |history|, j
  {
    var n := |history| - 1;
    if j < n {
      ClimbsPairwise(history[..n], i, j);
    } else if i < n - 1 {
      ClimbsPairwise(history[..n], i, n - 1);
      IsBetterIsStrict(history[n], history[n - 1], history[i]);
    }
  }

  /** A node never returns to a chain state it left, nor is what it left better. */
  lemma {:induction false} NeverReturns(history: seq<ChainState>, i: nat, j: nat)
    requires Climbs(history) && i < j < |history|
    ensures history[i].chain != [] && history[j].chain != []
    ensures history[i] != history[j] && !IsBetter(history[i], history[j])
  {
    ClimbsPairwise(history, i, j);
    IsBetterIsStrict(history[j], history[i], history[j]);
  }

  /** The guard `self.cs is not cs` compares objects. Since every swap is to a better chain state, it
      answers the same as comparing values. */
  lemma {:induction false} SwappedMeansDifferent(history: seq<ChainState>, start: nat)
    requires Climbs(history) && start < |history|
    ensures history[|history| - 1] == history[start] <==> start == |history| - 1
  {
    if start < |history| - 1 {
      NeverReturns(history, start, |history| - 1);
    }
  }

  // ---------------------------------------------------------------------------------- the node

  /** A chain the syncer hands to apply_better_chain, and when. */
  datatype Offer = Offer(chain: seq<Block>, now: Instant)

  /** One round of the wait for the VDF: what the queue held, and a sync if one was due. */
  datatype Wait = Wait(msgs: seq<Message>, poll: Option<Offer>)

  ghost predicate FairPoll(e: Env, o: Option<Offer>) {
    o.Some? ==> FairOffer(e, o.value.chain)
  }

  /** The blocks that arrive during the wait. */
  function BlocksDuring(waits: seq<Wait>): seq<Block> {
    if waits == [] then [] else BlocksDuring(waits[..|waits| - 1]) + BlocksIn(waits[|waits| - 1].msgs)
  }

  /** Every block of the offer carries its own hash as it stands. */
  ghost predicate SealedPoll(e: Env, o: Option<Offer>) {
    o.Some? ==> Sealed(e, o.value.chain)
  }

  /** The invariant of every reachable state. accepted is the chain as this node accepted it: it is valid
      from genesis, the tables mirror it, and the held chain is it but for tx_bytes that a loader filled in;
      the held ledger is its replay's, the published view is what is held, and everything held before was
      worse. */
  ghost predicate Consistent(e: Env, cs: ChainState, view: ChainState, tables: Tables, accepted: seq<Block>,
                             history: seq<ChainState>) {
    && CollisionFree(e)
    && Held(e, cs, accepted) && view == cs
    && Mirrors(e, tables, accepted) && KeepsState(tables, cs.ledger)
    && Climbs(history) && history != [] && history[|history| - 1] == cs
  }

  lemma ConsistentFacts(e: Env, cs: ChainState, view: ChainState, tables: Tables, accepted: seq<Block>,
                        history: seq<ChainState>)
    requires Consistent(e, cs, view, tables, accepted, history)
    ensures cs.chain != [] && cs.Tip().height == |cs.chain| - 1 && |accepted| == |cs.chain|
    ensures history != [] && history[|history| - 1] == cs
  {
    HeldNonEmpty(e, cs, accepted);
  }

  /** Appending a block that extends the held chain. */
  lemma CommitConsistent(e: Env, cs: ChainState, view: ChainState, tables: Tables, accepted: seq<Block>,
                         history: seq<ChainState>, b: Block)
    requires Consistent(e, cs, view, tables, accepted, history)
    requires b.height != 0 && Extends(e, b, cs.ledger, cs.chain)
    ensures ApplyBlock(cs, b).Some?
    ensures var next := ApplyBlock(cs, b).value;
      && next.chain == cs.chain + [b]
      && Consistent(e, next, next, Saved(e, tables, b, next.ledger), accepted + [b], history + [next])
  {
    hide Held, Extends, Mirrors, KeepsState, ApplyBlock, Climbs, IsBetter, Saved;
    CommitPieces(e, cs, tables, accepted, b);
    ClimbOn(history, ApplyBlock(cs, b).value);
  }

  lemma CommitPieces(e: Env, cs: ChainState, tables: Tables, accepted: seq<Block>, b: Block)
    requires CollisionFree(e) && Held(e, cs, accepted) && Mirrors(e, tables, accepted)
    requires b.height != 0 && Extends(e, b, cs.ledger, cs.chain)
    ensures ApplyBlock(cs, b).Some? && cs.chain != []
    ensures var next := ApplyBlock(cs, b).value;
      && next.chain == cs.chain + [b] && Held(e, next, accepted + [b]) && IsBetter(next, cs)
      && Mirrors(e, Saved(e, tables, b, next.ledger), accepted + [b])
      && KeepsState(Saved(e, tables, b, next.ledger), next.ledger)
  {
    HeldNonEmpty(e, cs, accepted);
    hide Extends, Mirrors, KeepsState, ApplyBlock, IsBetter, Saved, BlockCollisionFree, TxCollisionFree;
    HeldGrows(e, cs, accepted, b);
    var next := ApplyBlock(cs, b).value;
    HeldParts(e, next, accepted + [b]);
    hide Held, ValidChain;
    CommitMirrors(e, tables, accepted, b, next.ledger);
  }

  /** Adopting a better chain. */
  lemma AdoptConsistent(e: Env, cs: ChainState, view: ChainState, tables: Tables, accepted: seq<Block>,
                        history: seq<ChainState>, remote: seq<Block>, now: Instant)
    requires Consistent(e, cs, view, tables, accepted, history) && FairOffer(e, remote)
    requires cs.chain != [] && Evaluate(e, cs, remote, now).Better?
    ensures var r := Evaluate(e, cs, remote, now);
      && r.cs.chain == remote && r.fork <= |cs.chain| && r.fork <= |accepted| && r.fork <= |remote|
      && Consistent(e, r.cs, r.cs, Replaced(e, tables, r.fork, r.tail, r.cs.ledger),
                    Grafted(accepted, remote, r.fork), history + [r.cs])
  {
    hide ValidChain, Evaluate, Mirrors, KeepsState, FairOffer, Climbs, SameView, AlikeAll;
    ConsistentFacts(e, cs, view, tables, accepted, history);
    AdoptedIsHeld(e, cs, accepted, remote, now);
    var r := Evaluate(e, cs, remote, now);
    GraftMirrors(e, tables, accepted, remote, r.fork, r.cs.ledger);
    ClimbOn(history, r.cs);
  }

  lemma {:induction false} GraftMirrors(e: Env, tables: Tables, accepted: seq<Block>, remote: seq<Block>, fork: nat,
                                        l: Ledger)
    requires TxCollisionFree(e) && Mirrors(e, tables, accepted) && 0 < fork <= |accepted| && fork <= |remote|
    requires ValidChain(e, Grafted(accepted, remote, fork))
    ensures Mirrors(e, Replaced(e, tables, fork, remote[fork..], l), Grafted(accepted, remote, fork))
    ensures KeepsState(Replaced(e, tables, fork, remote[fork..], l), l)
  {
    hide Mirrors, ValidChain, KeepsState;
    var grafted := Grafted(accepted, remote, fork);
    assert accepted[..fork] == grafted[..fork] && grafted[fork..] == remote[fork..];
    ReplacementMirrors(e, tables, accepted, fork, grafted, l);
  }

  /** Adopting an offer whose blocks all carry their own hash leaves nothing to tell the held chain from the
      accepted one. */
  lemma {:induction false} SealedIsExact(e: Env, cs: ChainState, view: ChainState, tables: Tables, accepted: seq<Block>,
                                         history: seq<ChainState>)
    requires Consistent(e, cs, view, tables, accepted, history) && Sealed(e, cs.chain)
    ensures cs.chain == accepted && ValidChain(e, cs.chain)
  {
    HeldValidIff(e, cs, accepted);
  }

  /** What a restart loads keeps the invariant. */
  lemma RestartConsistent(e: Env, was: ChainState, past: seq<ChainState>, tables: Tables, accepted: seq<Block>,
                          stored: seq<Block>)
    requires Consistent(e, was, was, tables, accepted, past) && InOrder(tables.blocks, stored)
    ensures LoadCs(e, tables, stored).Some? && stored == accepted
    ensures
      var cs := LoadCs(e, tables, stored).value;
      && cs.chain == Backfill(e, accepted) && cs.work == was.work && SameView(cs.ledger, was.ledger)
      && Consistent(e, cs, cs, tables, accepted, [cs])
  {
    hide Held, ValidChain, Mirrors, SameView, LedgerOf, CollisionFree, InOrder;
    HeldNonEmpty(e, was, accepted);
    LoadingGivesChain(e, tables, accepted, stored);
    RestartRestores(e, tables, was, accepted);
    LoadKeepsState(e, tables, was.ledger, stored);
    var cs := LoadCs(e, tables, stored).value;
    hide LoadCs, KeepsState, Backfill;
    HeldNonEmpty(e, cs, accepted);
    ClimbFrom(cs);
  }

  lemma ClimbFrom(cs: ChainState)
    requires cs.chain != []
    ensures Climbs([cs])
  {
    assert [cs][..0] == [];
    assert Climbs([]);
  }

  lemma LoadKeepsState(e: Env, tables: Tables, was: Ledger, stored: seq<Block>)
    requires KeepsState(tables, was) && LoadCs(e, tables, stored).Some?
    ensures KeepsState(tables, LoadCs(e, tables, stored).value.ledger)
  {
    if tables.rows != map[] {
      SavedAsLoaded(tables);
    }
  }

  lemma {:induction false} HeldParts(e: Env, cs: ChainState, accepted: seq<Block>)
    requires Held(e, cs, accepted)
    ensures ValidChain(e, accepted) && AlikeAll(cs.chain, accepted)
  {
  }

  /** All that comes in during one cycle. */
  datatype Cycle = Cycle(inbox: seq<Message>, sync: Option<Offer>, startTime: Instant, waits: seq<Wait>,
                         vdfOutput: string, vdfProof: string, drained: seq<Message>, now: Instant)

  ghost predicate FairCycle(e: Env, c: Cycle) {
    FairPoll(e, c.sync) && forall i :: 0 <= i < |c.waits| ==> FairPoll(e, c.waits[i].poll)
  }

  ghost predicate SealedCycle(e: Env, c: Cycle) {
    SealedPoll(e, c.sync) && SealedWaits(e, c.waits)
  }

  ghost predicate SealedWaits(e: Env, waits: seq<Wait>) {
    forall i :: 0 <= i < |waits| ==> SealedPoll(e, waits[i].poll)
  }

  lemma {:induction false} ConsistentMeans(e: Env, cs: ChainState, view: ChainState, tables: Tables,
                                           accepted: seq<Block>, history: seq<ChainState>)
    requires Consistent(e, cs, view, tables, accepted, history)
    ensures Held(e, cs, accepted) && view == cs && Mirrors(e, tables, accepted) && Climbs(history)
    ensures history != [] && history[|history| - 1] == cs
  {
  }

  // ------------------------------------------------------------------------- one cycle on values

  /** Chain state and pool in the middle of a cycle; a raise ends it. */
  datatype Running = Running(cs: ChainState, pool: seq<Entry>, raised: bool)

  /** After a sync that hands over this chain, if any. */
  ghost function Polled(e: Env, cs: ChainState, pool: seq<Entry>, offer: Option<Offer>): Running {
    if offer.None? || cs.chain == [] then Running(cs, pool, false)
    else
      var r := Evaluate(e, cs, offer.value.chain, offer.value.now);
      Running(if r.Better? then r.cs else cs,
              Node.PoolAfterOffer(e, cs, pool, offer.value.chain, offer.value.now), false)
  }

  /** When the VDF is started: the queue is drained, a chain may have been taken, the pool is pruned. */
  ghost function Started(e: Env, cs: ChainState, pool: seq<Entry>, inbox: seq<Message>, sync: Option<Offer>,
                         now: Instant): Running
  {
    var d := Drained(e, cs.ledger, pool, inbox);
    if d.raised then Running(cs, d.pool, true)
    else
      var polled := Polled(e, cs, d.pool, sync);
      polled.(pool := Filter(polled.pool, Fresh(polled.cs.ledger, now, MEMPOOL_TTL)))
  }

  /** When the VDF has answered. */
  ghost function Waited(e: Env, cs: ChainState, pool: seq<Entry>, waits: seq<Wait>): Running
    decreases |waits|
  {
    if waits == [] then Running(cs, pool, false)
    else
      var d := Drained(e, cs.ledger, pool, waits[0].msgs);
      if d.raised then Running(cs, d.pool, true)
      else
        var polled := Polled(e, cs, d.pool, waits[0].poll);
        Waited(e, polled.cs, polled.pool, waits[1..])
  }

  /** The finished candidate on top of start. */
  function Candidate(e: Env, start: ChainState, pool: seq<Entry>, builder: Address, iterations: int, vdfOutput: string,
                     vdfProof: string, now: Instant): Block
    requires start.chain != []
  {
    var draft := Assembled(e, start.Tip(), TxsOf(pool), builder, iterations, None, now);
    var b := draft.(vdfOutput := Some(vdfOutput), vdfProof := Some(vdfProof), vdfIterations := iterations);
    b.(hash := BlockHash(e, b))
  }

  /** What a node needs for a block of its own: an address, a proof for the tip and its own address, the least time
      since the tip, a block within the size limit, and pending transactions that run together. */
  ghost predicate Mineable(e: Env, start: ChainState, pool: seq<Entry>, builder: Address, iterations: int,
                           vdfOutput: string, vdfProof: string, now: Instant)
    requires start.chain != []
  {
    var tip, c := start.Tip(), Candidate(e, start, pool, builder, iterations, vdfOutput, vdfProof, now);
    && builder != "" && e.isWordPhrase(builder) && iterations == GetVdfIterations(start.chain)
    && e.vdfVerify(e.challenge(tip.hash, builder), vdfOutput, vdfProof, iterations)
    && now >= tip.timestamp + 30 * SECOND && BlockSize(e, c) <= 10_000_000
    && RunTxs(e, start.ledger, c.txs).Ran?
  }

  /** How a cycle ends that was started on start and has come to w when the VDF answers: a block is committed
      exactly when no handler raised, the chain state is still the one it was started on, and the node could mine. */
  ghost predicate Mined(e: Env, start: ChainState, w: Running, builder: Address, iterations: int, vdfOutput: string,
                        vdfProof: string, drained: seq<Message>, now: Instant, committed: Option<Block>,
                        cs: ChainState, pool: seq<Entry>)
    requires start.chain != []
  {
    var own := Mineable(e, start, w.pool, builder, iterations, vdfOutput, vdfProof, now);
    var c := Candidate(e, start, w.pool, builder, iterations, vdfOutput, vdfProof, now);
    var d := Drained(e, start.ledger, w.pool, drained);
    && (committed.Some? <==> !w.raised && w.cs == start && own && !d.raised)
    && (committed.Some? ==>
          && ApplyBlock(start, committed.value) == Some(cs)
          && pool == Filter(d.pool, NoneOf(TxHashes(e, committed.value.txs)))
          && !StringLess(TieBreakKey(c), TieBreakKey(committed.value)))
    && (committed.None? ==>
          && cs == w.cs && pool == if !w.raised && w.cs == start && own then d.pool else w.pool)
  }

  lemma {:induction false} NotMined(e: Env, start: ChainState, w: Running, builder: Address, iterations: int,
                                    vdfOutput: string, vdfProof: string, drained: seq<Message>, now: Instant,
                                    pool: seq<Entry>)
    requires start.chain != []
    requires
      var own := Mineable(e, start, w.pool, builder, iterations, vdfOutput, vdfProof, now);
      var d := Drained(e, start.ledger, w.pool, drained);
      && (w.raised || w.cs != start || !own || d.raised)
      && pool == if !w.raised && w.cs == start && own then d.pool else w.pool
    ensures Mined(e, start, w, builder, iterations, vdfOutput, vdfProof, drained, now, None, w.cs, pool)
  {
    hide Mineable, Drained, Candidate;
  }

  lemma {:induction false} IsMined(e: Env, start: ChainState, w: Running, builder: Address, iterations: int,
                                   vdfOutput: string, vdfProof: string, drained: seq<Message>, now: Instant, b: Block,
                                   cs: ChainState, pool: seq<Entry>)
    requires start.chain != [] && !w.raised && w.cs == start && ApplyBlock(start, b) == Some(cs)
    requires Mineable(e, start, w.pool, builder, iterations, vdfOutput, vdfProof, now)
    requires Drained(e, start.ledger, w.pool, drained) == Intake(pool, false)
    requires
      var c := Candidate(e, start, w.pool, builder, iterations, vdfOutput, vdfProof, now);
      !StringLess(TieBreakKey(c), TieBreakKey(b))
    ensures Mined(e, start, w, builder, iterations, vdfOutput, vdfProof, drained, now, Some(b), cs,
                  Filter(pool, NoneOf(TxHashes(e, b.txs))))
  {
    hide Mineable, Drained, Candidate, ApplyBlock;
  }

  lemma WinnerIsValid(e: Env, start: ChainState, candidate: Block, winner: Block, seen: seq<Block>, more: seq<Block>,
                      now: Instant)
    requires start.chain != [] && start.Tip().height >= 0 && ValidSibling(e, start, candidate, now)
    requires winner == candidate || ValidSibling(e, start, winner, now)
    requires forall p :: p in seen + more && ValidSibling(e, start, p, now) ==>
      !StringLess(TieBreakKey(p), TieBreakKey(winner))
    ensures winner.height != 0 && Extends(e, winner, start.ledger, start.chain)
    ensures Wins(e, start, winner, seen + more, now)
  {
    ValidateBlockMeaning(e, winner, start.ledger, start.chain, now);
    hide Extends, ValidateBlock;
    PickedWins(e, start, candidate, winner, seen, more, now);
  }

  lemma {:induction false} WaitedNext(e: Env, cs: ChainState, pool: seq<Entry>, waits: seq<Wait>, i: nat)
    requires i <= |waits|
    ensures i == |waits| ==> Waited(e, cs, pool, waits[i..]) == Running(cs, pool, false)
    ensures i < |waits| ==>
      var d := Drained(e, cs.ledger, pool, waits[i].msgs);
      var polled := Polled(e, cs, d.pool, waits[i].poll);
      Waited(e, cs, pool, waits[i..])
        == if d.raised then Running(cs, d.pool, true) else Waited(e, polled.cs, polled.pool, waits[i + 1..])
  {
    hide Drained, Polled;
    assert i < |waits| ==> waits[i..][0] == waits[i] && waits[i..][1..] == waits[i + 1..];
  }

  lemma PolledIs(e: Env, cs: ChainState, pool: seq<Entry>, offer: Option<Offer>)
    requires cs.chain != []
    ensures offer.None? ==> Polled(e, cs, pool, offer) == Running(cs, pool, false)
    ensures offer.Some? ==>
      var r := Evaluate(e, cs, offer.value.chain, offer.value.now);
      Polled(e, cs, pool, offer)
        == Running(if r.Better? then r.cs else cs,
                   Node.PoolAfterOffer(e, cs, pool, offer.value.chain, offer.value.now), false)
  {
    hide Evaluate, Node.PoolAfterOffer;
  }

  /** A message puts into the pool exactly what it should: one's own submission or a public transaction, if it may
      enter; a block or a transaction still on its stem nothing. */
  lemma HandledIs(e: Env, l: Ledger, pool: seq<Entry>, m: Message)
    requires Sound(e, Pending(l, pool))
    ensures
      var r := HandledBy(e, l, pool, m);
      var own := m.SubmitMsg? || (m.TxMsg? && (!m.stem || m.remainingHops <= 0));
      && !r.raised && (!own ==> r.pool == pool)
      && (own ==> (Holds(r.pool, TxHash(e, m.t)) <==> Enters(e, Pending(l, pool), m.t) || Holds(pool, TxHash(e, m.t))))
  {
    hide Sound, Enters;
    if m.SubmitMsg? {
      SubmitEnters(e, Pending(l, pool), m.t, m.at);
    } else if m.TxMsg? {
      SubmitEnters(e, Pending(l, pool), m.t, m.at);
    }
    hide PendingRun.After;
  }

  lemma {:induction false} BlocksInAre(msgs: seq<Message>, b: Block)
    ensures b in BlocksIn(msgs) <==> BlockMsg(b) in msgs
  {
    if msgs != [] {
      var front, last := msgs[..|msgs| - 1], msgs[|msgs| - 1];
      BlocksInAre(front, b);
      assert msgs == front + [last];
    }
  }

  /** The blocks seen while waiting are all that came in any of the drains. */
  lemma {:induction false} BlocksDuringAre(waits: seq<Wait>, b: Block)
    ensures b in BlocksDuring(waits) <==> exists w :: w in waits && BlockMsg(b) in w.msgs
  {
    if waits != [] {
      var front, last := waits[..|waits| - 1], waits[|waits| - 1];
      BlocksDuringAre(front, b);
      BlocksInAre(last.msgs, b);
      assert waits == front + [last];
    }
  }

  lemma {:induction false} TxsInAre(blocks: seq<Block>, t: Tx)
    ensures t in TxsIn(blocks) <==> exists b :: b in blocks && t in b.txs
  {
    if blocks != [] {
      var front, last := blocks[..|blocks| - 1], blocks[|blocks| - 1];
      TxsInAre(front, t);
      assert blocks == front + [last];
    }
  }

  /** A queue is handled message by message. */
  lemma {:induction false} DrainedConcat(e: Env, l: Ledger, pool: seq<Entry>, a: seq<Message>, b: seq<Message>)
    ensures
      var first := Drained(e, l, pool, a);
      Drained(e, l, pool, a + b) == if first.raised then first else Drained(e, l, first.pool, b)
    decreases |a|
  {
    if a == [] {
      assert a + b == b;
    } else {
      assert (a + b)[0] == a[0] && (a + b)[1..] == a[1..] + b;
      hide HandledBy;
      var one := HandledBy(e, l, pool, a[0]);
      if !one.raised {
        DrainedConcat(e, l, one.pool, a[1..], b);
      }
    }
  }

  /** What a sync leaves in the pool, where there is room for all. If the offered chain was taken: what it did not
      confirm, and the transactions of the abandoned blocks that the new ledger accepts. If it was worse: all there
      was, and the transactions of its own blocks that the held ledger accepts. Else nothing changes. */
  lemma {:induction false} PoolAfterOfferIs(e: Env, held: ChainState, pool: seq<Entry>, remote: seq<Block>,
                                            now: Instant)
    requires held.chain != []
    ensures
      var r, after := Evaluate(e, held, remote, now), Node.PoolAfterOffer(e, held, pool, remote, now);
      && (r.Better? ==>
            var confirmed, back := TxHashes(e, TxsIn(r.tail)), TxsIn(BehindFork(held.chain, r.fork));
            SumSizes(e, pool) + SizesOf(e, back) <= MEMPOOL_MAX_BYTES ==>
              forall h :: Holds(after, h) <==>
                || (Holds(pool, h) && h !in confirmed)
                || exists t :: t in back && TxHash(e, t) == h && Returns(e, t, confirmed, r.cs.ledger))
      && (r.NotBetter? ==>
            var confirmed, back := TxHashes(e, TxsIn(BehindFork(held.chain, r.fork))), TxsIn(r.tail);
            SumSizes(e, pool) + SizesOf(e, back) <= MEMPOOL_MAX_BYTES ==>
              forall h :: Holds(after, h) <==>
                Holds(pool, h) || exists t :: t in back && TxHash(e, t) == h && Returns(e, t, confirmed, held.ledger))
      && (!r.Better? && !r.NotBetter? ==> after == pool)
  {
    var r := Evaluate(e, held, remote, now);
    EvaluateFork(e, held, remote, now);
    hide Evaluate, Readded, Holds, Returns, TxHashes, SumSizes;
    if r.Better? {
      var confirmed := TxHashes(e, TxsIn(r.tail));
      HoldsFilter(e, pool, confirmed);
      ReaddedIs(e, Filter(pool, NoneOf(confirmed)), TxsIn(BehindFork(held.chain, r.fork)), confirmed, r.cs.ledger, now);
    } else if r.NotBetter? {
      var confirmed := TxHashes(e, TxsIn(BehindFork(held.chain, r.fork)));
      ReaddedIs(e, pool, TxsIn(r.tail), confirmed, held.ledger, now);
    }
    hide Filter;
  }

  function BehindFork(chain: seq<Block>, fork: nat): seq<Block> {
    if fork <= |chain| then chain[fork..] else []
  }

  lemma EvaluateFork(e: Env, held: ChainState, remote: seq<Block>, now: Instant)
    requires held.chain != []
    ensures var r := Evaluate(e, held, remote, now);
      (r.Better? || r.NotBetter? ==> r.fork <= |held.chain|)
  {
    hide TailFrom, FromChain, IsBetter;
  }

  /** Such a block, and no other candidate, passes validation. */
  lemma MineableIff(e: Env, start: ChainState, pool: seq<Entry>, builder: Address, iterations: int, vdfOutput: string,
                    vdfProof: string, now: Instant)
    requires start.chain != [] && start.Tip().height >= 0
    ensures
      var c := Candidate(e, start, pool, builder, iterations, vdfOutput, vdfProof, now);
      && c.height == start.Tip().height + 1 && c.previousHash == start.Tip().hash
      && (ValidateBlock(e, c, start.ledger, start.chain, now).verdict.Accept?
          <==> Mineable(e, start, pool, builder, iterations, vdfOutput, vdfProof, now))
  {
    var c := Candidate(e, start, pool, builder, iterations, vdfOutput, vdfProof, now);
    hide GetVdfIterations, PackGroups, Groups, RunTxs, BlockSize;
    ValidateBlockIff(e, c, start.ledger, start.chain, now);
    assert c.(hash := "").(hash := "") == c.(hash := "");
    hide ValidateBlock;
  }

  /** Where each sender's pending transactions run alone, those of the candidate run together. */
  lemma {:induction false} PendingIsMineable(e: Env, start: ChainState, pool: seq<Entry>, builder: Address,
                                             iterations: int, vdfOutput: string, vdfProof: string, now: Instant)
    requires start.chain != [] && PendingApplies(e, start.ledger, TxsOf(pool))
    ensures RunTxs(e, start.ledger, Candidate(e, start, pool, builder, iterations, vdfOutput, vdfProof, now).txs).Ran?
  {
    AssembledRuns(e, start.ledger, start.Tip(), TxsOf(pool), builder, iterations, None, now);
    hide RunTxs;
  }

  /** A cycle in which nothing arrives leaves all as it was but for expired entries. */
  lemma {:induction false} QuietCycle(e: Env, cs: ChainState, pool: seq<Entry>, waits: seq<Wait>, now: Instant)
    requires forall i :: 0 <= i < |waits| ==> waits[i] == Wait([], None)
    ensures Started(e, cs, pool, [], None, now) == Running(cs, Filter(pool, Fresh(cs.ledger, now, MEMPOOL_TTL)), false)
    ensures Waited(e, cs, pool, waits) == Running(cs, pool, false)
    decreases |waits|
  {
    if waits != [] {
      assert waits[0] == Wait([], None);
      QuietCycle(e, cs, pool, waits[1..], now);
    }
  }

  class Node {
    const env: Env
    const addr: Address
    const mempool: Mempool
    const storage: Storage
    var cs: ChainState
    var view: ChainState
    var localPending: map<Hash, Instant>
    ghost var accepted: seq<Block>
    ghost var history: seq<ChainState>

    ghost predicate PoolValid()
      reads this, mempool
    {
      mempool.env == env && mempool.Valid()
    }

    ghost predicate Valid()
      reads this, mempool, storage
    {
      PoolValid() && storage.env == env && Consistent(env, cs, view, storage.tables, accepted, history)
    }

    /** Nothing tells the held chain from the accepted one. */
    ghost predicate Exact()
      reads this
    {
      cs.chain == accepted
    }

    /** Startup on an empty database. */
    constructor (env: Env, addr: Address)
      requires CollisionFree(env)
      ensures Valid() && this.env == env && this.addr == addr
      ensures fresh(mempool) && fresh(storage)
      ensures cs == FromGenesis(env) && accepted == cs.chain && history == [cs] && mempool.pool == []
    {
      this.env, this.addr := env, addr;
      var pool := new Mempool(env);
      var store := new Storage(env);
      store.SaveBlock(Genesis(env));
      mempool, storage := pool, store;
      cs, view := FromGenesis(env), FromGenesis(env);
      localPending := map[];
      accepted := [Genesis(env)];
      history := [FromGenesis(env)];
      new;
      ReplayOfGenesis(env);
      GenesisMirrors(env);
      AlikeSelf(accepted);
    }

    /** Startup on the database of an earlier run, which ended in the chain state was. The chain comes back
        with tx_bytes filled in, the ledger as far as a getter can tell, and the work. */
    constructor Restart(env: Env, addr: Address, storage: Storage, ghost was: ChainState, ghost accepted: seq<Block>,
                        ghost past: seq<ChainState>)
      requires storage.env == env && Consistent(env, was, was, storage.tables, accepted, past)
      ensures Valid() && this.env == env && this.addr == addr && this.storage == storage
      ensures fresh(mempool) && mempool.pool == [] && history == [cs] && this.accepted == accepted
      ensures cs.chain == Backfill(env, accepted) && cs.work == was.work && SameView(cs.ledger, was.ledger)
    {
      hide Consistent;
      var stored := storage.LoadAllBlocks();
      RestartConsistent(env, was, past, storage.tables, accepted, stored);
      var loaded := LoadedCs(env, storage, stored);
      this.env, this.addr, this.storage := env, addr, storage;
      mempool := new Mempool(env);
      cs, view := loaded, loaded;
      localPending := map[];
      this.accepted := accepted;
      history := [loaded];
    }

    // ------------------------------------------------------------------------ transactions

    /** submit_tx, and the fluff branch of _handle_inbound_tx; own marks the former. An accepted transaction
        is relayed, and one's own is remembered with its time. */
    method TakeTx(t: Tx, now: Instant, own: bool) returns (raised: bool, accepted: bool)
      requires PoolValid()
      modifies mempool, `localPending
      ensures PoolValid() && Intake(mempool.pool, raised) == IntakeOf(env, cs.ledger, old(mempool.pool), t, now)
      ensures accepted <==> !Holds(old(mempool.pool), TxHash(env, t)) && Holds(mempool.pool, TxHash(env, t))
      ensures localPending == if own && accepted then old(localPending)[TxHash(env, t) := now] else old(localPending)
    {
      raised, accepted := false, false;
      var probe := mempool.ProbeStateFor(t.from, cs.ledger);
      if probe.Raised? {
        return true, false;
      }
      if Validate(env, t, probe.ledger).Reject? {
        return;
      }
      AddedHolds(env, mempool.pool, t, now);
      var added := mempool.Add(t, now);
      accepted := added.Added?;
      if accepted && own {
        localPending := localPending[TxHash(env, t) := now];
      }
    }

    /** _handle. */
    method Handle(m: Message) returns (blocks: seq<Block>, raised: bool)
      requires PoolValid()
      modifies mempool, `localPending
      ensures PoolValid() && Intake(mempool.pool, raised) == HandledBy(env, cs.ledger, old(mempool.pool), m)
      ensures blocks == if m.BlockMsg? then [m.b] else []
      ensures m.SubmitMsg? || localPending == old(localPending)
    {
      blocks, raised := [], false;
      var accepted;
      match m
      case BlockMsg(b) => blocks := [b];
      case SubmitMsg(t, at) => raised, accepted := TakeTx(t, at, true);
      case TxMsg(t, stem, hops, at) =>
        if !(stem && hops > 0) {
          raised, accepted := TakeTx(t, at, false);
        }
    }

    /** _drain_queue. */
    method DrainQueue(msgs: seq<Message>) returns (blocks: seq<Block>, raised: bool)
      requires PoolValid()
      modifies mempool, `localPending
      ensures PoolValid() && Intake(mempool.pool, raised) == Drained(env, cs.ledger, old(mempool.pool), msgs)
      ensures !raised ==> blocks == BlocksIn(msgs)
    {
      blocks, raised := [], false;
      var i := 0;
      while i < |msgs|
        invariant 0 <= i <= |msgs| && !raised && PoolValid()
        invariant blocks == BlocksIn(msgs[..i])
        invariant Drained(env, cs.ledger, old(mempool.pool), msgs) == Drained(env, cs.ledger, mempool.pool, msgs[i..])
      {
        assert msgs[i..][0] == msgs[i] && msgs[i..][1..] == msgs[i + 1..];
        assert msgs[..i + 1][..i] == msgs[..i];
        var found;
        found, raised := Handle(msgs[i]);
        if raised {
          return;
        }
        blocks := blocks + found;
        i := i + 1;
      }
      assert msgs[..i] == msgs;
    }

    /** _retry_stuck_local_txs: over the keys there are at the start, forget what left the pool, and restamp what
        is re-flooded. */
    method RetryStuckLocalTxs(now: Instant) returns (resent: set<Hash>)
      modifies `localPending
      ensures localPending.Keys == set h | h in old(localPending) && Holds(mempool.pool, h)
      ensures resent == set h | h in localPending && now - old(localPending)[h] >= RELAY_RETRY
      ensures forall h :: h in localPending ==> localPending[h] == if h in resent then now else old(localPending)[h]
    {
      resent := {};
      var todo := localPending.Keys;
      while todo != {}
        invariant todo <= localPending.Keys && resent !! todo
        invariant forall h :: h in localPending <==> h in old(localPending) && (h in todo || Holds(mempool.pool, h))
        invariant forall h :: h in resent <==>
          h in localPending && h !in todo && now - old(localPending)[h] >= RELAY_RETRY
        invariant forall h :: h in localPending ==> localPending[h] == if h in resent then now else old(localPending)[h]
        decreases |todo|
      {
        var h: Hash :| h in todo;
        if !Holds(mempool.pool, h) {
          localPending := localPending - {h};
        } else if now - localPending[h] >= RELAY_RETRY {
          resent := resent + {h};
          localPending := localPending[h := now];
        }
        todo := todo - {h};
      }
    }

    // ------------------------------------------------------------------- chain sync and reorg

    /** _readd_valid_txs. */
    method ReaddValidTxs(txs: seq<Tx>, exclude: seq<Hash>, l: Ledger, now: Instant)
      requires mempool.env == env && mempool.Valid()
      modifies mempool
      ensures mempool.Valid() && mempool.pool == Readded(env, old(mempool.pool), txs, exclude, l, now)
    {
      var i := 0;
      while i < |txs|
        invariant 0 <= i <= |txs| && mempool.Valid()
        invariant Readded(env, old(mempool.pool), txs, exclude, l, now)
               == Readded(env, mempool.pool, txs[i..], exclude, l, now)
      {
        assert txs[i..][0] == txs[i] && txs[i..][1..] == txs[i + 1..];
        if TxHash(env, txs[i]) !in exclude {
          if Validate(env, txs[i], l).Accept? {
            var _ := mempool.Add(txs[i], now);
          }
        }
        i := i + 1;
      }
    }

    /** _salvage_fork_txs: the remote chain lost, so its transactions are checked against our own state. */
    method SalvageForkTxs(fork: nat, tail: seq<Block>, now: Instant)
      requires PoolValid() && fork <= |cs.chain|
      modifies mempool
      ensures PoolValid()
      ensures mempool.pool
           == Readded(env, old(mempool.pool), TxsIn(tail), TxHashes(env, TxsIn(cs.chain[fork..])), cs.ledger, now)
    {
      var confirmed := TxHashes(env, TxsIn(cs.chain[fork..]));
      ReaddValidTxs(TxsIn(tail), confirmed, cs.ledger, now);
    }

    /** _reorg_mempool: the abandoned branch's transactions are checked against the new state. */
    method ReorgMempool(abandoned: seq<Block>, tail: seq<Block>, l: Ledger, now: Instant)
      requires PoolValid()
      modifies mempool
      ensures PoolValid()
      ensures var confirmed := TxHashes(env, TxsIn(tail));
        mempool.pool == Readded(env, Filter(old(mempool.pool), NoneOf(confirmed)), TxsIn(abandoned), confirmed, l, now)
    {
      var newConfirmed := TxHashes(env, TxsIn(tail));
      mempool.RemoveMany(newConfirmed);
      ReaddValidTxs(TxsIn(abandoned), newConfirmed, l, now);
    }

    /** What apply_better_chain does to the pool. */
    static ghost function PoolAfterOffer(e: Env, held: ChainState, pool: seq<Entry>, remote: seq<Block>, now: Instant)
      : seq<Entry>
      requires held.chain != []
    {
      match Evaluate(e, held, remote, now)
      case Better(fork, tail, next) =>
        var confirmed := TxHashes(e, TxsIn(tail));
        var abandoned := if fork <= |held.chain| then TxsIn(held.chain[fork..]) else [];
        Readded(e, Filter(pool, NoneOf(confirmed)), abandoned, confirmed, next.ledger, now)
      case NotBetter(fork, tail) =>
        if tail == [] || fork > |held.chain| then pool
        else Readded(e, pool, TxsIn(tail), TxHashes(e, TxsIn(held.chain[fork..])), held.ledger, now)
      case _ => pool
    }

    /** The swap in apply_better_chain: storage first, then cs and view. */
    method Adopt(fork: nat, tail: seq<Block>, remoteCs: ChainState, ghost remote: seq<Block>, ghost now: Instant)
      requires Valid() && FairOffer(env, remote) && cs.chain != []
      requires Evaluate(env, cs, remote, now) == Better(fork, tail, remoteCs)
      modifies `cs, `view, `accepted, `history, storage
      ensures Valid()
      ensures cs == remoteCs && cs.chain == remote && history == old(history) + [cs]
      ensures fork <= |old(cs).chain|
      ensures fork <= |old(accepted)| && fork <= |remote| && accepted == Grafted(old(accepted), remote, fork)
    {
      hide Consistent;
      AdoptConsistent(env, cs, view, storage.tables, accepted, history, remote, now);
      storage.ReplaceChainAndState(fork, tail, remoteCs.ledger);
      cs := remoteCs;
      view := cs;
      accepted := Grafted(accepted, remote, fork);
      history := history + [cs];
    }

    /** apply_better_chain. */
    method ApplyBetterChain(remote: seq<Block>, now: Instant) returns (adopted: bool)
      requires Valid() && FairOffer(env, remote)
      modifies `cs, `view, `accepted, `history, mempool, storage
      ensures Valid() && old(cs).chain != []
      ensures adopted == Evaluate(env, old(cs), remote, now).Better?
      ensures adopted ==>
        cs == Evaluate(env, old(cs), remote, now).cs && cs.chain == remote && history == old(history) + [cs]
      ensures !adopted ==> cs == old(cs) && history == old(history) && storage.tables == old(storage.tables)
      ensures !adopted ==> accepted == old(accepted)
      ensures adopted && Sealed(env, remote) ==> cs.chain == accepted
      ensures mempool.pool == PoolAfterOffer(env, old(cs), old(mempool.pool), remote, now)
    {
      hide Consistent, Evaluate, Readded, TxsIn, TxHashes, FairOffer;
      ConsistentFacts(env, cs, view, storage.tables, accepted, history);
      var r := EvaluateRemoteChain(env, cs, remote, now);
      adopted := r.Better?;
      if adopted {
        var oldChain := cs.chain;
        Adopt(r.fork, r.tail, r.cs, remote, now);
        if Sealed(env, remote) {
          SealedIsExact(env, cs, view, storage.tables, accepted, history);
        }
        ReorgMempool(oldChain[r.fork..], r.tail, cs.ledger, now);
      } else if r.NotBetter? && r.tail != [] {
        SalvageForkTxs(r.fork, r.tail, now);
      }
    }

    // --------------------------------------------------------------------------- block cycle

    /** _commit. */
    method Commit(b: Block)
      requires Valid() && b.height != 0 && Extends(env, b, cs.ledger, cs.chain)
      modifies this, mempool, storage
      ensures Valid() && localPending == old(localPending)
      ensures ApplyBlock(old(cs), b) == Some(cs) && cs.chain == old(cs).chain + [b]
      ensures history == old(history) + [cs] && accepted == old(accepted) + [b]
      ensures mempool.pool == Filter(old(mempool.pool), NoneOf(TxHashes(env, b.txs)))
    {
      hide Consistent, Extends, RunTxs;
      CommitConsistent(env, cs, view, storage.tables, accepted, history, b);
      var confirmed := TxHashes(env, b.txs);
      var next := ApplyBlockToCopy(cs, b);
      cs := next.value;
      storage.SaveBlockAndState(b, cs.ledger);
      mempool.RemoveMany(confirmed);
      view := cs;
      accepted := accepted + [b];
      history := history + [cs];
    }

    /** The first loop of _pick_winner. */
    method ValidPeers(start: ChainState, peerBlocks: seq<Block>, now: Instant) returns (validPeers: seq<Block>)
      requires start.chain != []
      ensures forall p :: p in validPeers <==> p in peerBlocks && ValidSibling(env, start, p, now)
    {
      var tip := start.Tip();
      validPeers := [];
      var i := 0;
      while i < |peerBlocks|
        invariant 0 <= i <= |peerBlocks|
        invariant forall p :: p in validPeers <==> p in peerBlocks[..i] && ValidSibling(env, start, p, now)
      {
        var b := peerBlocks[i];
        assert peerBlocks[..i + 1] == peerBlocks[..i] + [b];
        if b.height == tip.height + 1 && b.previousHash == tip.hash {
          var probe := SnapshotOf(start.ledger);
          var verdict := ValidateInPlace(env, b, probe, start.chain, now);
          if verdict.Accept? {
            validPeers := validPeers + [b];
          }
        }
        i := i + 1;
      }
      assert peerBlocks[..i] == peerBlocks;
    }

    /** _pick_winner: the candidate or the valid peer block with the least tie-break key, the candidate
        and earlier blocks winning ties. */
    method PickWinner(start: ChainState, candidate: Block, peerBlocks: seq<Block>, now: Instant)
      returns (winner: Option<Block>, relay: bool)
      requires start.chain != []
      ensures winner.None? <==> candidate.previousHash != start.Tip().hash
      ensures winner.Some? ==>
        && (winner.value == candidate || (winner.value in peerBlocks && ValidSibling(env, start, winner.value, now)))
        && (!relay ==> winner.value == candidate)
        && (relay ==> StringLess(TieBreakKey(winner.value), TieBreakKey(candidate)))
        && !StringLess(TieBreakKey(candidate), TieBreakKey(winner.value))
        && forall p :: p in peerBlocks && ValidSibling(env, start, p, now) ==>
             !StringLess(TieBreakKey(p), TieBreakKey(winner.value))
    {
      var validPeers := ValidPeers(start, peerBlocks, now);
      hide ValidSibling;
      if candidate.previousHash != start.Tip().hash {
        return None, false;
      }
      var best := candidate;
      relay := false;
      var k := 0;
      StringLessIrreflexive(TieBreakKey(candidate));
      while k < |validPeers|
        invariant 0 <= k <= |validPeers|
        invariant best == candidate || best in validPeers
        invariant !relay ==> best == candidate
        invariant relay ==> StringLess(TieBreakKey(best), TieBreakKey(candidate))
        invariant !StringLess(TieBreakKey(candidate), TieBreakKey(best))
        invariant forall p :: p in validPeers[..k] ==> !StringLess(TieBreakKey(p), TieBreakKey(best))
      {
        var p := validPeers[k];
        assert validPeers[..k + 1] == validPeers[..k] + [p];
        StringLessIrreflexive(TieBreakKey(p));
        if StringLess(TieBreakKey(p), TieBreakKey(best)) {
          LesserStaysLeast(validPeers[..k] + [candidate], best, p);
          if relay {
            StringLessTransitive(TieBreakKey(p), TieBreakKey(best), TieBreakKey(candidate));
          }
          best, relay := p, true;
        }
        k := k + 1;
      }
      assert validPeers[..k] == validPeers;
      winner := Some(best);
    }

    /** The wait for the VDF: drain the queue, and sync when a poll is due. */
    method WaitForVdf(waits: seq<Wait>) returns (seen: seq<Block>, raised: bool)
      requires Valid() && forall i :: 0 <= i < |waits| ==> FairPoll(env, waits[i].poll)
      modifies this, mempool, storage
      ensures Valid() && old(history) <= history
      ensures old(Exact()) && SealedWaits(env, waits) ==> Exact()
      ensures !raised ==> seen == BlocksDuring(waits)
      ensures Running(cs, mempool.pool, raised) == Waited(env, old(cs), old(mempool.pool), waits)
      ensures (forall i :: 0 <= i < |waits| ==> waits[i].poll.None?) ==> history == old(history)
    {
      hide Consistent, Drained, Evaluate, FairOffer, Node.PoolAfterOffer, Climbs, Waited, Polled;
      seen, raised := [], false;
      assert waits[0..] == waits;
      var i := 0;
      while i < |waits|
        invariant 0 <= i <= |waits| && !raised && Valid()
        invariant old(history) <= history
        invariant old(Exact()) && SealedWaits(env, waits) ==> Exact()
        invariant seen == BlocksDuring(waits[..i])
        invariant Waited(env, old(cs), old(mempool.pool), waits) == Waited(env, cs, mempool.pool, waits[i..])
        invariant (forall k :: 0 <= k < i ==> waits[k].poll.None?) ==> history == old(history)
      {
        assert waits[..i + 1][..i] == waits[..i];
        WaitedNext(env, cs, mempool.pool, waits, i);
        ConsistentFacts(env, cs, view, storage.tables, accepted, history);
        ghost var before := cs;
        var found;
        found, raised := DrainQueue(waits[i].msgs);
        if raised {
          return;
        }
        seen := seen + found;
        ghost var drained := mempool.pool;
        if waits[i].poll.Some? {
          var _ := ApplyBetterChain(waits[i].poll.value.chain, waits[i].poll.value.now);
        }
        PolledIs(env, before, drained, waits[i].poll);
        i := i + 1;
      }
      assert waits[..i] == waits;
      WaitedNext(env, cs, mempool.pool, waits, i);
    }

    /** The end of the cycle, once the VDF has answered and the tip has not moved. A block is committed exactly when
        the candidate can be mined and no handler of the last drain raises. */
    method FinishCycle(start: ChainState, iterations: int, vdfOutput: string, vdfProof: string, seen: seq<Block>,
                       drained: seq<Message>, now: Instant) returns (committed: Option<Block>)
      requires Valid() && cs == start
      modifies this, mempool, storage
      ensures Valid()
      ensures old(Exact()) ==> Exact()
      ensures committed.None? ==> history == old(history) && cs == start
      ensures committed.Some? ==>
        && history == old(history) + [cs] && |history| >= 2 && history[|history| - 2] == start
        && cs.chain == start.chain + [committed.value] && ApplyBlock(start, committed.value) == Some(cs)
      ensures committed.Some? ==> Wins(env, start, committed.value, seen + BlocksIn(drained), now)
      ensures start.chain != []
      ensures Mined(env, start, Running(start, old(mempool.pool), false), addr, iterations, vdfOutput, vdfProof,
                    drained, now, committed, cs, mempool.pool)
    {
      hide Consistent, Mineable, Candidate, Mined, Wins, Drained, Extends;
      ConsistentFacts(env, cs, view, storage.tables, accepted, history);
      ghost var w := Running(start, mempool.pool, false);
      committed := ChooseBlock(start, iterations, vdfOutput, vdfProof, seen, drained, now);
      if committed.None? {
        NotMined(env, start, w, addr, iterations, vdfOutput, vdfProof, drained, now, mempool.pool);
        return;
      }
      ghost var left := mempool.pool;
      Commit(committed.value);
      IsMined(env, start, w, addr, iterations, vdfOutput, vdfProof, drained, now, committed.value, cs, left);
    }

    /** The candidate is built and checked, the queue drained once more, and the winner picked. */
    method ChooseBlock(start: ChainState, iterations: int, vdfOutput: string, vdfProof: string, seen: seq<Block>,
                       drained: seq<Message>, now: Instant) returns (winner: Option<Block>)
      requires PoolValid() && cs == start && start.chain != [] && start.Tip().height >= 0
      modifies mempool, `localPending
      ensures PoolValid()
      ensures
        var own := Mineable(env, start, old(mempool.pool), addr, iterations, vdfOutput, vdfProof, now);
        var c := Candidate(env, start, old(mempool.pool), addr, iterations, vdfOutput, vdfProof, now);
        var d := Drained(env, start.ledger, old(mempool.pool), drained);
        && (winner.Some? <==> own && !d.raised)
        && mempool.pool == (if own then d.pool else old(mempool.pool))
        && (winner.Some? ==>
              && !StringLess(TieBreakKey(c), TieBreakKey(winner.value))
              && winner.value.height != 0 && Extends(env, winner.value, start.ledger, start.chain)
              && Wins(env, start, winner.value, seen + BlocksIn(drained), now))
    {
      MineableIff(env, start, mempool.pool, addr, iterations, vdfOutput, vdfProof, now);
      hide Mineable, Candidate, Wins, Drained;
      var candidate := BuildCandidate(start, iterations, vdfOutput, vdfProof, now);
      var probe := SnapshotOf(start.ledger);
      var verdict := ValidateInPlace(env, candidate, probe, start.chain, now);
      if verdict.Reject? {
        return None;
      }
      var more, raised := DrainQueue(drained);
      if raised {
        return None;
      }
      var best, _ := PickWinner(start, candidate, seen + more, now);
      if best.None? {
        return None;
      }
      winner := best;
      WinnerIsValid(env, start, candidate, winner.value, seen, more, now);
      hide Extends, ValidSibling, ValidateBlock;
    }

    /** assemble on the tip, then the VDF fields and the hash. */
    method BuildCandidate(start: ChainState, iterations: int, vdfOutput: string, vdfProof: string, now: Instant)
      returns (candidate: Block)
      requires start.chain != []
      ensures candidate
           == Candidate(env, start, mempool.pool, addr, iterations, vdfOutput, vdfProof, now)
      ensures candidate.height == start.Tip().height + 1 && candidate.previousHash == start.Tip().hash
      ensures candidate.timestamp == now && candidate.hash == BlockHash(env, candidate)
      ensures candidate.txs == Assembled(env, start.Tip(), TxsOf(mempool.pool), addr, iterations, None, now).txs
      ensures candidate.vdfOutput == Some(vdfOutput) && candidate.vdfProof == Some(vdfProof)
      ensures candidate.vdfIterations == iterations && candidate.builder == Some(addr)
    {
      var draft := Assemble(env, start.Tip(), TxsOf(mempool.pool), addr, iterations, None, now);
      candidate := draft.(vdfOutput := Some(vdfOutput), vdfProof := Some(vdfProof), vdfIterations := iterations);
      candidate := candidate.(hash := BlockHash(env, candidate));
    }

    /** The start of the cycle: queue, retries, sync, prune. */
    method StartCycle(inbox: seq<Message>, sync: Option<Offer>, now: Instant) returns (raised: bool)
      requires Valid() && FairPoll(env, sync)
      modifies this, mempool, storage
      ensures Valid() && old(history) <= history
      ensures old(Exact()) && SealedPoll(env, sync) ==> Exact()
      ensures Running(cs, mempool.pool, raised) == Started(env, old(cs), old(mempool.pool), inbox, sync, now)
      ensures sync.None? ==> history == old(history)
    {
      hide Consistent, Node.PoolAfterOffer, Evaluate, Drained, FairOffer;
      ConsistentFacts(env, cs, view, storage.tables, accepted, history);
      var _, stopped := DrainQueue(inbox);
      raised := stopped;
      if raised {
        return;
      }
      var _ := RetryStuckLocalTxs(now);
      if sync.Some? {
        var _ := ApplyBetterChain(sync.value.chain, sync.value.now);
      }
      var _ := mempool.PruneStale(cs.ledger, now, MEMPOOL_TTL);
    }

    /** The mining half of the cycle. A commit happens only on the chain state the VDF was started on:
        if a poll swapped it meanwhile, the finished candidate is dropped. */
    method Mine(waits: seq<Wait>, vdfOutput: string, vdfProof: string, drained: seq<Message>, now: Instant)
      returns (committed: Option<Block>)
      requires Valid() && forall i :: 0 <= i < |waits| ==> FairPoll(env, waits[i].poll)
      modifies this, mempool, storage
      ensures Valid() && old(history) <= history
      ensures old(Exact()) && SealedWaits(env, waits) ==> Exact()
      ensures committed.Some? ==> |history| >= 2 && cs.chain == history[|history| - 2].chain + [committed.value]
      ensures committed.Some? ==>
        Wins(env, history[|history| - 2], committed.value, BlocksDuring(waits) + BlocksIn(drained), now)
      ensures old(cs).chain != []
      ensures Mined(env, old(cs), Waited(env, old(cs), old(mempool.pool), waits), addr,
                    GetVdfIterations(old(cs).chain), vdfOutput, vdfProof, drained, now, committed, cs, mempool.pool)
      ensures committed.Some? ==> history[|history| - 2] == old(cs) && history[|history| - 1] == cs
      ensures (forall i :: 0 <= i < |waits| ==> waits[i].poll.None?) ==>
        history == old(history) + if committed.Some? then [cs] else []
    {
      hide Wins, Consistent, Waited, Drained, Mined;
      ConsistentFacts(env, cs, view, storage.tables, accepted, history);
      var start := cs;
      var iterations := GetVdfIterations(start.chain);
      var seen, raised := WaitForVdf(waits);
      committed := None;
      if raised || cs != start {
        NotMined(env, start, Running(cs, mempool.pool, raised), addr, iterations, vdfOutput, vdfProof, drained, now,
                 mempool.pool);
      } else {
        committed := FinishCycle(start, iterations, vdfOutput, vdfProof, seen, drained, now);
      }
    }

    /** _run_cycle. */
    method RunCycle(inbox: seq<Message>, sync: Option<Offer>, startTime: Instant, waits: seq<Wait>,
                    vdfOutput: string, vdfProof: string, drained: seq<Message>, now: Instant)
      returns (committed: Option<Block>)
      requires Valid() && FairPoll(env, sync)
      requires forall i :: 0 <= i < |waits| ==> FairPoll(env, waits[i].poll)
      modifies this, mempool, storage
      ensures Valid() && old(history) <= history
      ensures old(Exact()) && SealedPoll(env, sync) && SealedWaits(env, waits) ==> Exact()
      ensures committed.Some? ==> |history| >= 2 && cs.chain == history[|history| - 2].chain + [committed.value]
      ensures committed.Some? ==>
        Wins(env, history[|history| - 2], committed.value, BlocksDuring(waits) + BlocksIn(drained), now)
      ensures
        var s := Started(env, old(cs), old(mempool.pool), inbox, sync, startTime);
        if s.raised then committed.None? && cs == s.cs && mempool.pool == s.pool
        else
          && s.cs.chain != []
          && Mined(env, s.cs, Waited(env, s.cs, s.pool, waits), addr, GetVdfIterations(s.cs.chain), vdfOutput,
                   vdfProof, drained, now, committed, cs, mempool.pool)
          && (committed.Some? ==> history[|history| - 2] == s.cs && history[|history| - 1] == cs)
      ensures sync.None? && (forall i :: 0 <= i < |waits| ==> waits[i].poll.None?) ==>
        history == old(history) + if committed.Some? then [cs] else []
    {
      hide Wins, Consistent, Started, Waited, Mined;
      var raised := StartCycle(inbox, sync, startTime);
      committed := None;
      if !raised {
        committed := Mine(waits, vdfOutput, vdfProof, drained, now);
      }
    }

    /** start: cycle after cycle. At the end of any run the chain as accepted is valid from genesis and the
        tables mirror it; the held chain is it but for filled-in tx_bytes, with its replay for a ledger; the
        published view is what is held; the chain states held on the way climbed strictly. Without a restart,
        and with offers whose blocks carry their own hashes, the held chain is the accepted one. */
    method Start(cycles: seq<Cycle>)
      requires Valid() && forall c :: c in cycles ==> FairCycle(env, c)
      modifies this, mempool, storage
      ensures Valid() && old(history) <= history && Climbs(history)
      ensures Held(env, cs, accepted) && view == cs && Mirrors(env, storage.tables, accepted)
      ensures history != [] && history[|history| - 1] == cs
      ensures old(Exact()) && (forall c :: c in cycles ==> SealedCycle(env, c)) ==> Exact()
    {
      hide Consistent, Wins, FairPoll, SealedPoll, SealedWaits, Climbs, Held, Mirrors;
      var i := 0;
      while i < |cycles|
        invariant 0 <= i <= |cycles| && Valid() && old(history) <= history
        invariant old(Exact()) && (forall c :: c in cycles ==> SealedCycle(env, c)) ==> Exact()
      {
        var c := cycles[i];
        assert FairCycle(env, c) && c in cycles;
        var _ := RunCycle(c.inbox, c.sync, c.startTime, c.waits, c.vdfOutput, c.vdfProof, c.drained, c.now);
        i := i + 1;
      }
      ConsistentMeans(env, cs, view, storage.tables, accepted, history);
    }
  }

  /** Committing one's own block moves ledger and pool exactly as the CommitOwn move of PendingRun. */
  lemma {:induction false} OwnCommitIsMove(e: Env, cs: ChainState, pool: seq<Entry>, c: Block, builder: Address,
                                           iterations: int, now: Instant)
    requires cs.chain != []
    requires c.builder == Some(builder)
    requires c.txs == Assembled(e, cs.Tip(), TxsOf(pool), builder, iterations, None, now).txs
    ensures var moved := After(e, Pending(cs.ledger, pool), CommitOwn(cs.Tip(), builder, iterations, None, now));
      && (moved.Some? <==> ApplyBlock(cs, c).Some?)
      && (moved.Some? ==>
            moved.value == Pending(ApplyBlock(cs, c).value.ledger, Filter(pool, NoneOf(TxHashes(e, c.txs)))))
  {
    var b := Assembled(e, cs.Tip(), TxsOf(pool), builder, iterations, None, now);
    assert b.builder == c.builder && BlockFees(b) == BlockFees(c);
    var applied := ReplayTxs(cs.ledger, c.txs);
    if applied.Done? {
      assert Settle(applied.ledger, b) == Settle(applied.ledger, c);
    }
  }

  lemma LesserStaysLeast(bs: seq<Block>, best: Block, p: Block)
    requires forall b :: b in bs ==> !StringLess(TieBreakKey(b), TieBreakKey(best))
    requires StringLess(TieBreakKey(p), TieBreakKey(best))
    ensures forall b :: b in bs ==> !StringLess(TieBreakKey(b), TieBreakKey(p))
  {
    forall b | b in bs ensures !StringLess(TieBreakKey(b), TieBreakKey(p)) {
      if StringLess(TieBreakKey(b), TieBreakKey(p)) {
        StringLessTransitive(TieBreakKey(b), TieBreakKey(p), TieBreakKey(best));
      }
    }
  }
}
