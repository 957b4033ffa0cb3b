/** The mempool and the packer together: over any run of validated additions and commits of the
    node's own blocks, what is pending always applies. */
module PendingRun {
  import opened Params
  import opened Prelude
  import opened Types
  import opened Ledgers
  import opened TxRules
  import opened BlockRules
  import opened Packing
  import opened Chains
  import opened Mempools

  /** Each sender's pending transactions apply cleanly, in nonce order, to the confirmed ledger. */
  ghost predicate PendingApplies(e: Env, l: Ledger, txs: seq<Tx>) {
    forall a :: RunTxs(e, l, Group(txs, a)).Ran?
  }

  /** Hence the probe for any sender is built without raising. */
  lemma {:induction false} ProbeNeverRaises(e: Env, l: Ledger, txs: seq<Tx>, a: Address)
    requires PendingApplies(e, l, txs)
    ensures ReplayTxs(l, Group(txs, a)) == Done(RunTxs(e, l, Group(txs, a)).ledger)
  {
    assert RunTxs(e, l, Group(txs, a)).Ran?;
    RunIsReplay(e, l, Group(txs, a));
  }

  /** A sender's pending nonces follow the confirmed one without a gap. */
  lemma {:induction false} GroupNonces(e: Env, l: Ledger, txs: seq<Tx>, a: Address)
    requires PendingApplies(e, l, txs)
    ensures forall i :: 0 <= i < |Group(txs, a)| ==> Group(txs, a)[i].nonce == l.Nonce(a) + 1 + i
    ensures RunTxs(e, l, Group(txs, a)).ledger.Nonce(a) == l.Nonce(a) + |Group(txs, a)|
  {
    var g := Group(txs, a);
    assert RunTxs(e, l, g).Ran?;
    GroupMembers(txs, a);
    FilterAll(g, By(a));
    RunNonces(e, l, g, a);
  }

  lemma {:induction false} ProbeNonceIsLargest(e: Env, l: Ledger, txs: seq<Tx>, t: Tx)
    requires PendingApplies(e, l, txs)
    requires Validate(e, t, RunTxs(e, l, Group(txs, t.from)).ledger).Accept?
    ensures forall x :: x in Filter(txs, By(t.from)) ==> x.nonce < t.nonce
  {
    var g := Group(txs, t.from);
    GroupNonces(e, l, txs, t.from);
    ValidateMeaning(e, t, RunTxs(e, l, g).ledger);
    SortKeepsMembers(Filter(txs, By(t.from)), NonceKey());
    forall x | x in Filter(txs, By(t.from)) ensures x.nonce < t.nonce {
      assert x in g;
      var i :| 0 <= i < |g| && g[i] == x;
    }
  }

  /** A transaction valid on its sender's probe goes to the end of that sender's group. */
  lemma {:induction false} GroupGrows(e: Env, l: Ledger, txs: seq<Tx>, t: Tx)
    requires PendingApplies(e, l, txs)
    requires Validate(e, t, RunTxs(e, l, Group(txs, t.from)).ledger).Accept?
    ensures Group(txs + [t], t.from) == Group(txs, t.from) + [t]
  {
    ProbeNonceIsLargest(e, l, txs, t);
    GroupAppend(txs, t);
  }

  lemma {:induction false} GroupAppend(txs: seq<Tx>, t: Tx)
    requires forall x :: x in Filter(txs, By(t.from)) ==> x.nonce < t.nonce
    ensures Group(txs + [t], t.from) == Group(txs, t.from) + [t]
  {
    var mine := Filter(txs, By(t.from));
    FilterConcat(txs, [t], By(t.from));
    assert Filter([t], By(t.from)) == [t];
    forall x | x in mine ensures NonceKey()(x) < NonceKey()(t) {
    }
    SortAppendLargest(mine, t, NonceKey());
  }

  /** Adding a transaction that was validated on its sender's probe keeps everything applicable. */
  lemma {:induction false} AddingKeepsPending(e: Env, l: Ledger, txs: seq<Tx>, t: Tx)
    requires PendingApplies(e, l, txs)
    requires Validate(e, t, RunTxs(e, l, Group(txs, t.from)).ledger).Accept?
    ensures PendingApplies(e, l, txs + [t])
  {
    GroupGrows(e, l, txs, t);
    forall a ensures RunTxs(e, l, Group(txs + [t], a)).Ran? {
      assert RunTxs(e, l, Group(txs, a)).Ran?;
      FilterConcat(txs, [t], By(a));
      if a == t.from {
        RunConcat(e, l, Group(txs, a), [t]);
        var l1 := RunTxs(e, l, Group(txs, a)).ledger;
        assert RunTxs(e, l1, [t]) == RunTxs(e, ApplyTx(l1, t).ledger, []);
      } else {
        assert Filter(txs + [t], By(a)) == Filter(txs, By(a));
      }
    }
  }

  // ------------------------------------------------------------------- committing one's own block

  /** Not among the hashes of a block's transactions. */
  function Unconfirmed(e: Env, packed: seq<Tx>): Tx -> bool {
    (t: Tx) => TxHash(e, t) !in TxHashes(e, packed)
  }

  /** The confirmed set of _commit. */
  function TxHashes(e: Env, txs: seq<Tx>): seq<Hash> {
    if txs == [] then [] else [TxHash(e, txs[0])] + TxHashes(e, txs[1..])
  }

  lemma {:induction false} TxHashesContain(e: Env, txs: seq<Tx>, h: Hash)
    ensures h in TxHashes(e, txs) <==> exists t :: t in txs && TxHash(e, t) == h
  {
    if txs != [] {
      TxHashesContain(e, txs[1..], h);
      if h in TxHashes(e, txs) {
        if h == TxHash(e, txs[0]) {
          assert txs[0] in txs;
        } else {
          var t :| t in txs[1..] && TxHash(e, t) == h;
          assert t in txs;
        }
      }
      if t :| t in txs && TxHash(e, t) == h {
        if t != txs[0] {
          assert t in txs[1..];
        }
      }
    }
  }

  /** remove_many on the pool is a filter on its transactions. */
  lemma {:induction false} RemovingConfirmed(e: Env, pool: seq<Entry>, packed: seq<Tx>)
    requires forall x :: x in pool ==> x.hash == TxHash(e, x.tx)
    ensures TxsOf(Filter(pool, NoneOf(TxHashes(e, packed)))) == Filter(TxsOf(pool), Unconfirmed(e, packed))
  {
    if pool != [] {
      assert pool[0] in pool;
      RemovingConfirmed(e, pool[1..], packed);
      var keep := NoneOf(TxHashes(e, packed));
      if keep(pool[0]) {
        assert ([pool[0]] + Filter(pool[1..], keep))[1..] == Filter(pool[1..], keep);
      }
    }
  }

  lemma {:induction false} FilterGroup(txs: seq<Tx>, keep: Tx -> bool, a: Address)
    ensures Group(Filter(txs, keep), a) == Filter(Group(txs, a), keep)
  {
    FilterCommutes(txs, keep, By(a));
    FilterSort(Filter(txs, By(a)), NonceKey(), keep);
  }

  /** A transaction of the group behind the packed prefix is not confirmed. */
  lemma {:induction false} TailUnconfirmed(e: Env, l: Ledger, txs: seq<Tx>, packed: seq<Tx>, a: Address, i: nat)
    requires TxCollisionFree(e) && PendingApplies(e, l, txs) && PrefixOfEach(txs, packed)
    requires |Filter(packed, By(a))| <= i < |Group(txs, a)|
    ensures Unconfirmed(e, packed)(Group(txs, a)[i])
  {
    var g, p := Group(txs, a), Filter(packed, By(a));
    var x := g[i];
    assert p <= g;
    GroupNonces(e, l, txs, a);
    forall t | t in packed ensures TxHash(e, t) != TxHash(e, x) {
      if t.from == a {
        assert By(a)(t);
        var j :| 0 <= j < |p| && p[j] == t;
        assert g[j] == t;
      } else {
        GroupMembers(txs, a);
        assert x in g;
      }
      DifferentTxDifferentHash(e, t, x);
    }
    TxHashesContain(e, packed, TxHash(e, x));
  }

  lemma {:induction false} PackedConfirmed(e: Env, packed: seq<Tx>, a: Address, i: nat)
    requires i < |Filter(packed, By(a))|
    ensures !Unconfirmed(e, packed)(Filter(packed, By(a))[i])
  {
    var t := Filter(packed, By(a))[i];
    assert t in packed;
    TxHashesContain(e, packed, TxHash(e, t));
  }

  /** Of each sender, exactly the packed prefix leaves the pool. */
  lemma {:induction false} ConfirmedPrefixLeaves(e: Env, l: Ledger, txs: seq<Tx>, packed: seq<Tx>, a: Address)
    requires TxCollisionFree(e) && PendingApplies(e, l, txs) && PrefixOfEach(txs, packed)
    ensures |Filter(packed, By(a))| <= |Group(txs, a)|
    ensures Group(Filter(txs, Unconfirmed(e, packed)), a) == Group(txs, a)[|Filter(packed, By(a))|..]
  {
    hide PendingApplies, TxCollisionFree, TxHashes;
    var keep := Unconfirmed(e, packed);
    var g, p := Group(txs, a), Filter(packed, By(a));
    assert p <= g;
    forall i | 0 <= i < |g|
      ensures keep(g[i]) <==> i >= |p|
    {
      if i < |p| {
        assert g[i] == p[i];
        PackedConfirmed(e, packed, a, i);
      } else {
        TailUnconfirmed(e, l, txs, packed, a, i);
      }
    }
    hide Group, Filter, PrefixOfEach, Unconfirmed;
    FilterGroup(txs, keep, a);
    FilterCutsPrefix(g, |p|, keep);
  }

  lemma DifferentTxDifferentHash(e: Env, t: Tx, u: Tx)
    requires TxCollisionFree(e) && (t.from != u.from || t.nonce != u.nonce)
    ensures TxHash(e, t) != TxHash(e, u)
  {
    var t0, u0 := t.(signature := ""), u.(signature := "");
    assert t.from == t0.from && t.nonce == t0.nonce && u.from == u0.from && u.nonce == u0.nonce;
    assert e.bodyHash(t0) == e.bodyHash(u0) ==> t0 == u0;
  }

  /** The builder's credit leaves nobody worse off. */
  lemma SettleNoWorse(l: Ledger, b: Block, a: Address)
    requires BlockFees(b) >= 0
    ensures NoWorseFor(a, l, Settle(l, b))
  {
    if HasBuilder(b) {
      var builder := b.builder.value;
      var fees := BlockFees(b);
      var paid := if fees > 0 then Credit(l, builder, fees).ledger else l;
      if Reward(paid.minted) >= 1 {
        DistributeOne(paid, builder, Reward(paid.minted));
      }
    }
  }

  lemma {:induction false} RunFees(e: Env, l: Ledger, txs: seq<Tx>)
    requires RunTxs(e, l, txs).Ran?
    ensures TotalFees(txs) >= 0
    decreases |txs|
  {
    if txs != [] {
      ValidateMeaning(e, txs[0], l);
      RunFees(e, ApplyTx(l, txs[0]).ledger, txs[1..]);
    }
  }

  /** Committing a block that packs a prefix of each sender's pending transactions keeps the rest
      applicable to the new ledger. */
  lemma {:induction false} CommittingKeepsPending(e: Env, l: Ledger, txs: seq<Tx>, b: Block)
    requires TxCollisionFree(e) && PendingApplies(e, l, txs) && PrefixOfEach(txs, b.txs)
    ensures RunTxs(e, l, b.txs).Ran?
    ensures PendingApplies(e, Settle(RunTxs(e, l, b.txs).ledger, b), Filter(txs, Unconfirmed(e, b.txs)))
  {
    PrefixesRun(e, l, txs, b.txs);
    InterleavingRuns(e, l, b.txs);
    forall a
      ensures RunTxs(e, Settle(RunTxs(e, l, b.txs).ledger, b), Group(Filter(txs, Unconfirmed(e, b.txs)), a)).Ran? {
      CommittingKeepsOne(e, l, txs, b, a);
    }
  }

  lemma {:induction false} CommittingKeepsOne(e: Env, l: Ledger, txs: seq<Tx>, b: Block, a: Address)
    requires TxCollisionFree(e) && PendingApplies(e, l, txs) && PrefixOfEach(txs, b.txs)
    requires RunTxs(e, l, b.txs).Ran? && RunTxs(e, l, Filter(b.txs, By(a))).Ran?
    requires NoWorseFor(a, RunTxs(e, l, Filter(b.txs, By(a))).ledger, RunTxs(e, l, b.txs).ledger)
    ensures RunTxs(e, Settle(RunTxs(e, l, b.txs).ledger, b), Group(Filter(txs, Unconfirmed(e, b.txs)), a)).Ran?
  {
    var after := RunTxs(e, l, b.txs).ledger;
    var g, p := Group(txs, a), Filter(b.txs, By(a));
    var s := g[|p|..];
    assert p <= g;
    assert g == p + s;
    assert RunTxs(e, l, g).Ran?;
    hide PendingApplies, PrefixOfEach, RunTxs, Settle, Filter, Group, TxCollisionFree, BlockFees;
    RunConcat(e, l, p, s);
    RunFees(e, l, b.txs);
    ConfirmedPrefixLeaves(e, l, txs, b.txs, a);
    SettleNoWorse(after, b, a);
    GroupMembers(txs, a);
    RunMonotone(e, a, RunTxs(e, l, p).ledger, Settle(after, b), s);
  }

  // ------------------------------------------------------------------------------------ whole runs

  /** The confirmed ledger and the pool. */
  datatype Pending = Pending(ledger: Ledger, pool: seq<Entry>)

  /** An addition by submit_tx or an inbound transaction, a commit of a block the node assembled
      itself, or a prune. */
  datatype Move =
    | Submit(t: Tx, now: Instant)
    | CommitOwn(tip: Block, builder: Address, iterations: int, budget: Option<nat>, clock: Instant)
    | Prune(at: Instant)

  /** What a move does, by the program's own steps; None where the program raises. */
  function After(e: Env, s: Pending, m: Move): Option<Pending> {
    match m
    case Submit(t, now) =>
      var probe := ReplayTxs(s.ledger, Group(TxsOf(s.pool), t.from));
      if probe.Raised? then None
      else if Validate(e, t, probe.ledger).Reject? then Some(s)
      else
        var added := Admit(e, s.pool, t, now);
        if added.Added? then Some(s.(pool := added.pool)) else Some(s)
    case CommitOwn(tip, builder, iterations, budget, clock) =>
      var b := Assembled(e, tip, TxsOf(s.pool), builder, iterations, budget, clock);
      var applied := ReplayTxs(s.ledger, b.txs);
      if applied.Raised? then None
      else Some(Pending(Settle(applied.ledger, b), Filter(s.pool, NoneOf(TxHashes(e, b.txs)))))
    case Prune(now) =>
      Some(s.(pool := Filter(s.pool, Fresh(s.ledger, now, MEMPOOL_TTL))))
  }

  /** The move neither evicts nor expires anything. */
  ghost predicate Gentle(e: Env, s: Pending, m: Move) {
    match m
    case Submit(t, _) => SumSizes(e, s.pool) + TxSize(e, t) <= MEMPOOL_MAX_BYTES
    case CommitOwn(_, _, _, _, _) => true
    case Prune(now) => forall x :: x in s.pool ==> now - x.entered <= MEMPOOL_TTL
  }

  ghost predicate Sound(e: Env, s: Pending) {
    PendingApplies(e, s.ledger, TxsOf(s.pool)) && Keyed(e, s.pool)
  }

  /** t may enter: it is new, well formed, next after its sender's pending ones, covered by what these leave of the
      balance, and there is room or some can be made. */
  ghost predicate Enters(e: Env, s: Pending, t: Tx) {
    var mine := Group(TxsOf(s.pool), t.from);
    && !Holds(s.pool, TxHash(e, t)) && WellFormed(e, t) && t.nonce == s.ledger.Nonce(t.from) + |mine| + 1
    && TotalOut(t.outputs) + t.fee <= s.ledger.Balance(t.from) + Received(mine, t.from) - Spent(mine, t.from)
    && (SumSizes(e, s.pool) + TxSize(e, t) <= 100_000_000 || exists k: nat :: MakesRoom(e, s.pool, t, k))
  }

  /** A submission never raises, and puts exactly what may enter into the pool. */
  lemma SubmitEnters(e: Env, s: Pending, t: Tx, now: Instant)
    requires Sound(e, s)
    ensures After(e, s, Submit(t, now)).Some?
    ensures
      var next := After(e, s, Submit(t, now)).value;
      && next.ledger == s.ledger
      && (Holds(next.pool, TxHash(e, t)) <==> Enters(e, s, t) || Holds(s.pool, TxHash(e, t)))
      && (if Enters(e, s, t) then next.pool != [] && next.pool[|next.pool| - 1] == Entry(TxHash(e, t), t, now)
          else next.pool == s.pool)
  {
    var mine := Group(TxsOf(s.pool), t.from);
    ProbeNeverRaises(e, s.ledger, TxsOf(s.pool), t.from);
    hide PendingApplies, Keyed;
    PendingProbe(e, s.ledger, TxsOf(s.pool), t.from);
    ValidateMeaning(e, t, RunTxs(e, s.ledger, mine).ledger);
    hide RunTxs, Group, Validate, WellFormed, Received, Spent, TotalOut;
    AdmitEnters(e, s.pool, t, now);
    hide Admit, MakesRoom, Holds;
  }

  /** The ledger the probe ends in, at the sender. */
  lemma {:induction false} PendingProbe(e: Env, l: Ledger, txs: seq<Tx>, a: Address)
    requires PendingApplies(e, l, txs)
    ensures
      var mine := Group(txs, a);
      && RunTxs(e, l, mine).Ran? && RunTxs(e, l, mine).ledger.Nonce(a) == l.Nonce(a) + |mine|
      && RunTxs(e, l, mine).ledger.Balance(a) == l.Balance(a) + Received(mine, a) - Spent(mine, a)
  {
    var mine := Group(txs, a);
    assert RunTxs(e, l, mine).Ran?;
    hide PendingApplies;
    RunPays(e, l, mine, a);
    RunNonces(e, l, mine, a);
    GroupMembers(txs, a);
    FilterAll(mine, By(a));
    hide RunTxs, Group, Filter;
  }

  lemma {:induction false} AdmitEnters(e: Env, pool: seq<Entry>, t: Tx, now: Instant)
    ensures
      var r := Admit(e, pool, t, now);
      var room := SumSizes(e, pool) + TxSize(e, t) <= 100_000_000 || exists k: nat :: MakesRoom(e, pool, t, k);
      && (r.Added? <==> !Holds(pool, TxHash(e, t)) && room)
      && (r.Added? ==>
            r.pool != [] && r.pool[|r.pool| - 1] == Entry(TxHash(e, t), t, now) && Holds(r.pool, TxHash(e, t)))
  {
    AddedHolds(e, pool, t, now);
    if !Holds(pool, TxHash(e, t)) && SumSizes(e, pool) + TxSize(e, t) > MEMPOOL_MAX_BYTES {
      AdmissionNeedsRoom(e, pool, t, now);
    }
    hide SumSizes, MakesRoom, SortBy, EvictCount, Filter, HashesOf;
  }

  lemma {:induction false} TxsOfConcat(a: seq<Entry>, b: seq<Entry>)
    ensures TxsOf(a + b) == TxsOf(a) + TxsOf(b)
  {
    if a == [] {
      assert a + b == b;
    } else {
      assert (a + b)[1..] == a[1..] + b;
      TxsOfConcat(a[1..], b);
    }
  }

  lemma {:induction false} EntryTx(pool: seq<Entry>, x: Entry)
    requires x in pool
    ensures x.tx in TxsOf(pool)
  {
    if x != pool[0] {
      EntryTx(pool[1..], x);
    }
  }

  lemma {:induction false} AdmitWithRoom(e: Env, pool: seq<Entry>, t: Tx, now: Instant)
    requires SumSizes(e, pool) + TxSize(e, t) <= MEMPOOL_MAX_BYTES
    ensures Admit(e, pool, t, now)
         == if Holds(pool, TxHash(e, t)) then Duplicate else Added(pool + [Entry(TxHash(e, t), t, now)])
  {
  }

  lemma {:induction false} TxsOfAppend(pool: seq<Entry>, x: Entry)
    ensures TxsOf(pool + [x]) == TxsOf(pool) + [x.tx]
  {
    TxsOfConcat(pool, [x]);
    assert TxsOf([x]) == [x.tx] + TxsOf([]);
  }

  lemma {:induction false} AppendSound(e: Env, s: Pending, t: Tx, now: Instant)
    requires Sound(e, s) && !Holds(s.pool, TxHash(e, t))
    requires Validate(e, t, RunTxs(e, s.ledger, Group(TxsOf(s.pool), t.from)).ledger).Accept?
    ensures Sound(e, Pending(s.ledger, s.pool + [Entry(TxHash(e, t), t, now)]))
  {
    var txs := TxsOf(s.pool);
    KeyedAppend(e, s.pool, t, now);
    TxsOfAppend(s.pool, Entry(TxHash(e, t), t, now));
    AddingKeepsPending(e, s.ledger, txs, t);
  }

  lemma SubmitKeepsSound(e: Env, s: Pending, m: Move)
    requires Sound(e, s) && m.Submit? && Gentle(e, s, m)
    ensures After(e, s, m).Some? && Sound(e, After(e, s, m).value)
  {
    ProbeNeverRaises(e, s.ledger, TxsOf(s.pool), m.t.from);
    AdmitWithRoom(e, s.pool, m.t, m.now);
    if !Holds(s.pool, TxHash(e, m.t))
      && Validate(e, m.t, RunTxs(e, s.ledger, Group(TxsOf(s.pool), m.t.from)).ledger).Accept? {
      AppendSound(e, s, m.t, m.now);
    }
  }

  lemma CommitKeepsSound(e: Env, s: Pending, m: Move)
    requires TxCollisionFree(e) && Sound(e, s) && m.CommitOwn?
    ensures After(e, s, m).Some? && Sound(e, After(e, s, m).value)
  {
    var txs := TxsOf(s.pool);
    var b := Assembled(e, m.tip, txs, m.builder, m.iterations, m.budget, m.clock);
    AssembledPrefixes(e, m.tip, txs, m.builder, m.iterations, m.budget, m.clock);
    CommittingKeepsPending(e, s.ledger, txs, b);
    RunIsReplay(e, s.ledger, b.txs);
    RemovingConfirmed(e, s.pool, b.txs);
    KeyedFilter(e, s.pool, NoneOf(TxHashes(e, b.txs)));
  }

  /** A prune finds nothing superseded to take away. */
  lemma PruneTakesNothing(e: Env, s: Pending, m: Move)
    requires Sound(e, s) && m.Prune? && Gentle(e, s, m)
    ensures After(e, s, m) == Some(s)
  {
    var txs := TxsOf(s.pool);
    forall x | x in s.pool ensures Fresh(s.ledger, m.at, MEMPOOL_TTL)(x) {
      var a := x.tx.from;
      EntryTx(s.pool, x);
      GroupMembers(txs, a);
      GroupNonces(e, s.ledger, txs, a);
      var i :| 0 <= i < |Group(txs, a)| && Group(txs, a)[i] == x.tx;
    }
    FilterAll(s.pool, Fresh(s.ledger, m.at, MEMPOOL_TTL));
  }

  /** The state after a list of moves, None once one has raised. */
  function RunMoves(e: Env, s: Pending, moves: seq<Move>): Option<Pending>
    decreases |moves|
  {
    if moves == [] then Some(s)
    else
      match RunMoves(e, s, moves[..|moves| - 1])
      case None => None
      case Some(before) => After(e, before, moves[|moves| - 1])
  }

  ghost predicate GentleRun(e: Env, s: Pending, moves: seq<Move>) {
    forall i :: 0 <= i < |moves| ==>
      RunMoves(e, s, moves[..i]).Some? ==> Gentle(e, RunMoves(e, s, moves[..i]).value, moves[i])
  }

  /** Over any run from an empty pool, on any ledger: nothing ever raises, and at the end each
      sender's pending transactions still apply. */
  lemma {:induction false} PendingAlwaysApplies(e: Env, start: Ledger, moves: seq<Move>)
    requires TxCollisionFree(e) && GentleRun(e, Pending(start, []), moves)
    ensures RunMoves(e, Pending(start, []), moves).Some?
    ensures Sound(e, RunMoves(e, Pending(start, []), moves).value)
    decreases |moves|
  {
    var s := Pending(start, []);
    if moves == [] {
      forall a ensures RunTxs(e, start, Group([], a)).Ran? {
        assert Group([], a) == [];
      }
    } else {
      var front := moves[..|moves| - 1];
      forall i | 0 <= i < |front| && RunMoves(e, s, front[..i]).Some?
        ensures Gentle(e, RunMoves(e, s, front[..i]).value, front[i])
      {
        assert front[..i] == moves[..i];
      }
      PendingAlwaysApplies(e, start, front);
      var before, m := RunMoves(e, s, front).value, moves[|moves| - 1];
      assert Gentle(e, before, m);
      match m
      case Submit(_, _) => SubmitKeepsSound(e, before, m);
      case CommitOwn(_, _, _, _, _) => CommitKeepsSound(e, before, m);
      case Prune(_) => PruneTakesNothing(e, before, m);
    }
  }

  /** Hence, at any point of such a run, every probe is built and every block assembled from the
      pool passes the transaction check. */
  lemma {:induction false} OwnBlocksAlwaysPass(e: Env, start: Ledger, moves: seq<Move>, tip: Block, builder: Address,
                                               iterations: int, budget: Option<nat>, now: Instant)
    requires TxCollisionFree(e) && GentleRun(e, Pending(start, []), moves)
    ensures RunMoves(e, Pending(start, []), moves).Some?
    ensures var s := RunMoves(e, Pending(start, []), moves).value;
      && (forall a :: ReplayTxs(s.ledger, Group(TxsOf(s.pool), a)).Done?)
      && var b := Assembled(e, tip, TxsOf(s.pool), builder, iterations, budget, now);
         ApplyTransactions(e, b, s.ledger).verdict.Accept?
  {
    PendingAlwaysApplies(e, start, moves);
    var s := RunMoves(e, Pending(start, []), moves).value;
    forall a ensures ReplayTxs(s.ledger, Group(TxsOf(s.pool), a)).Done? {
      ProbeNeverRaises(e, s.ledger, TxsOf(s.pool), a);
    }
    AssembledRuns(e, s.ledger, tip, TxsOf(s.pool), builder, iterations, budget, now);
  }
}
