/** The pure part of src/node.py: validating a tail, and evaluating a remote chain against the held one. */
module ForkChoice {
  import opened Params
  import opened Prelude
  import opened Types
  import opened Ledgers
  import opened TxRules
  import opened Difficulty
  import opened BlockRules
  import opened Chains
  import opened ChainMethods
  import opened Likeness

  /** What the node holds, given the chain as it was accepted: that chain up to tx_bytes, a ledger no getter
      can tell from its replay, and its work. */
  ghost predicate Held(e: Env, cs: ChainState, accepted: seq<Block>) {
    && ValidChain(e, accepted) && AlikeAll(cs.chain, accepted)
    && SameView(cs.ledger, LedgerOf(accepted))
    && cs.work == CumulativeIterations(accepted)
  }

  lemma HeldNonEmpty(e: Env, cs: ChainState, accepted: seq<Block>)
    requires Held(e, cs, accepted)
    ensures accepted != [] && accepted[0] == Genesis(e)
    ensures cs.chain != [] && cs.Tip().height == |cs.chain| - 1 && cs.chain[0].hash == Genesis(e).hash
  {
    HeightIsPosition(e, accepted, |accepted| - 1);
    PrefixIsValid(e, accepted, 1);
    assert accepted[0] == accepted[..1][0];
    hide ValidChain, SameView;
    AlikeFields(cs.chain[0], accepted[0]);
    AlikeFields(cs.Tip(), accepted[|accepted| - 1]);
  }

  lemma {:induction false} ReplayedIsHeld(e: Env, chain: seq<Block>, accepted: seq<Block>)
    requires ValidChain(e, accepted) && AlikeAll(chain, accepted)
    ensures FromChain(chain).Some? && Held(e, FromChain(chain).value, accepted)
    ensures FromChain(chain).value.chain == chain
  {
    ValidChainReplays(e, accepted);
    AlikeFromChain(chain, accepted);
  }

  /** The held chain is valid as it stands exactly when each of its blocks still carries its own hash, and
      then it is the chain as accepted. */
  lemma {:induction false} HeldValidIff(e: Env, cs: ChainState, accepted: seq<Block>)
    requires BlockCollisionFree(e) && Held(e, cs, accepted)
    ensures ValidChain(e, cs.chain) <==> Sealed(e, cs.chain)
    ensures ValidChain(e, cs.chain) ==> cs.chain == accepted
  {
    if Sealed(e, cs.chain) {
      forall i | 0 <= i < |cs.chain| ensures cs.chain[i] == accepted[i] {
        ValidHashes(e, accepted, i);
        AlikeFields(cs.chain[i], accepted[i]);
        SameHashSame(e, cs.chain[i], accepted[i]);
      }
      assert cs.chain == accepted;
    } else if ValidChain(e, cs.chain) {
      forall i | 0 <= i < |cs.chain| ensures cs.chain[i].hash == BlockHash(e, cs.chain[i]) {
        ValidHashes(e, cs.chain, i);
      }
    }
  }

  // ----------------------------------------------------------- one block more on the held chain

  lemma SettleSameView(l: Ledger, m: Ledger, b: Block)
    requires SameView(l, m)
    ensures SameView(Settle(l, b), Settle(m, b))
  {
    if HasBuilder(b) {
      var a := b.builder.value;
      var fees := BlockFees(b);
      WriteSameView(l, m, a, l.Balance(a) + fees);
      var x := if fees > 0 then Credit(l, a, fees).ledger else l;
      var y := if fees > 0 then Credit(m, a, fees).ledger else m;
      assert SameView(x, y);
      var reward := Reward(x.minted);
      if reward >= 1 {
        DistributeOne(x, a, reward);
        DistributeOne(y, a, reward);
        PaySameView(x, y, a, reward);
      }
      hide SameView, Reward, Credit, BlockFees, Distribute;
    }
  }

  lemma PaySameView(l: Ledger, m: Ledger, a: Address, n: int)
    requires SameView(l, m)
    ensures SameView(l.(balances := l.balances[a := l.Balance(a) + n], minted := l.minted + n),
                     m.(balances := m.balances[a := m.Balance(a) + n], minted := m.minted + n))
  {
    var v := l.Balance(a) + n;
    var x, y := l.(balances := l.balances[a := v], minted := l.minted + n),
                m.(balances := m.balances[a := v], minted := m.minted + n);
    forall c ensures x.Balance(c) == y.Balance(c) && x.Nonce(c) == y.Nonce(c) {
      assert l.Balance(c) == m.Balance(c) && l.Nonce(c) == m.Nonce(c);
    }
  }

  lemma ExtendsSameView(e: Env, b: Block, l: Ledger, m: Ledger, chain: seq<Block>)
    requires SameView(l, m) && Extends(e, b, l, chain)
    ensures Extends(e, b, m, chain)
  {
    RunSameView(e, l, m, b.txs);
  }

  /** Appending a block that extends the held chain never raises, is held again, and is better. */
  lemma HeldGrows(e: Env, cs: ChainState, accepted: seq<Block>, b: Block)
    requires Held(e, cs, accepted) && b.height != 0 && Extends(e, b, cs.ledger, cs.chain)
    ensures ApplyBlock(cs, b).Some?
    ensures ApplyBlock(cs, b).value.chain == cs.chain + [b]
    ensures Held(e, ApplyBlock(cs, b).value, accepted + [b])
    ensures cs.chain != [] && IsBetter(ApplyBlock(cs, b).value, cs)
  {
    var grown := accepted + [b];
    var m := LedgerOf(accepted);
    AlikeExtends(e, b, cs.ledger, cs.chain, accepted);
    ExtendsSameView(e, b, cs.ledger, m, accepted);
    HeldNonEmpty(e, cs, accepted);
    ValidChainGrows(e, accepted, b);
    AlikeSelf([b]);
    AlikeJoin(cs.chain, accepted, [b], [b]);
    GrownLedger(e, cs.ledger, accepted, b);
    ExtendingAddsWork(e, grown);
    assert Front(grown) == accepted && grown[|grown| - 1] == b;
    RunIsReplay(e, cs.ledger, b.txs);
    hide ValidChain, Extends, SameView, AlikeAll, RunTxs, Settle, LedgerOf;
  }

  lemma {:induction false} GrownLedger(e: Env, l: Ledger, chain: seq<Block>, b: Block)
    requires chain != [] && ValidChain(e, chain + [b])
    requires SameView(l, LedgerOf(chain)) && RunTxs(e, l, b.txs).Ran?
    ensures SameView(Settle(RunTxs(e, l, b.txs).ledger, b), LedgerOf(chain + [b]))
  {
    var grown := chain + [b];
    assert Front(grown) == chain && grown[|grown| - 1] == b;
    RunSameView(e, l, LedgerOf(chain), b.txs);
    ValidChainReplays(e, grown);
    SettleSameView(RunTxs(e, l, b.txs).ledger, RunTxs(e, LedgerOf(chain), b.txs).ledger, b);
  }

  // ------------------------------------------------------------------------ evaluating a chain

  /** The longest common prefix, compared by the hash field, from position i on. */
  function ForkPoint(a: seq<Block>, b: seq<Block>, i: nat): (n: nat)
    requires i <= |a| && i <= |b|
    ensures i <= n <= |a| && n <= |b|
    ensures forall j :: i <= j < n ==> a[j].hash == b[j].hash
    ensures n < |a| && n < |b| ==> a[n].hash != b[n].hash
    decreases |a| - i
  {
    if i == |a| || i == |b| || a[i].hash != b[i].hash then i else ForkPoint(a, b, i + 1)
  }

  /** The loop of _validate_tail: the first refusal, or the state after the whole tail. */
  function TailFrom(e: Env, cs: ChainState, tail: seq<Block>, now: Instant): Option<ChainState>
    decreases |tail|
  {
    if tail == [] then Some(cs)
    else
      var next := Accepted(e, cs, tail[0], now);
      if next.None? then None else TailFrom(e, next.value, tail[1..], now)
  }

  datatype Evaluation =
    | GenesisMismatch
    | InvalidTail
    | PrefixRaises
    | ReplayRaises
    | NotBetter(fork: nat, tail: seq<Block>)
    | Better(fork: nat, tail: seq<Block>, cs: ChainState)

  /** _evaluate_remote_chain. */
  function Evaluate(e: Env, held: ChainState, remote: seq<Block>, now: Instant): Evaluation
    requires held.chain != []
  {
    if remote == [] || remote[0].hash != held.chain[0].hash then GenesisMismatch
    else
      var fork := ForkPoint(held.chain, remote, 0);
      var prefix := if fork > 0 then FromChain(remote[..fork]) else Some(FromGenesis(e));
      if prefix.None? then PrefixRaises
      else if TailFrom(e, prefix.value, remote[fork..], now).None? then InvalidTail
      else
        var replayed := FromChain(remote);
        if replayed.None? then ReplayRaises
        else if !IsBetter(replayed.value, held) then NotBetter(fork, remote[fork..])
        else Better(fork, remote[fork..], replayed.value)
  }

  /** The block carries its own hash, but for tx_bytes. */
  ghost predicate Genuine(e: Env, b: Block) {
    exists n: Option<int> :: b.hash == BlockHash(e, b.(txBytes := n))
  }

  /** Every block carries its own hash. */
  ghost predicate Sealed(e: Env, chain: seq<Block>) {
    forall i :: 0 <= i < |chain| ==> chain[i].hash == BlockHash(e, chain[i])
  }

  /** Domain condition on an offered chain: its hash fields are its blocks' hashes, tx_bytes aside, and only
      its first block has height 0. The program checks the hashes behind the fork point only. */
  ghost predicate FairOffer(e: Env, remote: seq<Block>) {
    && (forall i :: 0 <= i < |remote| ==> Genuine(e, remote[i]))
    && (forall i :: 0 < i < |remote| ==> remote[i].height != 0)
  }

  lemma SameHashSame(e: Env, b: Block, c: Block)
    requires BlockCollisionFree(e) && b.hash == BlockHash(e, b) && c.hash == BlockHash(e, c) && b.hash == c.hash
    ensures b == c
  {
    var b0, c0 := b.(hash := ""), c.(hash := "");
    assert e.contentHash(b0) == e.contentHash(c0);
    assert b == b0.(hash := b.hash) && c == c0.(hash := c.hash);
  }

  /** Equal hashes decide a block up to tx_bytes. */
  lemma HashDecides(e: Env, b: Block, c: Block)
    requires BlockCollisionFree(e) && Genuine(e, b) && Genuine(e, c) && b.hash == c.hash
    ensures Alike(b, c)
  {
    var m: Option<int> :| b.hash == BlockHash(e, b.(txBytes := m));
    var n: Option<int> :| c.hash == BlockHash(e, c.(txBytes := n));
    SameHashSame(e, b.(txBytes := m), c.(txBytes := n));
    assert b.(txBytes := None) == b.(txBytes := m).(txBytes := None);
    assert c.(txBytes := None) == c.(txBytes := n).(txBytes := None);
  }

  /** A block alike to one that carries its own hash is genuine. */
  lemma AlikeIsGenuine(e: Env, b: Block, c: Block)
    requires Alike(b, c) && c.hash == BlockHash(e, c)
    ensures Genuine(e, b)
  {
    AlikeFields(b, c);
    AlikeFields(b.(txBytes := c.txBytes), c);
    assert b.(txBytes := c.txBytes) == c;
  }

  lemma {:induction false} ValidHashes(e: Env, chain: seq<Block>, i: nat)
    requires ValidChain(e, chain) && i < |chain|
    ensures chain[i].hash == BlockHash(e, chain[i])
  {
    if i == 0 {
      PrefixIsValid(e, chain, 1);
      assert chain[..1] == [Genesis(e)] && chain[0] == chain[..1][0];
      GenesisHash(e);
    } else {
      BlockExtends(e, chain, i);
      hide ValidChain;
    }
  }

  lemma GenesisHash(e: Env)
    ensures Genesis(e).hash == BlockHash(e, Genesis(e))
  {
    var g := Genesis(e);
    assert g.(hash := "") == g.(hash := "").(hash := "");
  }

  /** The shared prefix really is shared. */
  lemma {:induction false} PrefixShared(e: Env, held: ChainState, accepted: seq<Block>, remote: seq<Block>)
    requires BlockCollisionFree(e) && Held(e, held, accepted) && FairOffer(e, remote)
    ensures var fork := ForkPoint(held.chain, remote, 0); AlikeAll(remote[..fork], accepted[..fork])
  {
    var fork := ForkPoint(held.chain, remote, 0);
    forall i | 0 <= i < fork ensures Alike(remote[i], accepted[i]) {
      ValidHashes(e, accepted, i);
      AlikeFields(held.chain[i], accepted[i]);
      AlikeIsGenuine(e, accepted[i], accepted[i]);
      HashDecides(e, remote[i], accepted[i]);
    }
  }

  /** The offered chain with the shared prefix as this node accepted it. */
  function Grafted(accepted: seq<Block>, remote: seq<Block>, fork: nat): seq<Block>
    requires fork <= |accepted| && fork <= |remote|
  {
    accepted[..fork] + remote[fork..]
  }

  /** No block is ahead of the clock. */
  ghost predicate NotAhead(bs: seq<Block>, now: Instant) {
    forall i :: 0 <= i < |bs| ==> bs[i].timestamp <= now + TIMESTAMP_SKEW
  }

  lemma NotAheadSplit(bs: seq<Block>, now: Instant)
    requires bs != []
    ensures NotAhead(bs, now) <==> bs[0].timestamp <= now + TIMESTAMP_SKEW && NotAhead(bs[1..], now)
  {
    if bs[0].timestamp <= now + TIMESTAMP_SKEW && NotAhead(bs[1..], now) {
      forall i | 0 <= i < |bs| ensures bs[i].timestamp <= now + TIMESTAMP_SKEW {
        if i > 0 {
          assert bs[i] == bs[1..][i - 1];
        }
      }
    }
  }

  lemma {:induction false} ConcatValid(e: Env, a: seq<Block>, b: seq<Block>)
    requires a != [] && ValidChain(e, a + b)
    ensures ValidChain(e, a)
  {
    PrefixIsValid(e, a + b, |a|);
    assert (a + b)[..|a|] == a;
  }

  lemma {:induction false} TailFromStep(e: Env, cs: ChainState, tail: seq<Block>, now: Instant)
    ensures TailFrom(e, cs, [], now) == Some(cs)
    ensures tail != [] ==>
      var next := Accepted(e, cs, tail[0], now);
      TailFrom(e, cs, tail, now) == if next.None? then None else TailFrom(e, next.value, tail[1..], now)
  {
  }

  /** Validating a tail on the state of a valid prefix accepts exactly the tails that make a valid
      chain and are not ahead of the clock. */
  lemma {:induction false} TailIsValidChain(e: Env, prefix: seq<Block>, tail: seq<Block>, now: Instant)
    requires ValidChain(e, prefix)
    requires forall i :: 0 <= i < |tail| ==> tail[i].height != 0
    ensures FromChain(prefix).Some?
    ensures TailFrom(e, FromChain(prefix).value, tail, now).Some?
       <==> ValidChain(e, prefix + tail) && NotAhead(tail, now)
    decreases |tail|
  {
    assert NotAhead([], now);
    ValidChainReplays(e, prefix);
    assert FromChain(prefix).Some?;
    hide ValidChain, Accepted, NotAhead, FromChain, TailFrom;
    TailFromStep(e, FromChain(prefix).value, tail, now);
    if tail == [] {
      assert prefix + tail == prefix;
    } else {
      var longer := prefix + [tail[0]];
      ValidateStep(e, prefix, tail[0], now);
      NotAheadSplit(tail, now);
      OneFromTail(e, prefix, tail);
      if ValidChain(e, longer) {
        TailIsValidChain(e, longer, tail[1..], now);
      }
    }
  }

  lemma {:induction false} OneFromTail(e: Env, prefix: seq<Block>, tail: seq<Block>)
    requires prefix != [] && tail != []
    ensures (prefix + [tail[0]]) + tail[1..] == prefix + tail
    ensures ValidChain(e, prefix + tail) ==> ValidChain(e, prefix + [tail[0]])
  {
    hide ValidChain;
    assert (prefix + [tail[0]]) + tail[1..] == prefix + tail;
    if ValidChain(e, prefix + tail) {
      ConcatValid(e, prefix + [tail[0]], tail[1..]);
    }
  }

  /** On chain states alike the tail loop answers alike. */
  lemma {:induction false} AlikeTail(e: Env, cs: ChainState, ds: ChainState, tail: seq<Block>, now: Instant)
    requires AlikeStates(cs, ds)
    ensures TailFrom(e, cs, tail, now).Some? == TailFrom(e, ds, tail, now).Some?
    decreases |tail|
  {
    hide AlikeStates, Accepted;
    if tail != [] {
      AlikeAccepted(e, cs, ds, tail[0], now);
      if Accepted(e, cs, tail[0], now).Some? {
        AlikeTail(e, Accepted(e, cs, tail[0], now).value, Accepted(e, ds, tail[0], now).value, tail[1..], now);
      }
    }
  }

  lemma {:induction false} TailBehindFork(e: Env, prefix: seq<Block>, accepted: seq<Block>, tail: seq<Block>,
                                          now: Instant)
    requires ValidChain(e, accepted) && AlikeAll(prefix, accepted)
    requires forall i :: 0 <= i < |tail| ==> tail[i].height != 0
    ensures FromChain(prefix).Some?
    ensures TailFrom(e, FromChain(prefix).value, tail, now).Some?
       <==> ValidChain(e, accepted + tail) && NotAhead(tail, now)
  {
    hide ValidChain, TailFrom, NotAhead;
    TailIsValidChain(e, accepted, tail, now);
    AlikeFromChain(prefix, accepted);
    AlikeTail(e, FromChain(prefix).value, FromChain(accepted).value, tail, now);
  }

  lemma {:induction false} EvaluateTail(e: Env, held: ChainState, accepted: seq<Block>, remote: seq<Block>,
                                        now: Instant)
    requires BlockCollisionFree(e) && Held(e, held, accepted) && FairOffer(e, remote)
    requires remote != [] && held.chain != [] && remote[0].hash == held.chain[0].hash
    ensures var fork := ForkPoint(held.chain, remote, 0);
      && fork > 0 && AlikeAll(remote, Grafted(accepted, remote, fork))
      && FromChain(remote[..fork]).Some?
      && (TailFrom(e, FromChain(remote[..fork]).value, remote[fork..], now).Some?
          <==> ValidChain(e, Grafted(accepted, remote, fork)) && NotAhead(remote[fork..], now))
  {
    var fork := ForkPoint(held.chain, remote, 0);
    hide SameView, ValidChain, TailFrom, NotAhead, FromChain, Genuine, BlockCollisionFree, LedgerOf;
    PrefixShared(e, held, accepted, remote);
    PrefixIsValid(e, accepted, fork);
    GraftAlike(accepted, remote, fork);
    TailHeights(e, remote, fork);
    hide AlikeAll, FairOffer;
    TailBehindFork(e, remote[..fork], accepted[..fork], remote[fork..], now);
  }

  lemma TailHeights(e: Env, remote: seq<Block>, fork: nat)
    requires FairOffer(e, remote) && 0 < fork <= |remote|
    ensures forall i :: 0 <= i < |remote[fork..]| ==> remote[fork..][i].height != 0
  {
  }

  lemma GraftAlike(accepted: seq<Block>, remote: seq<Block>, fork: nat)
    requires fork <= |accepted| && fork <= |remote| && AlikeAll(remote[..fork], accepted[..fork])
    ensures AlikeAll(remote, Grafted(accepted, remote, fork))
  {
    AlikeSelf(remote[fork..]);
    AlikeJoin(remote[..fork], accepted[..fork], remote[fork..], remote[fork..]);
    assert remote[..fork] + remote[fork..] == remote;
  }

  /** _evaluate_remote_chain past the genesis check and the replay of the prefix. */
  lemma {:induction false} EvaluateRest(e: Env, held: ChainState, remote: seq<Block>, now: Instant)
    requires held.chain != [] && remote != [] && remote[0].hash == held.chain[0].hash
    requires FromChain(remote[..ForkPoint(held.chain, remote, 0)]).Some?
    ensures
      var fork := ForkPoint(held.chain, remote, 0);
      var tail := remote[fork..];
      Evaluate(e, held, remote, now) ==
        if TailFrom(e, FromChain(remote[..fork]).value, tail, now).None? then InvalidTail
        else if FromChain(remote).None? then ReplayRaises
        else if IsBetter(FromChain(remote).value, held) then Better(fork, tail, FromChain(remote).value)
        else NotBetter(fork, tail)
  {
    hide TailFrom, FromChain, IsBetter;
  }

  /** What Evaluate answers on a fairly offered chain. */
  ghost predicate Judged(e: Env, held: ChainState, accepted: seq<Block>, remote: seq<Block>, now: Instant)
    requires held.chain != [] && |accepted| == |held.chain|
  {
    var r := Evaluate(e, held, remote, now);
    var fork := ForkPoint(held.chain, remote, 0);
    var grafted := Grafted(accepted, remote, fork);
    && !r.PrefixRaises? && !r.ReplayRaises?
    && (r.Better? <==> && ValidChain(e, grafted) && NotAhead(remote[fork..], now)
                       && FromChain(remote).Some? && IsBetter(FromChain(remote).value, held))
    && (r.Better? ==> r == Better(fork, remote[fork..], FromChain(remote).value))
    && (r.NotBetter? ==> r == NotBetter(fork, remote[fork..]) && ValidChain(e, grafted)
                         && FromChain(remote).Some? && !IsBetter(FromChain(remote).value, held))
  }

  /** A fairly offered chain is adopted exactly when it is valid once its shared prefix is taken as accepted,
      is in time behind the fork point, and its replay beats the held chain. Nothing raises. */
  lemma EvaluateMeaning(e: Env, held: ChainState, accepted: seq<Block>, remote: seq<Block>, now: Instant)
    requires BlockCollisionFree(e) && Held(e, held, accepted) && FairOffer(e, remote) && held.chain != []
    ensures Judged(e, held, accepted, remote, now)
  {
    if remote != [] && remote[0].hash == held.chain[0].hash {
      SharedIsJudged(e, held, accepted, remote, now);
    } else {
      HeldNonEmpty(e, held, accepted);
      assert Grafted(accepted, remote, ForkPoint(held.chain, remote, 0)) == remote;
      hide ValidChain, Held, TailFrom, NotAhead, AlikeAll, IsBetter, BlockCollisionFree, FairOffer;
      StartsFromGenesis(e, remote);
    }
  }

  lemma SharedIsJudged(e: Env, held: ChainState, accepted: seq<Block>, remote: seq<Block>, now: Instant)
    requires BlockCollisionFree(e) && Held(e, held, accepted) && FairOffer(e, remote)
    requires remote != [] && held.chain != [] && remote[0].hash == held.chain[0].hash
    ensures Judged(e, held, accepted, remote, now)
  {
    HeldNonEmpty(e, held, accepted);
    assert |accepted| == |held.chain|;
    hide BlockCollisionFree, FairOffer, ValidChain, Held, TailFrom, NotAhead, AlikeAll, IsBetter, FromChain, Evaluate;
    EvaluateTail(e, held, accepted, remote, now);
    EvaluateRest(e, held, remote, now);
    var grafted := Grafted(accepted, remote, ForkPoint(held.chain, remote, 0));
    GraftReplays(e, remote, grafted);
    hide ForkPoint, Grafted;
  }

  lemma {:induction false} GraftReplays(e: Env, remote: seq<Block>, grafted: seq<Block>)
    requires AlikeAll(remote, grafted)
    ensures ValidChain(e, grafted) ==> FromChain(remote).Some?
  {
    if ValidChain(e, grafted) {
      ValidChainReplays(e, grafted);
      AlikeFromChain(remote, grafted);
    }
  }

  lemma {:induction false} StartsFromGenesis(e: Env, chain: seq<Block>)
    ensures ValidChain(e, chain) ==> chain != [] && chain[0] == Genesis(e)
  {
    if ValidChain(e, chain) {
      PrefixIsValid(e, chain, 1);
      assert chain[0] == chain[..1][0];
    }
  }

  /** An adopted chain is held, agrees with the old one up to the fork point, and has something new. */
  lemma AdoptedIsHeld(e: Env, held: ChainState, accepted: seq<Block>, remote: seq<Block>, now: Instant)
    requires BlockCollisionFree(e) && Held(e, held, accepted) && FairOffer(e, remote) && held.chain != []
    requires Evaluate(e, held, remote, now).Better?
    ensures var r := Evaluate(e, held, remote, now);
      && 0 < r.fork <= |held.chain| && r.fork < |remote| && r.tail == remote[r.fork..]
      && r.cs.chain == remote && Held(e, r.cs, Grafted(accepted, remote, r.fork)) && IsBetter(r.cs, held)
  {
    EvaluateMeaning(e, held, accepted, remote, now);
    var r := Evaluate(e, held, remote, now);
    EvaluateTail(e, held, accepted, remote, now);
    ReplayedIsHeld(e, remote, Grafted(accepted, remote, r.fork));
    if r.fork == |remote| {
      assert Grafted(accepted, remote, r.fork) == accepted[..r.fork];
      PrefixNotBetter(e, held, accepted, r.cs);
    }
  }

  /** No prefix of the held chain beats it. */
  lemma PrefixNotBetter(e: Env, held: ChainState, accepted: seq<Block>, shorter: ChainState)
    requires Held(e, held, accepted) && shorter.chain != [] && |shorter.chain| <= |held.chain|
    requires AlikeAll(shorter.chain, accepted[..|shorter.chain|])
    requires shorter.work == CumulativeIterations(accepted[..|shorter.chain|])
    ensures held.chain != [] && !IsBetter(shorter, held)
  {
    hide ValidChain, SameView, CumulativeIterations, IsBetter;
    var n := |shorter.chain|;
    var whole := ChainState(accepted, held.ledger, held.work);
    var part := ChainState(accepted[..n], shorter.ledger, shorter.work);
    AlikeBetter(shorter, held, part, whole);
    hide Held, AlikeAll;
    IsBetterIsStrict(whole, part, whole);
    if n < |accepted| {
      ExtensionIsBetter(e, whole, n, part);
    } else {
      assert accepted[..n] == accepted;
      SameIsNotBetter(part, whole);
    }
  }

  lemma SameIsNotBetter(a: ChainState, b: ChainState)
    requires a.chain == b.chain != [] && a.work == b.work
    ensures !IsBetter(a, b)
  {
    StringLessIrreflexive(TieBreakKey(a.Tip()));
  }

  /** The chain with one iteration more claimed in its last block, and all hash fields kept. */
  function Inflated(chain: seq<Block>): (r: seq<Block>)
    requires chain != []
    ensures |r| == |chain| && forall i :: 0 <= i < |r| ==> r[i].hash == chain[i].hash
  {
    var n := |chain| - 1;
    chain[..n] + [chain[n].(vdfIterations := chain[n].vdfIterations + 1)]
  }

  /** The hash clause of FairOffer is needed. Whatever chain of two blocks or more is held: on top of it inflated,
      any block is adopted that is accepted there, and what is then held is no chain that was ever valid. Only the
      hash of the inflated block, which the fork search takes for shared, is not its own. */
  lemma ForgedPrefixIsTaken(e: Env, held: ChainState, accepted: seq<Block>, b: Block, now: Instant)
    requires BlockCollisionFree(e) && Held(e, held, accepted) && |held.chain| > 1 && b.height != 0
    requires
      var forged := FromChain(Inflated(held.chain));
      forged.Some? ==> Accepted(e, forged.value, b, now).Some?
    ensures
      var n, remote := |held.chain|, Inflated(held.chain) + [b];
      && (forall i :: 0 < i <= n ==> remote[i].height != 0)
      && (forall i :: 0 <= i <= n ==> (Genuine(e, remote[i]) <==> i != n - 1))
      && FromChain(remote).Some? && Evaluate(e, held, remote, now) == Better(n, [b], FromChain(remote).value)
      && forall chain :: !Held(e, FromChain(remote).value, chain)
  {
    hide Held, FromChain, Genuine, Evaluate, Accepted, BlockCollisionFree, Inflated;
    var n, forged := |held.chain|, Inflated(held.chain);
    ForgedReplay(e, held, accepted);
    ForgedNext(e, held, accepted, b, now);
    ForgedBlocks(e, held, accepted, b);
    TakenUnchecked(e, held, forged, b, now);
    NeverHeld(e, FromChain(forged + [b]).value, n - 1);
  }

  lemma ForgedBlocks(e: Env, held: ChainState, accepted: seq<Block>, b: Block)
    requires BlockCollisionFree(e) && Held(e, held, accepted) && |held.chain| > 1 && b.height != 0 && Genuine(e, b)
    ensures var n, remote := |held.chain|, Inflated(held.chain) + [b];
      && (forall i :: 0 < i <= n ==> remote[i].height != 0)
      && (forall i :: 0 <= i <= n ==> (Genuine(e, remote[i]) <==> i != n - 1))
  {
    ForgedHeights(e, held, accepted);
    ForgedGenuine(e, held, accepted);
    hide Held, Genuine, BlockCollisionFree, Inflated;
  }

  /** A chain state with a block that does not carry its own hash, tx_bytes aside, is not held by a node. */
  lemma NeverHeld(e: Env, cs: ChainState, i: nat)
    requires i < |cs.chain| && !Genuine(e, cs.chain[i])
    ensures forall chain :: !Held(e, cs, chain)
  {
    forall chain ensures !Held(e, cs, chain) {
      HeldIsGenuine(e, cs, chain, i);
    }
  }

  lemma HeldIsGenuine(e: Env, cs: ChainState, chain: seq<Block>, i: nat)
    requires i < |cs.chain|
    ensures Held(e, cs, chain) ==> Genuine(e, cs.chain[i])
  {
    if Held(e, cs, chain) {
      ValidHashes(e, chain, i);
      AlikeIsGenuine(e, cs.chain[i], chain[i]);
    }
  }

  lemma ForgedGenuine(e: Env, held: ChainState, accepted: seq<Block>)
    requires BlockCollisionFree(e) && Held(e, held, accepted) && |held.chain| > 1
    ensures forall i :: 0 <= i < |held.chain| ==> (Genuine(e, Inflated(held.chain)[i]) <==> i != |held.chain| - 1)
  {
    ForgedIsNotGenuine(e, held, accepted);
    forall i | 0 <= i < |held.chain| - 1 ensures Genuine(e, Inflated(held.chain)[i]) {
      ValidHashes(e, accepted, i);
      AlikeIsGenuine(e, held.chain[i], accepted[i]);
    }
  }

  /** A block accepted on the inflated chain adds work to its replay. */
  lemma ForgedNext(e: Env, held: ChainState, accepted: seq<Block>, b: Block, now: Instant)
    requires Held(e, held, accepted) && |held.chain| > 1 && b.height != 0
    requires FromChain(Inflated(held.chain)).Some? && FromChain(Inflated(held.chain)).value.work == held.work + 1
    requires Accepted(e, FromChain(Inflated(held.chain)).value, b, now).Some?
    ensures b.height > 0 && Genuine(e, b)
    ensures
      var next := FromChain(Inflated(held.chain) + [b]);
      next.Some? && next.value.chain == Inflated(held.chain) + [b] && next.value.work > held.work
  {
    var forged := FromChain(Inflated(held.chain)).value;
    ForgedHeights(e, held, accepted);
    ForgedIterations(e, held, accepted);
    IterationsFloor(Inflated(held.chain));
    assert forged.chain == Inflated(held.chain) && forged.Tip().height == |held.chain| - 1;
    hide Held, Inflated, FromChain, GetVdfIterations;
    AcceptedAdds(e, forged, b, now);
  }

  lemma ForgedIterations(e: Env, held: ChainState, accepted: seq<Block>)
    requires Held(e, held, accepted) && |held.chain| > 1
    ensures forall i :: 0 <= i < |held.chain| ==> Inflated(held.chain)[i].vdfIterations >= VDF_ITERATIONS
  {
    forall i | 0 <= i < |held.chain| ensures held.chain[i].vdfIterations >= VDF_ITERATIONS {
      ValidChainDifficulty(e, accepted, i);
      ValidFollowsRule(e, accepted);
      DifficultyNeverFalls(accepted, i, i);
      AlikeFields(held.chain[i], accepted[i]);
    }
  }

  lemma IterationsFloor(chain: seq<Block>)
    requires forall i :: 0 <= i < |chain| ==> chain[i].vdfIterations >= VDF_ITERATIONS
    ensures GetVdfIterations(chain) >= VDF_ITERATIONS
  {
  }

  /** On any chain state that is its chain's replay, accepting a block is replaying it. */
  lemma AcceptedAdds(e: Env, cs: ChainState, b: Block, now: Instant)
    requires cs.chain != [] && FromChain(cs.chain) == Some(cs) && Accepted(e, cs, b, now).Some?
    requires b.height != 0 && cs.Tip().height >= 0
    ensures b.height > 0 && Genuine(e, b) && b.vdfIterations == GetVdfIterations(cs.chain)
    ensures FromChain(cs.chain + [b]) == ApplyBlock(cs, b) && ApplyBlock(cs, b).Some?
    ensures ApplyBlock(cs, b).value.chain == cs.chain + [b] && ApplyBlock(cs, b).value.work == cs.work + b.vdfIterations
  {
    ValidateBlockMeaning(e, b, cs.ledger, cs.chain, now);
    FollowsParent(e, b, cs.ledger, cs.chain);
    AlikeIsGenuine(e, b, b);
    RunIsReplay(e, cs.ledger, b.txs);
    ReplayStep(cs.chain, b);
  }

  lemma ForgedHeights(e: Env, held: ChainState, accepted: seq<Block>)
    requires Held(e, held, accepted) && |held.chain| > 1
    ensures forall i :: 0 <= i < |held.chain| ==> Inflated(held.chain)[i].height == i
  {
    hide ValidChain, SameView;
    forall i | 0 <= i < |held.chain| ensures Inflated(held.chain)[i].height == i {
      HeightIsPosition(e, accepted, i);
      AlikeFields(held.chain[i], accepted[i]);
    }
  }

  /** Behind a prefix with the right hash fields, an accepted block is all that is checked. */
  lemma TakenUnchecked(e: Env, held: ChainState, shared: seq<Block>, b: Block, now: Instant)
    requires held.chain != [] && |shared| == |held.chain|
    requires forall i :: 0 <= i < |shared| ==> shared[i].hash == held.chain[i].hash
    requires FromChain(shared).Some? && Accepted(e, FromChain(shared).value, b, now).Some?
    requires FromChain(shared + [b]).Some? && FromChain(shared + [b]).value.work > held.work
    ensures Evaluate(e, held, shared + [b], now) == Better(|shared|, [b], FromChain(shared + [b]).value)
  {
    var remote := shared + [b];
    var fork := ForkPoint(held.chain, remote, 0);
    assert forall i :: 0 <= i < |shared| ==> remote[i].hash == held.chain[i].hash;
    assert fork == |shared|;
    assert remote[..fork] == shared && remote[fork..] == [b];
    hide FromChain, Evaluate, Accepted;
    EvaluateRest(e, held, remote, now);
    assert [b][1..] == [];
  }

  lemma ForgedIsNotGenuine(e: Env, held: ChainState, accepted: seq<Block>)
    requires BlockCollisionFree(e) && Held(e, held, accepted) && |held.chain| > 1
    ensures !Genuine(e, Inflated(held.chain)[|held.chain| - 1])
  {
    var n := |held.chain| - 1;
    var tip, forged := held.chain[n], Inflated(held.chain)[n];
    ValidHashes(e, accepted, n);
    AlikeFields(tip, accepted[n]);
    if Genuine(e, forged) {
      AlikeIsGenuine(e, tip, accepted[n]);
      HashDecides(e, forged, tip);
      AlikeFields(forged, tip);
    }
  }

  lemma ForgedReplay(e: Env, held: ChainState, accepted: seq<Block>)
    requires Held(e, held, accepted) && |held.chain| > 1
    ensures
      var remote := Inflated(held.chain);
      FromChain(remote).Some? && FromChain(remote).value.work == held.work + 1
  {
    var n, remote := |held.chain| - 1, Inflated(held.chain);
    HeldNonEmpty(e, held, accepted);
    ValidChainReplays(e, accepted);
    AlikeFromChain(held.chain, accepted);
    assert remote[..n] == held.chain[..n];
    hide ValidChain, AlikeAll, SameView;
    assert forall l :: ReplayBlock(l, remote[n]) == ReplayBlock(l, held.chain[n]) by {
      assert BlockFees(remote[n]) == BlockFees(held.chain[n]);
    }
    assert Replay(remote) == Replay(held.chain);
  }

  // ------------------------------------------------------------------------------- the methods

  /** _validate_tail. */
  method ValidateTail(e: Env, tail: seq<Block>, prefix: ChainState, now: Instant) returns (end: Option<ChainState>)
    ensures end == TailFrom(e, prefix, tail, now)
  {
    var cs := prefix;
    var i := 0;
    while i < |tail|
      invariant 0 <= i <= |tail|
      invariant TailFrom(e, prefix, tail, now) == TailFrom(e, cs, tail[i..], now)
    {
      assert tail[i..][0] == tail[i] && tail[i..][1..] == tail[i + 1..];
      var verdict, next := ValidateAndApplyOnProbe(e, cs, tail[i], now);
      if verdict.Reject? {
        return None;
      }
      cs := next;
      i := i + 1;
    }
    return Some(cs);
  }

  /** _evaluate_remote_chain. */
  method EvaluateRemoteChain(e: Env, held: ChainState, remote: seq<Block>, now: Instant) returns (r: Evaluation)
    requires held.chain != []
    ensures r == Evaluate(e, held, remote, now)
    ensures r.NotBetter? || r.Better? ==> r.fork <= |held.chain|
  {
    if remote == [] || remote[0].hash != held.chain[0].hash {
      return GenesisMismatch;
    }
    var fork := ForkPoint(held.chain, remote, 0);
    var prefix := Some(FromGenesis(e));
    if fork > 0 {
      prefix := FromChainByReplay(remote[..fork]);
    }
    if prefix.None? {
      return PrefixRaises;
    }
    var end := ValidateTail(e, remote[fork..], prefix.value, now);
    if end.None? {
      return InvalidTail;
    }
    var replayed := FromChainByReplay(remote);
    if replayed.None? {
      return ReplayRaises;
    }
    if !IsBetter(replayed.value, held) {
      return NotBetter(fork, remote[fork..]);
    }
    return Better(fork, remote[fork..], replayed.value);
  }
}
