/** src/syncer.py and the serving side in src/peer_udp.py: fork search and paged fetch over requests
    that may be lost. */
module Sync {
  import opened Params
  import opened Prelude
  import opened Types
  import opened Ledgers
  import opened BlockRules
  import opened Chains
  import opened Likeness
  import opened ForkChoice
  import opened NodeMachine
  import opened Stores

  /** What request_sync returns: nothing in time, or the page (empty also for a malformed answer). */
  datatype Reply = Lost | Page(blocks: seq<Block>)

  /** get_info: the peer's height and tip hash. */
  datatype Info = Info(height: int, tipHash: Hash)

  // ------------------------------------------------------------------------------- serving side

  /** Python's chain[start:stop] for a start that is not negative. */
  function Slice(chain: seq<Block>, start: nat, stop: int): seq<Block> {
    var n := |chain|;
    var last := if stop < 0 then (if stop + n < 0 then 0 else stop + n) else if stop > n then n else stop;
    if start >= last then [] else chain[start..last]
  }

  /** _handle_getsync: a bad from_h counts as 0, and one request serves at most MAX_SYNC_BLOCKS. */
  function Serve(chain: seq<Block>, fromH: Option<int>, toH: Option<int>): seq<Block> {
    var start := if fromH.None? || fromH.value < 0 then 0 else fromH.value;
    var capped := start + MAX_SYNC_BLOCKS - 1;
    var end := if toH.None? || toH.value > capped then capped else toH.value;
    Slice(chain, start, end + 1)
  }

  /** What a request for heights f to t inside one page gets. */
  lemma ServeIsRun(chain: seq<Block>, f: nat, t: nat)
    requires f <= t < f + MAX_SYNC_BLOCKS
    ensures Serve(chain, Some(f), Some(t))
         == if f >= |chain| then [] else chain[f..if t + 1 > |chain| then |chain| else t + 1]
  {
  }

  /** The cap of MAX_SYNC_BLOCKS holds for every chain and every from_h exactly when to_h is absent or
      at least -1: a smaller to_h is read as a slice end counted from the tip. */
  lemma ServeBound(toH: Option<int>)
    ensures (toH.None? || toH.value >= -1)
       <==> forall chain: seq<Block>, fromH: Option<int> :: |Serve(chain, fromH, toH)| <= MAX_SYNC_BLOCKS
  {
    if toH.Some? && toH.value < -1 {
      var b := Block(0, "", 0, [], None, None, None, None, 0, None, "");
      var long := seq(MAX_SYNC_BLOCKS - toH.value, _ => b);
      assert |Serve(long, Some(0), toH)| > MAX_SYNC_BLOCKS;
    }
  }

  // ------------------------------------------------------------------------------------- the link

  /** The connection to one peer: the answer to the n-th request, which may be anything. */
  class Link {
    const answer: (nat, int, int) -> Reply
    var sent: nat

    constructor (answer: (nat, int, int) -> Reply)
      ensures this.answer == answer
    {
      this.answer := answer;
      sent := 0;
    }

    method RequestSync(fromH: int, toH: int) returns (r: Reply)
      modifies this
      ensures r == answer(old(sent), fromH, toH) && sent == old(sent) + 1
    {
      r := answer(sent, fromH, toH);
      sent := sent + 1;
    }

    /** _request_sync_with_retry: the first answer within SYNC_REQUEST_RETRIES + 1 attempts. */
    method RequestWithRetry(fromH: int, toH: int) returns (r: Reply)
      modifies this
      ensures (r, sent) == Answered(answer, old(sent), fromH, toH, SYNC_REQUEST_RETRIES + 1)
      ensures old(sent) < sent <= old(sent) + SYNC_REQUEST_RETRIES + 1
      ensures r == answer(sent - 1, fromH, toH)
      ensures forall n :: old(sent) <= n < sent - 1 ==> answer(n, fromH, toH).Lost?
      ensures r.Lost? ==> sent == old(sent) + SYNC_REQUEST_RETRIES + 1
    {
      r := RequestSync(fromH, toH);
      var attempt := 1;
      while attempt < SYNC_REQUEST_RETRIES + 1 && r.Lost?
        invariant 1 <= attempt <= SYNC_REQUEST_RETRIES + 1
        invariant sent == old(sent) + attempt && r == answer(sent - 1, fromH, toH)
        invariant forall n :: old(sent) <= n < sent - 1 ==> answer(n, fromH, toH).Lost?
        invariant Answered(answer, old(sent), fromH, toH, SYNC_REQUEST_RETRIES + 1)
               == Answered(answer, sent - 1, fromH, toH, SYNC_REQUEST_RETRIES + 2 - attempt)
      {
        r := RequestSync(fromH, toH);
        attempt := attempt + 1;
      }
    }
  }

  /** The first answer from request n on, or the last loss, and the number of requests made by then. */
  function Answered(answer: (nat, int, int) -> Reply, n: nat, f: int, t: int, tries: nat): (Reply, nat)
    requires tries > 0
    decreases tries
  {
    var r := answer(n, f, t);
    if r.Lost? && tries > 1 then Answered(answer, n + 1, f, t, tries - 1) else (r, n + 1)
  }

  /** The peer answers from this chain whenever an answer arrives. */
  ghost predicate Honest(answer: (nat, int, int) -> Reply, chain: seq<Block>) {
    forall n, f, t :: answer(n, f, t).Lost? || answer(n, f, t) == Page(Serve(chain, Some(f), Some(t)))
  }

  /** A sync asks for single blocks and for pages of FETCH_CHUNK; each such request is answered. */
  ghost predicate Lossless(answer: (nat, int, int) -> Reply) {
    forall n, f, t :: 0 <= f <= t < f + FETCH_CHUNK ==> !answer(n, f, t).Lost?
  }

  // ---------------------------------------------------------------------------- hash-linked chains

  /** Where the two chains agree on a hash they agree on the one before. */
  ghost predicate AgreeBackwards(a: seq<Block>, b: seq<Block>) {
    forall i :: 0 < i < |a| && i < |b| && a[i].hash == b[i].hash ==> a[i - 1].hash == b[i - 1].hash
  }

  /** Hash-linked chains do: an equal hash means an equal block, hence an equal link to the parent. */
  lemma {:induction false} ValidChainsAgreeBackwards(e: Env, a: seq<Block>, b: seq<Block>)
    requires BlockCollisionFree(e) && ValidChain(e, a) && ValidChain(e, b)
    ensures AgreeBackwards(a, b)
  {
    forall i | 0 < i < |a| && i < |b| && a[i].hash == b[i].hash ensures a[i - 1].hash == b[i - 1].hash {
      SameHashSameBlock(e, a, b, i);
      ParentHash(e, a, i);
      ParentHash(e, b, i);
    }
  }

  lemma {:induction false} SameHashSameBlock(e: Env, a: seq<Block>, b: seq<Block>, i: nat)
    requires BlockCollisionFree(e) && ValidChain(e, a) && ValidChain(e, b)
    requires i < |a| && i < |b| && a[i].hash == b[i].hash
    ensures a[i] == b[i]
  {
    ValidHashes(e, a, i);
    ValidHashes(e, b, i);
    SameHashSame(e, a[i], b[i]);
  }

  lemma {:induction false} ParentHash(e: Env, chain: seq<Block>, i: nat)
    requires ValidChain(e, chain) && 0 < i < |chain|
    ensures chain[i].previousHash == chain[i - 1].hash
  {
    BlockExtends(e, chain, i);
    FollowsParent(e, chain[i], LedgerOf(chain[..i]), chain[..i]);
    hide ValidChain, Extends, LedgerOf;
  }

  lemma {:induction false} AgreeBelow(a: seq<Block>, b: seq<Block>, i: nat, j: nat)
    requires AgreeBackwards(a, b) && j <= i < |a| && i < |b| && a[i].hash == b[i].hash
    ensures a[j].hash == b[j].hash
    decreases i
  {
    if j < i {
      AgreeBelow(a, b, i - 1, j);
    }
  }

  /** The length of the common prefix, as any agreeing position and any disagreeing one bound it. */
  lemma {:induction false} CommonPrefixBounds(a: seq<Block>, b: seq<Block>, n: nat)
    requires AgreeBackwards(a, b) && n <= |a|
    ensures n > 0 && n <= |b| && a[n - 1].hash == b[n - 1].hash ==> n <= ForkPoint(a, b, 0)
    ensures n == |a| || n >= |b| || a[n].hash != b[n].hash ==> ForkPoint(a, b, 0) <= n
  {
    var c := ForkPoint(a, b, 0);
    if n > 0 && n <= |b| && a[n - 1].hash == b[n - 1].hash && c < n {
      AgreeBelow(a, b, n - 1, c);
    }
  }

  // ------------------------------------------------------------------------------------ the search

  /** _find_fork_point: a binary search in which a failed probe counts as "not there". It never finds
      more than the common prefix, whatever is lost, and finds exactly that if nothing is. */
  method FindForkPoint(link: Link, local: seq<Block>, ghost peerChain: seq<Block>) returns (fork: nat)
    modifies link
    ensures fork <= |local|
    ensures Honest(link.answer, peerChain) && AgreeBackwards(local, peerChain) ==>
      fork <= ForkPoint(local, peerChain, 0)
    ensures Honest(link.answer, peerChain) && AgreeBackwards(local, peerChain) && Lossless(link.answer) ==>
      fork == ForkPoint(local, peerChain, 0)
  {
    var lo, hi := 0, |local| - 1;
    var result: Option<nat> := None;
    while lo <= hi
      invariant 0 <= lo <= hi + 1 <= |local|
      invariant lo == if result.Some? then result.value + 1 else 0
      invariant Honest(link.answer, peerChain) && result.Some? ==>
        result.value < |peerChain| && local[result.value].hash == peerChain[result.value].hash
      invariant Honest(link.answer, peerChain) && Lossless(link.answer) && hi + 1 < |local| ==>
        hi + 1 >= |peerChain| || local[hi + 1].hash != peerChain[hi + 1].hash
      decreases hi - lo
    {
      var mid := (lo + hi) / 2;
      var resp := link.RequestWithRetry(mid, mid);
      ServeIsRun(peerChain, mid, mid);
      if resp.Lost? || resp.blocks == [] {
        hi := mid - 1;
      } else if resp.blocks[0].hash == local[mid].hash {
        result := Some(mid);
        lo := mid + 1;
      } else {
        hi := mid - 1;
      }
    }
    fork := if result.Some? then result.value + 1 else 0;
    if AgreeBackwards(local, peerChain) {
      CommonPrefixBounds(local, peerChain, fork);
    }
  }

  /** The end of the page that starts at height h. */
  function PageEnd(h: int, remoteHeight: int): int {
    if h + FETCH_CHUNK - 1 < remoteHeight then h + FETCH_CHUNK - 1 else remoteHeight
  }

  /** What a fetch from height h brings, with n requests made before. */
  function Fetched(answer: (nat, int, int) -> Reply, n: nat, h: nat, remoteHeight: int): seq<Block>
    decreases remoteHeight - h
  {
    if h > remoteHeight then []
    else
      var (r, next) := Answered(answer, n, h, PageEnd(h, remoteHeight), SYNC_REQUEST_RETRIES + 1);
      if r.Lost? || r.blocks == [] then []
      else if |r.blocks| < FETCH_CHUNK then r.blocks
      else r.blocks + Fetched(answer, next, h + FETCH_CHUNK, remoteHeight)
  }

  lemma FetchedNext(answer: (nat, int, int) -> Reply, n: nat, h: nat, remoteHeight: int)
    ensures h > remoteHeight ==> Fetched(answer, n, h, remoteHeight) == []
    ensures h <= remoteHeight ==>
      var (r, next) := Answered(answer, n, h, PageEnd(h, remoteHeight), SYNC_REQUEST_RETRIES + 1);
      Fetched(answer, n, h, remoteHeight)
        == if r.Lost? || r.blocks == [] then []
           else if |r.blocks| < FETCH_CHUNK then r.blocks
           else r.blocks + Fetched(answer, next, h + FETCH_CHUNK, remoteHeight)
  {
  }

  /** _fetch_chain: pages of FETCH_CHUNK blocks until a page is missing, short, or the last. From an
      honest peer it is a run of the peer's chain, and the whole rest of it if nothing is lost. */
  method FetchChain(link: Link, fromH: nat, remoteHeight: int, ghost peerChain: seq<Block>) returns (chain: seq<Block>)
    modifies link
    ensures chain == Fetched(link.answer, old(link.sent), fromH, remoteHeight)
    ensures Honest(link.answer, peerChain) && fromH <= |peerChain| ==>
      fromH + |chain| <= |peerChain| && chain == peerChain[fromH..fromH + |chain|]
    ensures Honest(link.answer, peerChain) && Lossless(link.answer) && fromH <= |peerChain| == remoteHeight + 1 ==>
      chain == peerChain[fromH..]
  {
    hide Answered, Fetched;
    chain := [];
    var h: nat := fromH;
    var done := false;
    ghost var goal := Fetched(link.answer, link.sent, fromH, remoteHeight);
    ghost var rest := goal;
    while h <= remoteHeight && !done
      invariant goal == chain + rest
      invariant rest == if done then [] else Fetched(link.answer, link.sent, h, remoteHeight)
      decreases !done, remoteHeight - h
    {
      FetchedNext(link.answer, link.sent, h, remoteHeight);
      var resp := link.RequestWithRetry(h, PageEnd(h, remoteHeight));
      if resp.Lost? || resp.blocks == [] {
        done := true;
      } else {
        chain := chain + resp.blocks;
        if |resp.blocks| < FETCH_CHUNK {
          done := true;
        } else {
          h := h + FETCH_CHUNK;
        }
      }
      rest := if done then [] else Fetched(link.answer, link.sent, h, remoteHeight);
    }
    FetchedNext(link.answer, link.sent, h, remoteHeight);
    if Honest(link.answer, peerChain) && fromH <= |peerChain| {
      FetchedRun(link.answer, old(link.sent), fromH, remoteHeight, peerChain);
    }
  }

  /** The answer taken is one the peer gave. */
  lemma {:induction false} AnsweredHonest(answer: (nat, int, int) -> Reply, n: nat, f: int, t: int, tries: nat,
                                          chain: seq<Block>)
    requires tries > 0 && Honest(answer, chain)
    ensures var r := Answered(answer, n, f, t, tries).0;
      && (r.Lost? || r == Page(Serve(chain, Some(f), Some(t))))
      && (Lossless(answer) && 0 <= f <= t < f + FETCH_CHUNK ==> !r.Lost?)
    decreases tries
  {
    if answer(n, f, t).Lost? && tries > 1 {
      AnsweredHonest(answer, n + 1, f, t, tries - 1, chain);
    }
  }

  lemma {:induction false} FetchedRun(answer: (nat, int, int) -> Reply, n: nat, h: nat, remoteHeight: int,
                                      chain: seq<Block>)
    requires Honest(answer, chain) && h <= |chain|
    ensures var got := Fetched(answer, n, h, remoteHeight);
      && h + |got| <= |chain| && got == chain[h..h + |got|]
      && (Lossless(answer) && remoteHeight == |chain| - 1 ==> got == chain[h..])
    decreases remoteHeight - h
  {
    if h <= remoteHeight {
      var toH := PageEnd(h, remoteHeight);
      var (r, next) := Answered(answer, n, h, toH, SYNC_REQUEST_RETRIES + 1);
      AnsweredHonest(answer, n, h, toH, SYNC_REQUEST_RETRIES + 1, chain);
      ServeIsRun(chain, h, toH);
      hide Answered, Honest, Lossless, Serve;
      if !r.Lost? && |r.blocks| == FETCH_CHUNK {
        FetchedRun(answer, next, h + FETCH_CHUNK, remoteHeight, chain);
      }
    }
  }

  // ---------------------------------------------------------------------------------- the whole sync

  function TipOf(chain: seq<Block>): Info {
    Info(|chain| - 1, if chain == [] then "" else chain[|chain| - 1].hash)
  }

  /** What a lossless exchange with a peer that told this tip proposes. */
  ghost predicate Proposed(local: seq<Block>, peerChain: seq<Block>, tip: Info, proposal: Option<seq<Block>>)
    requires local != []
  {
    var fork := ForkPoint(local, peerChain, 0);
    if tip == Info(|local| - 1, local[|local| - 1].hash) || fork == |peerChain| then proposal == None
    else proposal == Some(local[..fork] + peerChain[fork..])
  }

  /** c is a start of both chains followed by more of the peer's. */
  ghost predicate Spliced(local: seq<Block>, peerChain: seq<Block>, c: seq<Block>) {
    exists fork: nat, n: nat :: fork <= ForkPoint(local, peerChain, 0) && fork <= n <= |peerChain|
      && c == local[..fork] + peerChain[fork..n]
  }

  /** check_and_sync up to the hand-over: the chain given to apply_fn, if any. A missing info stands for
      no peer, no answer in time, or an answer without a height. */
  method ProposeChain(link: Link, local: seq<Block>, info: Option<Info>, ghost peerChain: seq<Block>)
    returns (proposal: Option<seq<Block>>)
    requires local != []
    modifies link
    ensures info.None? ==> proposal.None?
    ensures Honest(link.answer, peerChain) && AgreeBackwards(local, peerChain) && proposal.Some? ==>
      Spliced(local, peerChain, proposal.value)
    ensures Honest(link.answer, peerChain) && AgreeBackwards(local, peerChain) && Lossless(link.answer) ==>
      info.Some? && info.value.height == |peerChain| - 1 ==> Proposed(local, peerChain, info.value, proposal)
  {
    if info.None? {
      return None;
    }
    var remoteHeight := info.value.height;
    if remoteHeight == |local| - 1 && info.value.tipHash == local[|local| - 1].hash {
      return None;
    }
    var fork := FindForkPoint(link, local, peerChain);
    var tail := FetchChain(link, fork, remoteHeight, peerChain);
    if tail == [] {
      return None;
    }
    return Some(local[..fork] + tail);
  }

  /** Everything below position n is shared, block by block. */
  lemma {:induction false} SharedBelow(e: Env, local: seq<Block>, peerChain: seq<Block>, n: nat)
    requires BlockCollisionFree(e) && ValidChain(e, local) && ValidChain(e, peerChain)
    requires n <= ForkPoint(local, peerChain, 0)
    ensures local[..n] == peerChain[..n]
  {
    hide ValidChain;
    forall i | 0 <= i < n ensures local[i] == peerChain[i] {
      SameHashSameBlock(e, local, peerChain, i);
    }
  }

  /** Chains alike have the same hashes, so the search finds the same on them. */
  lemma {:induction false} AlikeSearch(local: seq<Block>, accepted: seq<Block>, peerChain: seq<Block>,
                                       proper: seq<Block>)
    requires AlikeAll(local, accepted) && AlikeAll(peerChain, proper)
    ensures AgreeBackwards(accepted, proper) ==> AgreeBackwards(local, peerChain)
    ensures ForkPoint(local, peerChain, 0) == ForkPoint(accepted, proper, 0)
  {
    forall i | 0 <= i < |local| ensures local[i].hash == accepted[i].hash {
      AlikeFields(local[i], accepted[i]);
    }
    forall i | 0 <= i < |peerChain| ensures peerChain[i].hash == proper[i].hash {
      AlikeFields(peerChain[i], proper[i]);
    }
    hide AlikeAll, ForkPoint;
  }

  /** A node holds chain, which it accepted as accepted: every node of this program does (Held), restarted or
      not. */
  ghost predicate Kept(e: Env, chain: seq<Block>, accepted: seq<Block>) {
    ValidChain(e, accepted) && AlikeAll(chain, accepted)
  }

  /** a is b's first blocks, tx_bytes aside. */
  ghost predicate AlikePrefix(a: seq<Block>, b: seq<Block>) {
    |a| <= |b| && AlikeAll(a, b[..|a|])
  }

  lemma {:induction false} PrefixIsFair(e: Env, chain: seq<Block>, like: seq<Block>)
    requires ValidChain(e, like) && AlikePrefix(chain, like)
    ensures FairOffer(e, chain)
  {
    forall i | 0 <= i < |chain| ensures Genuine(e, chain[i]) && (i > 0 ==> chain[i].height != 0) {
      ValidHashes(e, like, i);
      HeightIsPosition(e, like, i);
      assert like[..|chain|][i] == like[i];
      AlikeIsGenuine(e, chain[i], like[i]);
      AlikeFields(chain[i], like[i]);
    }
  }

  /** Below the fork point two nodes accepted the same blocks. */
  lemma {:induction false} SharedIsSame(e: Env, local: seq<Block>, accepted: seq<Block>, peerChain: seq<Block>,
                                        proper: seq<Block>)
    requires BlockCollisionFree(e) && Kept(e, local, accepted) && Kept(e, peerChain, proper)
    ensures |local| == |accepted| && |peerChain| == |proper|
    ensures var fork := ForkPoint(local, peerChain, 0); accepted[..fork] == proper[..fork]
    ensures AgreeBackwards(local, peerChain)
  {
    hide ValidChain, BlockCollisionFree;
    AlikeSearch(local, accepted, peerChain, proper);
    ValidChainsAgreeBackwards(e, accepted, proper);
    SharedBelow(e, accepted, proper, ForkPoint(local, peerChain, 0));
  }

  /** What an honest peer makes the node propose is a prefix of the peer's own chain. */
  lemma ProposalIsPrefix(e: Env, local: seq<Block>, accepted: seq<Block>, peerChain: seq<Block>, proper: seq<Block>,
                         proposal: seq<Block>)
    requires BlockCollisionFree(e) && Kept(e, local, accepted) && Kept(e, peerChain, proper)
    requires Spliced(local, peerChain, proposal)
    ensures AlikePrefix(proposal, peerChain) && FairOffer(e, proposal)
  {
    hide ValidChain, BlockCollisionFree, AlikePrefix, FairOffer;
    SharedIsSame(e, local, accepted, peerChain, proper);
    var fork: nat, n: nat :| fork <= ForkPoint(local, peerChain, 0) && fork <= n <= |peerChain|
      && proposal == local[..fork] + peerChain[fork..n];
    hide Spliced;
    assert accepted[..fork] == accepted[..ForkPoint(local, peerChain, 0)][..fork];
    assert proper[..fork] == proper[..ForkPoint(local, peerChain, 0)][..fork];
    SplicedIsPrefix(e, local, accepted, peerChain, proper, fork, n);
  }

  lemma SplicedIsPrefix(e: Env, local: seq<Block>, accepted: seq<Block>, peerChain: seq<Block>, proper: seq<Block>,
                        fork: nat, n: nat)
    requires Kept(e, local, accepted) && Kept(e, peerChain, proper)
    requires fork <= |local| && fork <= n <= |peerChain| && accepted[..fork] == proper[..fork]
    ensures var proposal := local[..fork] + peerChain[fork..n];
      AlikePrefix(proposal, peerChain) && FairOffer(e, proposal)
  {
    hide ValidChain;
    var proposal := local[..fork] + peerChain[fork..n];
    SpliceAlike(local, accepted, peerChain, proper, fork, n);
    AlikeTake(peerChain, proper, n);
    AlikeThrough(proposal, peerChain[..n], proper[..n]);
    PrefixIsFair(e, proposal, proper);
  }

  lemma SpliceAlike(local: seq<Block>, accepted: seq<Block>, peerChain: seq<Block>, proper: seq<Block>, n: nat, m: nat)
    requires AlikeAll(local, accepted) && AlikeAll(peerChain, proper)
    requires n <= |local| && n <= m <= |peerChain| && accepted[..n] == proper[..n]
    ensures AlikeAll(local[..n] + peerChain[n..m], peerChain[..m])
  {
    AlikeTake(local, accepted, n);
    AlikeTake(peerChain, proper, n);
    AlikeTurned(peerChain[..n], proper[..n]);
    AlikeThrough(local[..n], accepted[..n], peerChain[..n]);
    AlikeSelf(peerChain[n..m]);
    AlikeJoin(local[..n], peerChain[..n], peerChain[n..m], peerChain[n..m]);
    assert peerChain[..n] + peerChain[n..m] == peerChain[..m];
  }

  // ------------------------------------------------------------------- offers by nodes of this program

  /** Blocks as held still carry their own hashes exactly when they are what was accepted. */
  lemma SealedIff(e: Env, chain: seq<Block>, proper: seq<Block>, n: nat)
    requires BlockCollisionFree(e) && Kept(e, chain, proper) && n <= |chain|
    ensures Sealed(e, chain[n..]) <==> chain[n..] == proper[n..]
  {
    hide ValidChain, BlockCollisionFree;
    forall i | n <= i < |chain|
      ensures chain[n..][i - n].hash == BlockHash(e, chain[n..][i - n]) <==> chain[i] == proper[i] {
      ValidHashes(e, proper, i);
      AlikeFields(chain[i], proper[i]);
      if chain[i].hash == BlockHash(e, chain[i]) {
        SameHashSame(e, chain[i], proper[i]);
      }
    }
    SealedEach(e, chain, proper, n);
  }

  lemma SealedEach(e: Env, chain: seq<Block>, proper: seq<Block>, n: nat)
    requires n <= |chain| == |proper|
    requires forall i :: n <= i < |chain| ==>
      (chain[n..][i - n].hash == BlockHash(e, chain[n..][i - n]) <==> chain[i] == proper[i])
    ensures Sealed(e, chain[n..]) <==> chain[n..] == proper[n..]
  {
    hide BlockHash;
    if Sealed(e, chain[n..]) {
      forall i | n <= i < |chain| ensures chain[i] == proper[i] {
        assert chain[n..][i - n].hash == BlockHash(e, chain[n..][i - n]);
      }
    }
    if chain[n..] == proper[n..] {
      forall i | 0 <= i < |chain[n..]| ensures chain[n..][i].hash == BlockHash(e, chain[n..][i]) {
        assert chain[n..][i] == chain[n + i] && proper[n..][i] == proper[n + i];
        assert chain[n..][n + i - n] == chain[n..][i];
      }
    }
  }

  /** A node's chain is valid on what another accepted exactly when its blocks behind the fork point still carry
      their own hashes. */
  lemma {:induction false} GraftValidIff(e: Env, local: seq<Block>, accepted: seq<Block>, remote: seq<Block>,
                                         proper: seq<Block>)
    requires BlockCollisionFree(e) && Kept(e, local, accepted) && Kept(e, remote, proper)
    ensures var fork := ForkPoint(local, remote, 0);
      |accepted| == |local| && (ValidChain(e, Grafted(accepted, remote, fork)) <==> Sealed(e, remote[fork..]))
  {
    var fork := ForkPoint(local, remote, 0);
    SharedIsSame(e, local, accepted, remote, proper);
    SealedIff(e, remote, proper, fork);
    hide BlockCollisionFree, ForkPoint, AgreeBackwards, Sealed, AlikeAll, ValidChain;
    if Sealed(e, remote[fork..]) {
      GraftIs(accepted, remote, proper, fork);
    }
    if ValidChain(e, Grafted(accepted, remote, fork)) {
      GraftSealed(e, accepted, remote, fork);
    }
    hide Grafted;
  }

  lemma GraftIs(accepted: seq<Block>, remote: seq<Block>, proper: seq<Block>, fork: nat)
    requires fork <= |accepted| && fork <= |remote| && fork <= |proper|
    requires accepted[..fork] == proper[..fork] && remote[fork..] == proper[fork..]
    ensures Grafted(accepted, remote, fork) == proper
  {
    assert proper[..fork] + proper[fork..] == proper;
  }

  lemma {:induction false} GraftSealed(e: Env, accepted: seq<Block>, remote: seq<Block>, fork: nat)
    requires fork <= |accepted| && fork <= |remote| && ValidChain(e, Grafted(accepted, remote, fork))
    ensures Sealed(e, remote[fork..])
  {
    var grafted := Grafted(accepted, remote, fork);
    hide ValidChain, BlockHash;
    forall i | 0 <= i < |remote[fork..]| ensures remote[fork..][i].hash == BlockHash(e, remote[fork..][i]) {
      ValidHashes(e, grafted, fork + i);
      assert grafted[fork + i] == remote[fork..][i];
    }
  }

  /** What a node does with the chain of another: it is taken exactly when its blocks behind the fork point still
      carry their own hashes and are in time, and it beats the held one. */
  lemma {:induction false} OfferTakenIff(e: Env, held: ChainState, accepted: seq<Block>, remote: seq<Block>,
                                         proper: seq<Block>, now: Instant)
    requires BlockCollisionFree(e) && Held(e, held, accepted) && held.chain != [] && Kept(e, remote, proper)
    ensures FromChain(remote).Some? && FromChain(remote).value.chain == remote && remote != []
    ensures var r := Evaluate(e, held, remote, now);
      var tail := remote[ForkPoint(held.chain, remote, 0)..];
      && (r.Better? <==> Sealed(e, tail) && NotAhead(tail, now) && IsBetter(FromChain(remote).value, held))
      && (r.Better? ==> r.cs == FromChain(remote).value)
  {
    hide ValidChain, BlockCollisionFree, Evaluate, Sealed, NotAhead, IsBetter, FromChain, SameView;
    AlikeWhole(proper);
    PrefixIsFair(e, remote, proper);
    ReplayedIsHeld(e, remote, proper);
    StartsFromGenesis(e, proper);
    GraftValidIff(e, held.chain, accepted, remote, proper);
    hide Held;
    EvaluateMeaning(e, held, accepted, remote, now);
  }

  lemma AlikeWhole(chain: seq<Block>)
    ensures chain[..|chain|] == chain
  {
  }

  /** What a node that holds p gets across after a restart: another takes it exactly when each block it does not
      share had tx_bytes, these are in time, and p beats what that one holds. */
  lemma {:induction false} RestartedOfferIff(e: Env, held: ChainState, accepted: seq<Block>, p: seq<Block>,
                                             now: Instant)
    requires BlockCollisionFree(e) && Held(e, held, accepted) && held.chain != [] && ValidChain(e, p)
    ensures FromChain(p).Some? && FromChain(p).value.chain == p && p != []
    ensures
      var fork := ForkPoint(held.chain, p, 0);
      && ForkPoint(held.chain, Backfill(e, p), 0) == fork
      && (Evaluate(e, held, Backfill(e, p), now).Better?
          <==> && (forall i :: fork <= i < |p| ==> p[i].txBytes.Some?)
               && NotAhead(p[fork..], now) && IsBetter(FromChain(p).value, held))
  {
    var loaded := Backfill(e, p);
    hide ValidChain, BlockCollisionFree, Evaluate, NotAhead, IsBetter, FromChain, SameView, Backfill;
    BackfillAlike(e, p);
    AlikeSelf(p);
    OfferTakenIff(e, held, accepted, loaded, p, now);
    ReplayedIsHeld(e, p, p);
    StartsFromGenesis(e, p);
    SameForkPoint(held.chain, p, loaded);
    var fork := ForkPoint(held.chain, p, 0);
    BackfillTailIff(e, p, fork);
    NotAheadAlikeTail(loaded, p, fork, now);
    AlikeFromChain(loaded, p);
    AlikeSelf(held.chain);
    AlikeBetter(FromChain(loaded).value, held, FromChain(p).value, held);
  }

  lemma {:induction false} BackfillTailIff(e: Env, p: seq<Block>, n: nat)
    requires BlockCollisionFree(e) && ValidChain(e, p) && n <= |p|
    ensures Sealed(e, Backfill(e, p)[n..]) <==> forall i :: n <= i < |p| ==> p[i].txBytes.Some?
  {
    var loaded := Backfill(e, p);
    forall i | n <= i < |p|
      ensures loaded[n..][i - n].hash == BlockHash(e, loaded[n..][i - n]) <==> p[i].txBytes.Some?
    {
      LoadedKeepsIff(e, p, i);
    }
    hide ValidChain, BlockCollisionFree, Backfill, BlockHash;
    if Sealed(e, loaded[n..]) {
      forall i | n <= i < |p| ensures p[i].txBytes.Some? {
        assert loaded[n..][i - n].hash == BlockHash(e, loaded[n..][i - n]);
      }
    }
    if forall i :: n <= i < |p| ==> p[i].txBytes.Some? {
      forall i | 0 <= i < |loaded[n..]| ensures loaded[n..][i].hash == BlockHash(e, loaded[n..][i]) {
        assert p[n + i].txBytes.Some? && loaded[n..][n + i - n] == loaded[n..][i];
      }
    }
  }

  lemma NotAheadAlikeTail(a: seq<Block>, b: seq<Block>, n: nat, now: Instant)
    requires AlikeAll(a, b) && n <= |a|
    ensures NotAhead(a[n..], now) <==> NotAhead(b[n..], now)
  {
    forall i | 0 <= i < |a[n..]| ensures a[n..][i].timestamp == b[n..][i].timestamp {
      AlikeFields(a[n + i], b[n + i]);
    }
  }

  lemma {:induction false} SameForkPoint(local: seq<Block>, a: seq<Block>, b: seq<Block>)
    requires AlikeAll(b, a)
    ensures ForkPoint(local, b, 0) == ForkPoint(local, a, 0)
  {
    AlikeSelf(local);
    AlikeSearch(local, local, b, a);
  }

  /** The early exit of check_and_sync is right: equal height and equal tip hash mean equal chains. */
  lemma {:induction false} SameTipSameChain(e: Env, local: seq<Block>, peerChain: seq<Block>)
    requires BlockCollisionFree(e) && ValidChain(e, local) && ValidChain(e, peerChain)
    requires |local| == |peerChain| && local[|local| - 1].hash == peerChain[|peerChain| - 1].hash
    ensures ForkPoint(local, peerChain, 0) == |peerChain| && local == peerChain
  {
    ValidChainsAgreeBackwards(e, local, peerChain);
    CommonPrefixBounds(local, peerChain, |local|);
    SharedBelow(e, local, peerChain, |peerChain|);
    assert local[..|local|] == local && peerChain[..|peerChain|] == peerChain;
  }

  /** Whether adopted or not, an in-time chain offered to the node, valid on what the node accepted, is not
      better than what the node then holds. */
  lemma {:induction false} OfferedIsNotBetterAfter(e: Env, before: ChainState, accepted: seq<Block>, offer: seq<Block>,
                                                   now: Instant)
    requires BlockCollisionFree(e) && Held(e, before, accepted) && before.chain != [] && |accepted| == |before.chain|
    requires FairOffer(e, offer) && NotAhead(offer, now)
    requires ValidChain(e, Grafted(accepted, offer, ForkPoint(before.chain, offer, 0)))
    ensures FromChain(offer).Some? && FromChain(offer).value.chain == offer && offer != []
    ensures
      var r := Evaluate(e, before, offer, now);
      && (r.Better? ==> r.cs == FromChain(offer).value)
      && var after := if r.Better? then r.cs else before;
         after.chain != [] && !IsBetter(FromChain(offer).value, after)
  {
    hide ValidChain, Held, Evaluate, NotAhead, Genuine;
    EvaluateMeaning(e, before, accepted, offer, now);
    var fork := ForkPoint(before.chain, offer, 0);
    NotAheadTail(offer, fork, now);
    OfferReplays(e, before, accepted, offer);
    IsBetterIsStrict(FromChain(offer).value, before, before);
    hide IsBetter, FairOffer, FromChain;
  }

  lemma NotAheadTail(bs: seq<Block>, n: nat, now: Instant)
    requires n <= |bs| && NotAhead(bs, now)
    ensures NotAhead(bs[n..], now)
  {
  }

  lemma {:induction false} OfferReplays(e: Env, before: ChainState, accepted: seq<Block>, offer: seq<Block>)
    requires BlockCollisionFree(e) && Held(e, before, accepted) && FairOffer(e, offer)
    requires before.chain != [] && |accepted| == |before.chain|
    requires ValidChain(e, Grafted(accepted, offer, ForkPoint(before.chain, offer, 0)))
    ensures FromChain(offer).Some? && FromChain(offer).value.chain == offer && offer != []
  {
    var fork := ForkPoint(before.chain, offer, 0);
    PrefixShared(e, before, accepted, offer);
    GraftAlike(accepted, offer, fork);
    hide Held, FairOffer;
    StartsFromGenesis(e, Grafted(accepted, offer, fork));
    hide ValidChain;
    GraftReplays(e, offer, Grafted(accepted, offer, fork));
  }

  /** check_and_sync with apply_better_chain as its callback, against another node of this program, restarted or
      not, whose chain does not change meanwhile. Whatever is lost, the node keeps its chain or takes a prefix of
      the peer's. If nothing is lost, it takes the peer's whole chain exactly when the blocks it does not share
      still carry their own hashes, are in time, and the chain beats its own; if they do and are, the peer's
      chain is then no better than what it holds. The chains compare up to tx_bytes. */
  method SyncWithHonestPeer(node: Node, link: Link, info: Option<Info>, peerChain: seq<Block>, ghost proper: seq<Block>,
                            now: Instant) returns (updated: bool)
    requires node.Valid() && Honest(link.answer, peerChain) && Kept(node.env, peerChain, proper)
    requires info.Some? ==> info == Some(TipOf(peerChain))
    modifies node, node.mempool, node.storage, link
    ensures node.Valid() && old(node.cs).chain != [] && node.cs.chain != []
    ensures !updated ==> node.cs == old(node.cs)
    ensures updated ==> AlikePrefix(node.cs.chain, peerChain) && IsBetter(node.cs, old(node.cs))
    ensures Lossless(link.answer) && info.Some? ==>
      Synced(node.env, old(node.cs), peerChain, now, updated, node.cs)
  {
    hide Consistent, Held, Evaluate, FromChain, Honest, AgreeBackwards, Proposed, NotAhead, Lossless, Spliced;
    hide IsBetter, FairOffer, Kept, AlikePrefix, Synced;
    ghost var e := node.env;
    ghost var before, accepted := node.cs, node.accepted;
    ConsistentFacts(e, node.cs, node.view, node.storage.tables, accepted, node.history);
    ConsistentHeld(e, node.cs, node.view, node.storage.tables, accepted, node.history);
    SharedIsSame(e, before.chain, accepted, peerChain, proper);
    var proposal := ProposeChain(link, node.cs.chain, info, peerChain);
    updated := false;
    if proposal.Some? {
      ProposalIsPrefix(e, before.chain, accepted, peerChain, proper, proposal.value);
      updated := node.ApplyBetterChain(proposal.value, now);
      ProposalJudged(e, before, accepted, proposal.value, now);
    }
    if Lossless(link.answer) && info.Some? {
      SyncedIs(e, before, accepted, peerChain, proper, proposal, now);
    }
  }

  lemma ConsistentHeld(e: Env, cs: ChainState, view: ChainState, tables: Tables, accepted: seq<Block>,
                       history: seq<ChainState>)
    requires Consistent(e, cs, view, tables, accepted, history)
    ensures BlockCollisionFree(e) && Held(e, cs, accepted) && Kept(e, cs.chain, accepted)
  {
  }

  lemma ProposalJudged(e: Env, before: ChainState, accepted: seq<Block>, remote: seq<Block>, now: Instant)
    requires BlockCollisionFree(e) && Held(e, before, accepted) && before.chain != [] && FairOffer(e, remote)
    ensures var r := Evaluate(e, before, remote, now);
      r.Better? ==> r.cs.chain != [] && IsBetter(r.cs, before)
  {
    if Evaluate(e, before, remote, now).Better? {
      AdoptedIsHeld(e, before, accepted, remote, now);
    }
  }

  /** A lossless sync: when the peer's chain is taken, and what is held then. */
  ghost predicate Synced(e: Env, before: ChainState, peerChain: seq<Block>, now: Instant, updated: bool,
                         after: ChainState) {
    && before.chain != [] && after.chain != [] && peerChain != []
    && FromChain(peerChain).Some? && FromChain(peerChain).value.chain == peerChain
    && var tail := peerChain[ForkPoint(before.chain, peerChain, 0)..];
    && (updated <==> Sealed(e, tail) && NotAhead(tail, now) && IsBetter(FromChain(peerChain).value, before))
    && (updated ==> AlikeAll(after.chain, peerChain))
    && (Sealed(e, tail) && NotAhead(tail, now) ==> !IsBetter(FromChain(peerChain).value, after))
  }

  /** The chain state after apply_fn had the proposal, if there was one, and whether it was taken. */
  ghost function AfterOffer(e: Env, before: ChainState, proposal: Option<seq<Block>>, now: Instant): (bool, ChainState)
    requires before.chain != []
  {
    if proposal.None? then (false, before)
    else
      var r := Evaluate(e, before, proposal.value, now);
      if r.Better? then (true, r.cs) else (false, before)
  }

  /** The lossless case, on values. */
  lemma SyncedIs(e: Env, before: ChainState, accepted: seq<Block>, peerChain: seq<Block>, proper: seq<Block>,
                 proposal: Option<seq<Block>>, now: Instant)
    requires BlockCollisionFree(e) && Held(e, before, accepted) && before.chain != [] && Kept(e, peerChain, proper)
    requires Proposed(before.chain, peerChain, TipOf(peerChain), proposal)
    ensures var (updated, after) := AfterOffer(e, before, proposal, now);
      Synced(e, before, peerChain, now, updated, after)
  {
    hide BlockCollisionFree, Held, Kept, Evaluate;
    KeptReplays(e, peerChain, proper);
    if proposal.Some? {
      WholeOfferIs(e, before, accepted, peerChain, proper, proposal.value, now);
    } else {
      hide Sealed, NotAhead, FromChain, IsBetter, AlikeAll;
      NoProposalNoGain(e, before, accepted, peerChain, proper);
    }
  }

  lemma KeptReplays(e: Env, peerChain: seq<Block>, proper: seq<Block>)
    requires Kept(e, peerChain, proper)
    ensures peerChain != [] && FromChain(peerChain).Some? && FromChain(peerChain).value.chain == peerChain
  {
    hide ValidChain;
    StartsFromGenesis(e, proper);
    ReplayedIsHeld(e, peerChain, proper);
  }

  lemma WholeOfferIs(e: Env, before: ChainState, accepted: seq<Block>, peerChain: seq<Block>, proper: seq<Block>,
                     offer: seq<Block>, now: Instant)
    requires BlockCollisionFree(e) && Held(e, before, accepted) && before.chain != [] && Kept(e, peerChain, proper)
    requires Proposed(before.chain, peerChain, TipOf(peerChain), Some(offer))
    ensures var r := Evaluate(e, before, offer, now);
      Synced(e, before, peerChain, now, r.Better?, if r.Better? then r.cs else before)
  {
    hide ValidChain, BlockCollisionFree, Sealed, NotAhead, IsBetter, FromChain, Evaluate, SameView;
    KeptReplays(e, peerChain, proper);
    OfferIsPeers(e, before.chain, accepted, peerChain, proper, offer);
    OfferTakenIff(e, before, accepted, offer, proper, now);
    AlikeFromChain(offer, peerChain);
    AlikeSelf(before.chain);
    AlikeSelf(offer);
    hide Held, Kept;
    AlikeBetter(FromChain(offer).value, before, FromChain(peerChain).value, before);
    AlikeBetter(FromChain(offer).value, FromChain(offer).value, FromChain(peerChain).value, FromChain(offer).value);
    IsBetterIsStrict(FromChain(offer).value, before, before);
  }

  /** What a lossless search and fetch propose is the peer's chain, tx_bytes aside, with the same blocks behind the
      fork point. */
  lemma {:induction false} OfferIsPeers(e: Env, local: seq<Block>, accepted: seq<Block>, peerChain: seq<Block>,
                                        proper: seq<Block>, offer: seq<Block>)
    requires BlockCollisionFree(e) && Kept(e, local, accepted) && Kept(e, peerChain, proper) && local != []
    requires Proposed(local, peerChain, TipOf(peerChain), Some(offer))
    ensures AlikeAll(offer, peerChain) && Kept(e, offer, proper)
    ensures var fork := ForkPoint(local, peerChain, 0);
      ForkPoint(local, offer, 0) == fork && offer[fork..] == peerChain[fork..]
  {
    hide ValidChain, BlockCollisionFree;
    var fork := ForkPoint(local, peerChain, 0);
    SharedIsSame(e, local, accepted, peerChain, proper);
    SpliceAlike(local, accepted, peerChain, proper, fork, |peerChain|);
    assert offer == local[..fork] + peerChain[fork..];
    assert peerChain[..|peerChain|] == peerChain && peerChain[fork..|peerChain|] == peerChain[fork..];
    AlikeThrough(offer, peerChain, proper);
    SameForkPoint(local, peerChain, offer);
  }

  /** Where nothing is proposed there was nothing to gain: the peer's chain is a prefix of ours, or ours itself. */
  lemma NoProposalNoGain(e: Env, before: ChainState, accepted: seq<Block>, peerChain: seq<Block>, proper: seq<Block>)
    requires BlockCollisionFree(e) && Held(e, before, accepted) && before.chain != [] && Kept(e, peerChain, proper)
    requires Proposed(before.chain, peerChain, TipOf(peerChain), None)
    ensures FromChain(peerChain).Some? && !IsBetter(FromChain(peerChain).value, before)
  {
    hide ValidChain, FromChain, BlockCollisionFree, IsBetter, SameView;
    StartsFromGenesis(e, proper);
    if ForkPoint(before.chain, peerChain, 0) < |peerChain| {
      SameTipAlike(e, before.chain, accepted, peerChain, proper);
    }
    SharedWhole(e, before.chain, accepted, peerChain, proper);
    PrefixNotBetter(e, before, accepted, FromChain(peerChain).value);
  }

  lemma {:induction false} SharedWhole(e: Env, local: seq<Block>, accepted: seq<Block>, peerChain: seq<Block>,
                                       proper: seq<Block>)
    requires BlockCollisionFree(e) && Kept(e, local, accepted) && Kept(e, peerChain, proper)
    requires ForkPoint(local, peerChain, 0) == |peerChain|
    ensures 0 < |peerChain| <= |local| == |accepted|
    ensures FromChain(peerChain).Some? && FromChain(peerChain).value.chain == peerChain
    ensures AlikeAll(peerChain, accepted[..|peerChain|])
    ensures FromChain(peerChain).value.work == CumulativeIterations(accepted[..|peerChain|])
  {
    hide ValidChain, BlockCollisionFree, FromChain, AlikeAll, ForkPoint;
    SharedIsSame(e, local, accepted, peerChain, proper);
    StartsFromGenesis(e, proper);
    ReplayedIsHeld(e, peerChain, proper);
    AlikeWhole(proper);
  }

  lemma {:induction false} SameTipAlike(e: Env, local: seq<Block>, accepted: seq<Block>, peerChain: seq<Block>,
                                        proper: seq<Block>)
    requires BlockCollisionFree(e) && Kept(e, local, accepted) && Kept(e, peerChain, proper)
    requires 0 < |local| == |peerChain| && local[|local| - 1].hash == peerChain[|peerChain| - 1].hash
    ensures ForkPoint(local, peerChain, 0) == |peerChain|
  {
    hide ValidChain, BlockCollisionFree;
    AlikeSearch(local, accepted, peerChain, proper);
    AlikeFields(local[|local| - 1], accepted[|accepted| - 1]);
    AlikeFields(peerChain[|peerChain| - 1], proper[|proper| - 1]);
    hide AlikeAll;
    SameTipSameChain(e, accepted, proper);
  }
}
