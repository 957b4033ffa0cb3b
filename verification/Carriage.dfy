/** What the datagram layer can carry of what the chain layer allows: a sync answer is one chunked message. */
module Carriage {
  import opened Params
  import opened Prelude
  import opened Types
  import opened Ledgers
  import opened BlockRules
  import opened Chunks
  import opened Sync

  /** All chunks of a message, each once. */
  function AllChunks(msgType: int, msgId: int, payload: Bytes, n: nat): (r: seq<Datagram>)
    requires n <= |ChunksOf(payload)|
    ensures |r| == n && forall d :: d in r ==>
      0 <= d.chunkIdx < |ChunksOf(payload)| && d == ChunkDatagram(msgType, msgId, payload, d.chunkIdx)
  {
    if n == 0 then [] else AllChunks(msgType, msgId, payload, n - 1) + [ChunkDatagram(msgType, msgId, payload, n - 1)]
  }

  lemma {:induction false} AllIndices(msgType: int, msgId: int, payload: Bytes, n: nat)
    requires n <= |ChunksOf(payload)|
    ensures IndicesIn(AllChunks(msgType, msgId, payload, n)) == Indices(n)
  {
    if n > 0 {
      AllIndices(msgType, msgId, payload, n - 1);
      var front := AllChunks(msgType, msgId, payload, n - 1);
      var all := AllChunks(msgType, msgId, payload, n);
      assert all[..n - 1] == front && all[n - 1].chunkIdx == n - 1;
      hide ChunksOf, AllChunks;
    }
  }

  /** Of a message above the limit the collector never sees anything. */
  lemma {:induction false} TooLargeIsIgnored<T>(run: seq<Datagram>, payload: Bytes, decode: Bytes -> Option<T>)
    requires |payload| > MESSAGE_LIMIT && forall d :: d in run ==> d.chunkTotal == |ChunksOf(payload)|
    ensures RunSync(run, decode) == Collector(map[], None, false, None)
  {
    SizeLimit(payload);
    if run != [] {
      var k := |run| - 1;
      assert run[k] in run;
      TooLargeIsIgnored(run[..k], payload, decode);
    }
  }

  /** With every chunk delivered, a message comes through exactly up to the limit. */
  lemma {:induction false} CarriedIff<T>(msgType: int, msgId: int, payload: Bytes, decode: Bytes -> Option<T>)
    ensures
      var c := RunSync(AllChunks(msgType, msgId, payload, |ChunksOf(payload)|), decode);
      && (c.event <==> |payload| <= MESSAGE_LIMIT)
      && (c.event ==> c.result == decode(payload))
  {
    var run := AllChunks(msgType, msgId, payload, |ChunksOf(payload)|);
    if |payload| <= MESSAGE_LIMIT {
      AllIndices(msgType, msgId, payload, |ChunksOf(payload)|);
      SyncDeliversWhenComplete(run, payload, msgType, msgId, decode);
    } else {
      TooLargeIsIgnored(run, payload, decode);
    }
  }

  /** The best a network can do: each answer of an honest peer is sent once and every chunk arrives. */
  function BestAnswer(encode: seq<Block> -> Bytes, decode: Bytes -> Option<seq<Block>>, chain: seq<Block>, f: int,
                      t: int)
    : Reply
  {
    var payload := encode(Serve(chain, Some(f), Some(t)));
    var c := RunSync(AllChunks(MT_SYNC, 0, payload, |ChunksOf(payload)|), decode);
    if c.event && c.result.Some? then Page(c.result.value) else Lost
  }

  function BestLink(encode: seq<Block> -> Bytes, decode: Bytes -> Option<seq<Block>>, chain: seq<Block>)
    : (nat, int, int) -> Reply
  {
    (n, f, t) => BestAnswer(encode, decode, chain, f, t)
  }

  /** An answer comes through whole or is lost by its size. */
  lemma BestAnswerIs(encode: seq<Block> -> Bytes, decode: Bytes -> Option<seq<Block>>, chain: seq<Block>, f: int,
                     t: int)
    requires forall page :: decode(encode(page)) == Some(page)
    ensures
      var page := Serve(chain, Some(f), Some(t));
      BestAnswer(encode, decode, chain, f, t) == if |encode(page)| <= MESSAGE_LIMIT then Page(page) else Lost
  {
    CarriedIff(MT_SYNC, 0, encode(Serve(chain, Some(f), Some(t))), decode);
  }

  /** Every request a sync can make is answered exactly when no run of up to FETCH_CHUNK blocks of the peer's is
      encoded above the limit. */
  lemma LosslessIff(encode: seq<Block> -> Bytes, decode: Bytes -> Option<seq<Block>>, chain: seq<Block>)
    requires forall page :: decode(encode(page)) == Some(page)
    ensures Honest(BestLink(encode, decode, chain), chain)
    ensures Lossless(BestLink(encode, decode, chain))
       <==> forall f, t :: 0 <= f <= t < f + FETCH_CHUNK ==> |encode(Serve(chain, Some(f), Some(t)))| <= MESSAGE_LIMIT
  {
    var link := BestLink(encode, decode, chain);
    forall n: nat, f, t
      ensures link(n, f, t)
           == var page := Serve(chain, Some(f), Some(t)); if |encode(page)| <= MESSAGE_LIMIT then Page(page) else Lost
    {
      BestAnswerIs(encode, decode, chain, f, t);
    }
    hide Serve, BestAnswer;
    if Lossless(link) {
      forall f, t | 0 <= f <= t < f + FETCH_CHUNK ensures |encode(Serve(chain, Some(f), Some(t)))| <= MESSAGE_LIMIT {
        assert !link(0, f, t).Lost?;
      }
    }
  }

  // ------------------------------------------------------------------------------- what a fetch brings

  /** The height at which the k-th page of a fetch starts. */
  function PageStart(from: nat, k: nat): nat {
    from + k * FETCH_CHUNK
  }

  function PageAt(chain: seq<Block>, h: nat): seq<Block> {
    if h >= |chain| then [] else if h + FETCH_CHUNK <= |chain| then chain[h..h + FETCH_CHUNK] else chain[h..]
  }

  /** The page that starts at h can be carried, or there is none. */
  predicate PageFits(encode: seq<Block> -> Bytes, chain: seq<Block>, h: nat) {
    h < |chain| ==> |encode(PageAt(chain, h))| <= MESSAGE_LIMIT
  }

  lemma {:induction false} BestAnswered(encode: seq<Block> -> Bytes, decode: Bytes -> Option<seq<Block>>,
                                        chain: seq<Block>, n: nat, h: nat, tries: nat)
    requires (forall page :: decode(encode(page)) == Some(page)) && h < |chain| && tries > 0
    ensures Answered(BestLink(encode, decode, chain), n, h, PageEnd(h, |chain| - 1), tries).0
         == if PageFits(encode, chain, h) then Page(PageAt(chain, h)) else Lost
    decreases tries
  {
    var toH := PageEnd(h, |chain| - 1);
    BestAnswerIs(encode, decode, chain, h, toH);
    ServeIsRun(chain, h, toH);
    assert Serve(chain, Some(h), Some(toH)) == PageAt(chain, h);
    hide Serve, BestAnswer, PageAt, PageEnd;
    if tries > 1 {
      BestAnswered(encode, decode, chain, n + 1, h, tries - 1);
    }
  }

  /** The first page of a fetch, and the rest if it was full. */
  lemma FetchedFirst(encode: seq<Block> -> Bytes, decode: Bytes -> Option<seq<Block>>, chain: seq<Block>, n: nat,
                     h: nat)
    returns (next: nat)
    requires (forall page :: decode(encode(page)) == Some(page)) && h < |chain|
    ensures
      var link := BestLink(encode, decode, chain);
      Fetched(link, n, h, |chain| - 1)
        == if !PageFits(encode, chain, h) then []
           else if h + FETCH_CHUNK > |chain| then chain[h..]
           else chain[h..h + FETCH_CHUNK] + Fetched(link, next, h + FETCH_CHUNK, |chain| - 1)
  {
    BestAnswered(encode, decode, chain, n, h, SYNC_REQUEST_RETRIES + 1);
    next := Answered(BestLink(encode, decode, chain), n, h, PageEnd(h, |chain| - 1), SYNC_REQUEST_RETRIES + 1).1;
    hide Answered, BestLink, PageEnd;
  }

  /** What a fetch brings over the best network. It is all the rest of the peer's chain exactly when each page
      asked for can be carried; else it stops before the first that cannot. */
  lemma {:induction false} FetchedIff(encode: seq<Block> -> Bytes, decode: Bytes -> Option<seq<Block>>,
                                      chain: seq<Block>, n: nat, from: nat)
    requires (forall page :: decode(encode(page)) == Some(page)) && from <= |chain|
    ensures
      var got := Fetched(BestLink(encode, decode, chain), n, from, |chain| - 1);
      && (got == chain[from..] <==> forall k: nat :: PageFits(encode, chain, PageStart(from, k)))
      && forall k: nat | StopsAt(encode, chain, from, k) :: got == chain[from..PageStart(from, k)]
    decreases |chain| - from
  {
    var link := BestLink(encode, decode, chain);
    var got := Fetched(link, n, from, |chain| - 1);
    assert from == |chain| ==> got == [];
    hide PageFits, Fetched, BestLink;
    if from < |chain| {
      var rest := from + FETCH_CHUNK;
      var next := FetchedFirst(encode, decode, chain, n, from);
      FitsFrom(encode, chain, from, rest);
      if PageFits(encode, chain, from) && rest <= |chain| {
        FetchedIff(encode, decode, chain, next, rest);
        RunSplits(chain, from, rest, Fetched(link, next, rest, |chain| - 1));
      } else if PageFits(encode, chain, from) {
        NothingAsked(encode, chain, rest);
      }
      forall k: nat | StopsAt(encode, chain, from, k) ensures got == chain[from..PageStart(from, k)] {
        StopsFrom(encode, chain, from, rest, k);
        if k > 0 {
          RunGrows(chain, from, rest, PageStart(rest, k - 1));
        }
      }
    } else {
      NothingAsked(encode, chain, from);
    }
  }

  lemma RunGrows(chain: seq<Block>, a: nat, b: nat, c: nat)
    requires a <= b <= c <= |chain|
    ensures chain[a..b] + chain[b..c] == chain[a..c]
  {
  }

  lemma RunSplits(chain: seq<Block>, a: nat, b: nat, r: seq<Block>)
    requires a <= b <= |chain|
    ensures chain[a..b] + r == chain[a..] <==> r == chain[b..]
  {
    assert chain[a..] == chain[a..b] + chain[b..];
    assert (chain[a..b] + r)[b - a..] == r && (chain[a..b] + chain[b..])[b - a..] == chain[b..];
  }

  lemma NothingAsked(encode: seq<Block> -> Bytes, chain: seq<Block>, from: nat)
    requires from >= |chain|
    ensures forall k: nat :: PageFits(encode, chain, PageStart(from, k)) && !StopsAt(encode, chain, from, k)
  {
  }

  lemma NextStart(from: nat, rest: nat, k: nat)
    requires rest == from + FETCH_CHUNK
    ensures PageStart(from, 0) == from && PageStart(from, k + 1) == PageStart(rest, k)
  {
  }

  lemma FitsFrom(encode: seq<Block> -> Bytes, chain: seq<Block>, from: nat, rest: nat)
    requires rest == from + FETCH_CHUNK
    ensures (forall k: nat :: PageFits(encode, chain, PageStart(from, k)))
       <==> PageFits(encode, chain, from) && forall k: nat :: PageFits(encode, chain, PageStart(rest, k))
  {
    NextStart(from, rest, 0);
    if forall k: nat :: PageFits(encode, chain, PageStart(from, k)) {
      assert PageFits(encode, chain, PageStart(from, 0));
      forall k: nat ensures PageFits(encode, chain, PageStart(rest, k)) {
        NextStart(from, rest, k);
        assert PageFits(encode, chain, PageStart(from, k + 1));
      }
    }
    if PageFits(encode, chain, from) && forall k: nat :: PageFits(encode, chain, PageStart(rest, k)) {
      forall k: nat ensures PageFits(encode, chain, PageStart(from, k)) {
        if k > 0 {
          NextStart(from, rest, k - 1);
          assert PageFits(encode, chain, PageStart(rest, k - 1));
        }
      }
    }
  }

  lemma StopsFrom(encode: seq<Block> -> Bytes, chain: seq<Block>, from: nat, rest: nat, k: nat)
    requires rest == from + FETCH_CHUNK && StopsAt(encode, chain, from, k)
    ensures PageStart(from, k) < |chain| && (k == 0 <==> !PageFits(encode, chain, from))
    ensures k == 0 ==> PageStart(from, k) == from
    ensures k > 0 ==> StopsAt(encode, chain, rest, k - 1) && PageStart(from, k) == PageStart(rest, k - 1) >= rest
  {
    NextStart(from, rest, 0);
    if k > 0 {
      NextStart(from, rest, k - 1);
      assert PageFits(encode, chain, PageStart(from, 0));
      forall j: nat | j < k - 1 ensures PageFits(encode, chain, PageStart(rest, j)) {
        NextStart(from, rest, j);
        assert PageFits(encode, chain, PageStart(from, j + 1));
      }
    }
  }

  /** The k-th page is the first that cannot be carried. */
  ghost predicate StopsAt(encode: seq<Block> -> Bytes, chain: seq<Block>, from: nat, k: nat) {
    && !PageFits(encode, chain, PageStart(from, k)) && PageStart(from, k) < |chain|
    && forall j: nat :: j < k ==> PageFits(encode, chain, PageStart(from, j))
  }

  /** The two limits do not fit: a valid block above the message limit, encoded in no fewer bytes than the
      rule counts, is never received on its own, so the search for the fork point takes it for missing. */
  lemma ValidBlockNotCarried(e: Env, encode: seq<Block> -> Bytes, decode: Bytes -> Option<seq<Block>>,
                             chain: seq<Block>, h: nat, l: Ledger, before: seq<Block>)
    requires forall page :: decode(encode(page)) == Some(page)
    requires h < |chain| && Extends(e, chain[h], l, before)
    requires MESSAGE_LIMIT < BlockSize(e, chain[h]) <= |encode([chain[h]])|
    ensures MESSAGE_LIMIT < BlockSize(e, chain[h]) <= BLOCK_SIZE_LIMIT
    ensures BestAnswer(encode, decode, chain, h, h) == Lost
  {
    ServeIsRun(chain, h, h);
    assert chain[h..h + 1] == [chain[h]];
    BestAnswerIs(encode, decode, chain, h, h);
  }
}
