/** src/peer_udp.py: datagram headers, splitting a payload into chunks, and the two collectors that
    put the chunks together again. */
module Chunks {
  import opened Params
  import opened Prelude

  type Byte = x: int | 0 <= x < 256

  type Bytes = seq<Byte>

  // ------------------------------------------------------------------------------------ the header

  const HDR_SIZE: int := 9

  /** The fields of one datagram, as _unpack returns them. */
  datatype Datagram = Datagram(msgType: int, msgId: int, chunkIdx: int, chunkTotal: int, payload: Bytes)

  /** 256 to the n. */
  function Range(n: nat): (r: int)
    ensures r > 0
  {
    if n == 0 then 1 else 256 * Range(n - 1)
  }

  /** The n low bytes of x, most significant first. */
  function BigEndian(n: nat, x: int): (r: Bytes)
    ensures |r| == n
  {
    if n == 0 then [] else BigEndian(n - 1, x / 256) + [x % 256]
  }

  function Unsigned(s: Bytes): int {
    if s == [] then 0 else 256 * Unsigned(s[..|s| - 1]) + s[|s| - 1]
  }

  lemma {:induction false} UnsignedOfBigEndian(n: nat, x: int)
    requires 0 <= x < Range(n)
    ensures Unsigned(BigEndian(n, x)) == x
  {
    if n > 0 {
      UnsignedOfBigEndian(n - 1, x / 256);
      assert BigEndian(n, x)[..n - 1] == BigEndian(n - 1, x / 256);
    }
  }

  lemma {:induction false} BigEndianOfUnsigned(s: Bytes)
    ensures 0 <= Unsigned(s) < Range(|s|)
    ensures BigEndian(|s|, Unsigned(s)) == s
  {
    if s != [] {
      var front := s[..|s| - 1];
      BigEndianOfUnsigned(front);
      assert Unsigned(s) / 256 == Unsigned(front);
    }
  }

  /** The values struct.pack("!BIHh") takes; anything else makes it raise. */
  predicate Packable(d: Datagram) {
    && 0 <= d.msgType < 0x100
    && 0 <= d.msgId < 0x1_0000_0000
    && 0 <= d.chunkIdx < 0x1_0000
    && -0x8000 <= d.chunkTotal < 0x8000
  }

  /** _pack: one unsigned byte, four unsigned, two unsigned, two signed, then the payload. None: it raised. */
  function Pack(d: Datagram): Option<Bytes> {
    if Packable(d) then
      Some(BigEndian(1, d.msgType) + BigEndian(4, d.msgId) + BigEndian(2, d.chunkIdx)
           + BigEndian(2, if d.chunkTotal < 0 then d.chunkTotal + 0x1_0000 else d.chunkTotal) + d.payload)
    else None
  }

  /** _unpack: None for a datagram shorter than the header. */
  function Unpack(data: Bytes): Option<Datagram> {
    if |data| < HDR_SIZE then None
    else
      var total := Unsigned(data[7..9]);
      Some(Datagram(Unsigned(data[0..1]), Unsigned(data[1..5]), Unsigned(data[5..7]),
                    if total < 0x8000 then total else total - 0x1_0000, data[9..]))
  }

  lemma RangeValues()
    ensures Range(1) == 0x100 && Range(2) == 0x1_0000 && Range(4) == 0x1_0000_0000
  {
    assert Range(3) == 256 * Range(2) && Range(2) == 256 * Range(1);
  }

  lemma UnpackOfPack(d: Datagram)
    requires Packable(d)
    ensures Unpack(Pack(d).value) == Some(d)
  {
    RangeValues();
    var total := if d.chunkTotal < 0 then d.chunkTotal + 0x1_0000 else d.chunkTotal;
    var a, b, c, t := BigEndian(1, d.msgType), BigEndian(4, d.msgId), BigEndian(2, d.chunkIdx), BigEndian(2, total);
    var data := Pack(d).value;
    assert data == a + b + c + t + d.payload;
    assert data[0..1] == a && data[1..5] == b && data[5..7] == c && data[7..9] == t && data[9..] == d.payload;
    UnsignedOfBigEndian(1, d.msgType);
    UnsignedOfBigEndian(4, d.msgId);
    UnsignedOfBigEndian(2, d.chunkIdx);
    UnsignedOfBigEndian(2, total);
  }

  lemma PackOfUnpack(data: Bytes)
    requires |data| >= HDR_SIZE
    ensures Pack(Unpack(data).value) == Some(data)
  {
    RangeValues();
    BigEndianOfUnsigned(data[0..1]);
    BigEndianOfUnsigned(data[1..5]);
    BigEndianOfUnsigned(data[5..7]);
    BigEndianOfUnsigned(data[7..9]);
    assert data == data[0..1] + data[1..5] + data[5..7] + data[7..9] + data[9..];
  }

  /** The layout on the wire: type, message id, chunk number and count, most significant byte first. */
  lemma HeaderLayout(d: Datagram)
    requires Packable(d)
    ensures
      var b := Pack(d).value;
      && |b| == 9 + |d.payload| && b[9..] == d.payload && b[0] == d.msgType
      && d.msgId == 0x100_0000 * (b[1] as int) + 0x1_0000 * (b[2] as int) + 0x100 * (b[3] as int) + b[4]
      && d.chunkIdx == 0x100 * (b[5] as int) + b[6]
      && d.chunkTotal == 0x100 * (b[7] as int) + b[8] - if b[7] >= 0x80 then 0x1_0000 else 0
  {
    UnpackOfPack(d);
    var b := Pack(d).value;
    UnsignedOne(b[0..1]);
    UnsignedTwo(b[1..3]);
    UnsignedFour(b[1..5]);
    UnsignedTwo(b[5..7]);
    UnsignedTwo(b[7..9]);
    hide Unsigned, Pack;
  }

  lemma {:induction false} UnsignedOne(s: Bytes)
    requires |s| == 1
    ensures Unsigned(s) == s[0]
  {
    assert s[..0] == [] && Unsigned([]) == 0;
  }

  lemma {:induction false} UnsignedTwo(s: Bytes)
    requires |s| == 2
    ensures Unsigned(s) == 0x100 * (s[0] as int) + s[1]
  {
    UnsignedOne(s[..1]);
  }

  lemma {:induction false} UnsignedFour(s: Bytes)
    requires |s| == 4
    ensures Unsigned(s) == 0x100_0000 * (s[0] as int) + 0x1_0000 * (s[1] as int) + 0x100 * (s[2] as int) + s[3]
  {
    UnsignedTwo(s[..3][..2]);
    assert Unsigned(s) == 256 * Unsigned(s[..3]) + s[3] && Unsigned(s[..3]) == 256 * Unsigned(s[..3][..2]) + s[..3][2];
  }

  /** Packing and unpacking undo each other, and fail exactly outside the field ranges and below the
      header size. */
  lemma HeaderRoundTrip(d: Datagram, data: Bytes)
    ensures Pack(d) == Some(data) <==> Unpack(data) == Some(d) && Packable(d)
    ensures Unpack(data).Some? <==> |data| >= HDR_SIZE
    ensures Unpack(data).Some? ==> Packable(Unpack(data).value)
  {
    if Packable(d) {
      UnpackOfPack(d);
    }
    if |data| >= HDR_SIZE {
      PackOfUnpack(data);
    }
  }

  // ------------------------------------------------------------------------------------- splitting

  /** The chunks of a payload; an empty payload is one empty chunk. */
  function ChunksOf(payload: Bytes): (r: seq<Bytes>)
    ensures r != []
    decreases |payload|
  {
    if |payload| <= MAX_CHUNK_SIZE then [payload]
    else [payload[..MAX_CHUNK_SIZE]] + ChunksOf(payload[MAX_CHUNK_SIZE..])
  }

  /** b"".join */
  function Join(parts: seq<Bytes>): Bytes {
    if parts == [] then [] else parts[0] + Join(parts[1..])
  }

  /** _split */
  method Split(payload: Bytes) returns (chunks: seq<Bytes>)
    ensures chunks == ChunksOf(payload)
  {
    chunks := [];
    var i := 0;
    var stop := if |payload| > 1 then |payload| else 1;
    while i < stop
      invariant 0 <= i && (i < stop ==> i <= |payload|)
      invariant chunks + (if i < stop then ChunksOf(payload[i..]) else []) == ChunksOf(payload)
    {
      var end := if i + MAX_CHUNK_SIZE < |payload| then i + MAX_CHUNK_SIZE else |payload|;
      ghost var rest := payload[i..];
      if i + MAX_CHUNK_SIZE < stop {
        assert rest[..MAX_CHUNK_SIZE] == payload[i..end] && rest[MAX_CHUNK_SIZE..] == payload[end..];
        assert ChunksOf(rest) == [payload[i..end]] + ChunksOf(payload[end..]);
      } else {
        assert rest == payload[i..end] && ChunksOf(rest) == [rest];
      }
      chunks := chunks + [payload[i..end]];
      i := i + MAX_CHUNK_SIZE;
    }
  }

  /** Splitting loses nothing, no chunk is too large, only the last may be short, and there are as few
      chunks as that allows. */
  lemma {:induction false} SplitMeaning(payload: Bytes)
    ensures Join(ChunksOf(payload)) == payload
    ensures forall i :: 0 <= i < |ChunksOf(payload)| ==> |ChunksOf(payload)[i]| <= MAX_CHUNK_SIZE
    ensures forall i :: 0 <= i < |ChunksOf(payload)| - 1 ==> |ChunksOf(payload)[i]| == MAX_CHUNK_SIZE
    ensures |payload| <= |ChunksOf(payload)| * MAX_CHUNK_SIZE
    ensures (|ChunksOf(payload)| - 1) * MAX_CHUNK_SIZE < |payload| || |ChunksOf(payload)| == 1
    decreases |payload|
  {
    if |payload| > MAX_CHUNK_SIZE {
      var rest := payload[MAX_CHUNK_SIZE..];
      SplitMeaning(rest);
      assert ChunksOf(payload)[1..] == ChunksOf(rest);
    } else {
      assert ChunksOf(payload)[1..] == [];
    }
  }

  // ------------------------------------------------------------------------------- the reassembler

  type Key = (string, int)

  /** One message being put together: the total the first chunk claimed, when that chunk came, the parts. */
  datatype Record = Record(total: int, ts: real, parts: map<int, Bytes>)

  /** What feed does: nothing yet, the whole payload, or a KeyError. */
  datatype Outcome = Waiting | Whole(payload: Bytes) | Raised

  /** The parts 0 to n - 1 in order. */
  function JoinParts(parts: map<int, Bytes>, n: int): (r: Bytes)
    requires forall i :: 0 <= i < n ==> i in parts
  {
    if n <= 0 then [] else JoinParts(parts, n - 1) + parts[n - 1]
  }

  /** Every index below n is there. */
  predicate HasAll(parts: map<int, Bytes>, n: int) {
    forall i :: 0 <= i < n ==> i in parts
  }

  function Assembled(parts: map<int, Bytes>, total: int): Outcome {
    if |parts| != total then Waiting
    else if HasAll(parts, total) then Whole(JoinParts(parts, total))
    else Raised
  }

  /** The record a chunk lands in. */
  function Filed(pending: map<Key, Record>, key: Key, d: Datagram, now: real): Record {
    var rec := if key in pending then pending[key] else Record(d.chunkTotal, now, map[]);
    rec.(parts := rec.parts[d.chunkIdx := d.payload])
  }

  /** feed takes part in reassembly only for these totals. */
  predicate Collects(total: int) {
    1 < total <= MAX_CHUNK_TOTAL
  }

  function FedOutcome(pending: map<Key, Record>, key: Key, d: Datagram, now: real): Outcome {
    if d.chunkTotal == 1 then Whole(d.payload)
    else if !Collects(d.chunkTotal) then Waiting
    else
      var rec := Filed(pending, key, d, now);
      Assembled(rec.parts, rec.total)
  }

  function FedPending(pending: map<Key, Record>, key: Key, d: Datagram, now: real): map<Key, Record> {
    if !Collects(d.chunkTotal) then pending
    else if FedOutcome(pending, key, d, now).Whole? then pending - {key}
    else pending[key := Filed(pending, key, d, now)]
  }

  function HeldIndices(pending: map<Key, Record>, key: Key): set<int> {
    if key in pending then pending[key].parts.Keys else {}
  }

  /** The indices below n. */
  function Indices(n: nat): (r: set<int>)
    ensures |r| == n
    ensures forall i :: i in r <==> 0 <= i < n
  {
    if n == 0 then {} else Indices(n - 1) + {n - 1}
  }

  /** What is acknowledged after a chunk: everything once the message is complete, else what is held. */
  function AckOf(pending: map<Key, Record>, key: Key, total: nat, outcome: Outcome): set<int> {
    if outcome.Whole? then Indices(total) else HeldIndices(pending, key)
  }

  /** Exactly the records from the cutoff on are left, as they were. */
  ghost predicate Swept(before: map<Key, Record>, after: map<Key, Record>, cutoff: real) {
    && (forall k :: k in after <==> k in before && before[k].ts >= cutoff)
    && forall k :: k in after ==> after[k] == before[k]
  }

  /** b"".join(rec[i] for i in range(total)); None: the KeyError of a missing index. */
  method JoinAll(parts: map<int, Bytes>, total: int) returns (full: Option<Bytes>)
    ensures full == if HasAll(parts, total) then Some(JoinParts(parts, total)) else None
  {
    var joined: Bytes, i := [], 0;
    while i < total
      invariant 0 <= i && (i <= total || i == 0)
      invariant HasAll(parts, i) && joined == JoinParts(parts, i)
    {
      if i !in parts {
        return None;
      }
      joined := joined + parts[i];
      i := i + 1;
    }
    full := Some(joined);
  }

  class Reassembler {
    var pending: map<Key, Record>

    constructor ()
      ensures pending == map[]
    {
      pending := map[];
    }

    /** feed */
    method Feed(addr: string, d: Datagram, now: real) returns (r: Outcome)
      modifies this
      ensures r == FedOutcome(old(pending), (addr, d.msgId), d, now)
      ensures pending == FedPending(old(pending), (addr, d.msgId), d, now)
    {
      if d.chunkTotal == 1 {
        return Whole(d.payload);
      }
      if d.chunkTotal <= 0 || d.chunkTotal > MAX_CHUNK_TOTAL {
        return Waiting;
      }
      var key := (addr, d.msgId);
      if key !in pending {
        pending := pending[key := Record(d.chunkTotal, now, map[])];
      }
      var rec := pending[key];
      rec := rec.(parts := rec.parts[d.chunkIdx := d.payload]);
      pending := pending[key := rec];
      r := Waiting;
      if |rec.parts| == rec.total {
        var full := JoinAll(rec.parts, rec.total);
        if full.None? {
          return Raised;
        }
        pending := pending - {key};
        r := Whole(full.value);
      }
    }

    /** evict_stale: the keys of the records that are too old by their first chunk, however recent the last
        one is; then each of them goes. */
    method EvictStale(maxAge: real, now: real)
      modifies this
      ensures Swept(old(pending), pending, now - maxAge)
    {
      var cutoff := now - maxAge;
      var stale := set k | k in pending && pending[k].ts < cutoff;
      ghost var before := pending;
      while stale != {}
        invariant forall k :: k in stale ==> k in before && before[k].ts < cutoff
        invariant forall k :: k in pending <==> k in before && (before[k].ts >= cutoff || k in stale)
        invariant forall k :: k in pending ==> pending[k] == before[k]
        decreases |stale|
      {
        var k: Key :| k in stale;
        pending := pending - {k};
        stale := stale - {k};
      }
    }

    /** held_chunks: the indices to acknowledge; none once the message is complete. */
    method HeldChunks(addr: string, msgId: int) returns (held: set<int>)
      ensures held == HeldIndices(pending, (addr, msgId))
    {
      held := {};
      if (addr, msgId) in pending {
        held := pending[(addr, msgId)].parts.Keys;
      }
    }

    /** The reassembly part of _handle_datagram: feed the chunk, and acknowledge it if it is one of several;
        a KeyError leaves before the acknowledgement. */
    method HandleChunk(addr: string, d: Datagram, now: real) returns (r: Outcome, ack: Option<set<int>>)
      modifies this
      ensures r == FedOutcome(old(pending), (addr, d.msgId), d, now)
      ensures pending == FedPending(old(pending), (addr, d.msgId), d, now)
      ensures ack
           == if d.chunkTotal > 1 && !r.Raised? then Some(AckOf(pending, (addr, d.msgId), d.chunkTotal, r)) else None
    {
      r := Feed(addr, d, now);
      ack := None;
      if d.chunkTotal > 1 && !r.Raised? {
        var held := Indices(d.chunkTotal);
        if !r.Whole? {
          held := HeldChunks(addr, d.msgId);
        }
        ack := Some(held);
      }
    }
  }

  // --------------------------------------------------------------------------------- reassembly runs

  /** The i-th datagram of a payload. */
  function ChunkDatagram(msgType: int, msgId: int, payload: Bytes, i: int): Datagram
    requires 0 <= i < |ChunksOf(payload)|
  {
    Datagram(msgType, msgId, i, |ChunksOf(payload)|, ChunksOf(payload)[i])
  }

  /** The parts of the payload with these indices. */
  function PartsAt(payload: Bytes, held: set<int>): map<int, Bytes>
    requires forall i :: i in held ==> 0 <= i < |ChunksOf(payload)|
  {
    map i | i in held :: ChunksOf(payload)[i]
  }

  /** A set of indices below n has n members exactly when it holds them all. */
  lemma {:induction false} FullSet(held: set<int>, n: nat)
    requires held <= Indices(n)
    ensures |held| <= n
    ensures |held| == n <==> held == Indices(n)
  {
    var missing := Indices(n) - held;
    assert Indices(n) == held + missing;
    assert |missing| == n - |held|;
  }

  lemma {:induction false} JoinPartsIsPrefix(payload: Bytes, n: nat)
    requires n <= |ChunksOf(payload)|
    ensures
      var parts := PartsAt(payload, Indices(|ChunksOf(payload)|));
      HasAll(parts, n) && JoinParts(parts, n) == Join(ChunksOf(payload)[..n])
  {
    var cs := ChunksOf(payload);
    if n == 0 {
      assert cs[..0] == [];
    } else {
      JoinPartsIsPrefix(payload, n - 1);
      JoinSnoc(cs[..n - 1], cs[n - 1]);
      assert cs[..n] == cs[..n - 1] + [cs[n - 1]];
    }
  }

  lemma {:induction false} JoinSnoc(parts: seq<Bytes>, last: Bytes)
    ensures Join(parts + [last]) == Join(parts) + last
  {
    if parts == [] {
      assert parts + [last] == [last] && [last][1..] == [];
    } else {
      assert (parts + [last])[1..] == parts[1..] + [last];
      JoinSnoc(parts[1..], last);
    }
  }

  /** A part of the chunks is assembled exactly when it is all of them, and then to the payload. */
  lemma {:induction false} AssembledHonest(payload: Bytes, held: set<int>)
    requires held <= Indices(|ChunksOf(payload)|)
    ensures Assembled(PartsAt(payload, held), |ChunksOf(payload)|)
         == if held == Indices(|ChunksOf(payload)|) then Whole(payload) else Waiting
  {
    var n := |ChunksOf(payload)|;
    var parts := PartsAt(payload, held);
    FullSet(held, n);
    assert parts.Keys == held && |parts| == |parts.Keys|;
    if held == Indices(n) {
      JoinPartsIsPrefix(payload, n);
      assert ChunksOf(payload)[..n] == ChunksOf(payload);
      SplitMeaning(payload);
    }
  }

  /** What the reassembler holds for one message: the chunks of these indices, or no record. */
  ghost predicate Holds(pending: map<Key, Record>, key: Key, payload: Bytes, held: set<int>)
    requires forall i :: i in held ==> 0 <= i < |ChunksOf(payload)|
  {
    if held == {} then key !in pending
    else key in pending && pending[key].total == |ChunksOf(payload)| && pending[key].parts == PartsAt(payload, held)
  }

  lemma {:induction false} PartsAtAdd(payload: Bytes, held: set<int>, i: int)
    requires 0 <= i < |ChunksOf(payload)|
    requires forall k :: k in held ==> 0 <= k < |ChunksOf(payload)|
    ensures PartsAt(payload, held)[i := ChunksOf(payload)[i]] == PartsAt(payload, held + {i})
    ensures PartsAt(payload, {}) == map[]
  {
    hide ChunksOf;
  }

  /** The record after one more chunk. */
  lemma {:induction false} FiledHonest(pending: map<Key, Record>, key: Key, msgType: int, payload: Bytes,
                                       held: set<int>, i: int, now: real)
    requires 0 <= i < |ChunksOf(payload)|
    requires held <= Indices(|ChunksOf(payload)|) && Holds(pending, key, payload, held)
    ensures
      var rec := Filed(pending, key, ChunkDatagram(msgType, key.1, payload, i), now);
      rec.total == |ChunksOf(payload)| && rec.parts == PartsAt(payload, held + {i})
  {
    PartsAtAdd(payload, held, i);
    hide PartsAt, ChunksOf, Indices;
    assert held == {} ==> held + {i} == {i} + {};
  }

  /** A record keeps the time and the count of its first chunk, however many follow. */
  lemma RecordAge(pending: map<Key, Record>, key: Key, d: Datagram, now: real)
    requires key in FedPending(pending, key, d, now) && Collects(d.chunkTotal)
    ensures
      var rec := FedPending(pending, key, d, now)[key];
      if key in pending then rec.ts == pending[key].ts && rec.total == pending[key].total
      else rec.ts == now && rec.total == d.chunkTotal
  {
  }

  /** Eviction drops a message whose first chunk is too old, with all it has, and leaves every other. */
  lemma {:induction false} SweptHolds(before: map<Key, Record>, after: map<Key, Record>, cutoff: real, key: Key,
                                      payload: Bytes, held: set<int>)
    requires forall i :: i in held ==> 0 <= i < |ChunksOf(payload)|
    requires Swept(before, after, cutoff) && Holds(before, key, payload, held)
    ensures Holds(after, key, payload, if held != {} && before[key].ts < cutoff then {} else held)
  {
  }

  /** One chunk: it adds its index, and the last missing one delivers the payload and drops the record. */
  lemma {:induction false} FeedOne(pending: map<Key, Record>, key: Key, msgType: int, payload: Bytes, held: set<int>,
                                   i: int, now: real)
    requires 0 <= i < |ChunksOf(payload)| && Collects(|ChunksOf(payload)|)
    requires held < Indices(|ChunksOf(payload)|) && Holds(pending, key, payload, held)
    ensures
      var n, d := |ChunksOf(payload)|, ChunkDatagram(msgType, key.1, payload, i);
      var after := FedPending(pending, key, d, now);
      if held + {i} == Indices(n) then
        FedOutcome(pending, key, d, now) == Whole(payload) && Holds(after, key, payload, {})
      else FedOutcome(pending, key, d, now) == Waiting && Holds(after, key, payload, held + {i})
  {
    FiledHonest(pending, key, msgType, payload, held, i, now);
    AssembledHonest(payload, held + {i});
    FedSplit(pending, key, ChunkDatagram(msgType, key.1, payload, i), now);
    hide Assembled, PartsAt, Filed, ChunksOf, Indices, FedOutcome, FedPending;
    assert i in held + {i};
  }

  /** feed past its early returns. */
  lemma FedSplit(pending: map<Key, Record>, key: Key, d: Datagram, now: real)
    requires Collects(d.chunkTotal)
    ensures
      var rec := Filed(pending, key, d, now);
      && FedOutcome(pending, key, d, now) == Assembled(rec.parts, rec.total)
      && FedPending(pending, key, d, now)
           == (if Assembled(rec.parts, rec.total).Whole? then pending - {key} else pending[key := rec])
  {
  }

  /** A datagram reaching the reassembler. */
  datatype Arrival = Arrival(addr: string, data: Bytes, at: real)

  function Received(pending: map<Key, Record>, a: Arrival): map<Key, Record> {
    match Unpack(a.data)
    case None => pending
    case Some(d) => FedPending(pending, (a.addr, d.msgId), d, a.at)
  }

  function ReceivedOutcome(pending: map<Key, Record>, a: Arrival): Outcome {
    match Unpack(a.data)
    case None => Waiting
    case Some(d) => FedOutcome(pending, (a.addr, d.msgId), d, a.at)
  }

  /** The records after a whole run of arrivals, starting from none. */
  function RunReceived(arrivals: seq<Arrival>): map<Key, Record> {
    if arrivals == [] then map[] else Received(RunReceived(arrivals[..|arrivals| - 1]), arrivals[|arrivals| - 1])
  }

  /** a is a datagram of the message key. */
  predicate BelongsTo(a: Arrival, key: Key) {
    var d := Unpack(a.data);
    d.Some? && a.addr == key.0 && d.value.msgId == key.1
  }

  /** Chunk i of the payload as it is on the wire. */
  predicate IsChunk(a: Arrival, msgType: int, msgId: int, payload: Bytes, i: int) {
    0 <= i < |ChunksOf(payload)| && Some(a.data) == Pack(ChunkDatagram(msgType, msgId, payload, i))
  }

  /** All that comes under this key are chunks of the payload; what else comes is anything. */
  ghost predicate HonestSender(arrivals: seq<Arrival>, key: Key, msgType: int, payload: Bytes) {
    forall k :: 0 <= k < |arrivals| && BelongsTo(arrivals[k], key) ==>
      exists i :: IsChunk(arrivals[k], msgType, key.1, payload, i)
  }

  function IndexOf(a: Arrival): int {
    match Unpack(a.data)
    case None => 0
    case Some(d) => d.chunkIdx
  }

  /** The indices that came since the payload was last complete. */
  function Collected(arrivals: seq<Arrival>, key: Key, n: nat): set<int> {
    if arrivals == [] then {}
    else
      var k := |arrivals| - 1;
      var before := Collected(arrivals[..k], key, n);
      if !BelongsTo(arrivals[k], key) then before
      else
        var now := before + {IndexOf(arrivals[k])};
        if now == Indices(n) then {} else now
  }

  lemma ChunkFacts(a: Arrival, msgType: int, msgId: int, payload: Bytes, i: int)
    requires IsChunk(a, msgType, msgId, payload, i)
    ensures Unpack(a.data) == Some(ChunkDatagram(msgType, msgId, payload, i))
    ensures IndexOf(a) == i
  {
    HeaderRoundTrip(ChunkDatagram(msgType, msgId, payload, i), a.data);
  }

  /** Datagrams of other messages do not touch the record. */
  lemma {:induction false} OthersLeave(pending: map<Key, Record>, a: Arrival, key: Key, payload: Bytes, held: set<int>)
    requires !BelongsTo(a, key)
    requires forall i :: i in held ==> 0 <= i < |ChunksOf(payload)|
    requires Holds(pending, key, payload, held)
    ensures Holds(Received(pending, a), key, payload, held)
  {
  }

  /** What the reassembler holds of a message after any run of arrivals: every order, any number of
      copies, mixed with any other traffic. */
  lemma {:induction false} RunHolds(arrivals: seq<Arrival>, key: Key, msgType: int, payload: Bytes)
    requires Collects(|ChunksOf(payload)|) && HonestSender(arrivals, key, msgType, payload)
    ensures Collected(arrivals, key, |ChunksOf(payload)|) < Indices(|ChunksOf(payload)|)
    ensures Holds(RunReceived(arrivals), key, payload, Collected(arrivals, key, |ChunksOf(payload)|))
  {
    var n := |ChunksOf(payload)|;
    if arrivals == [] {
      assert 0 in Indices(n);
    } else {
      var k := |arrivals| - 1;
      var before := arrivals[..k];
      assert forall j :: 0 <= j < k ==> before[j] == arrivals[j];
      RunHolds(before, key, msgType, payload);
      var held := Collected(before, key, n);
      if BelongsTo(arrivals[k], key) {
        var i :| IsChunk(arrivals[k], msgType, key.1, payload, i);
        ChunkFacts(arrivals[k], msgType, key.1, payload, i);
        FeedOne(RunReceived(before), key, msgType, payload, held, i, arrivals[k].at);
        assert 0 in Indices(n);
        assert held + {i} <= Indices(n);
      } else {
        OthersLeave(RunReceived(before), arrivals[k], key, payload, held);
      }
    }
  }

  /** The last arrival of a run delivers exactly the payload when its index is the only one missing, and
      nothing before. */
  lemma {:induction false} DeliversWhenComplete(arrivals: seq<Arrival>, last: Arrival, key: Key, msgType: int,
                                                payload: Bytes)
    requires Collects(|ChunksOf(payload)|) && HonestSender(arrivals + [last], key, msgType, payload)
    requires BelongsTo(last, key)
    ensures ReceivedOutcome(RunReceived(arrivals), last)
         == (if Collected(arrivals, key, |ChunksOf(payload)|) + {IndexOf(last)} == Indices(|ChunksOf(payload)|)
             then Whole(payload) else Waiting)
    ensures Collected(arrivals, key, |ChunksOf(payload)|) < Indices(|ChunksOf(payload)|)
    ensures IndexOf(last) in Indices(|ChunksOf(payload)|)
  {
    var run := arrivals + [last];
    assert run[|arrivals|] == last;
    assert forall k :: 0 <= k < |arrivals| ==> run[k] == arrivals[k];
    RunHolds(arrivals, key, msgType, payload);
    var i :| IsChunk(last, msgType, key.1, payload, i);
    ChunkFacts(last, msgType, key.1, payload, i);
    FeedOne(RunReceived(arrivals), key, msgType, payload, Collected(arrivals, key, |ChunksOf(payload)|), i, last.at);
  }

  /** The indices that came at all. */
  function Seen(arrivals: seq<Arrival>, key: Key): set<int> {
    if arrivals == [] then {}
    else
      var k := |arrivals| - 1;
      Seen(arrivals[..k], key) + if BelongsTo(arrivals[k], key) then {IndexOf(arrivals[k])} else {}
  }

  lemma {:induction false} CollectedIsSeen(arrivals: seq<Arrival>, key: Key, n: nat)
    requires !(Indices(n) <= Seen(arrivals, key))
    ensures Collected(arrivals, key, n) == Seen(arrivals, key)
  {
    if arrivals != [] {
      CollectedIsSeen(arrivals[..|arrivals| - 1], key, n);
    }
  }

  /** Nothing comes out until the last missing index arrives, and then exactly the payload. */
  lemma {:induction false} FirstDelivery(arrivals: seq<Arrival>, last: Arrival, key: Key, msgType: int, payload: Bytes)
    requires Collects(|ChunksOf(payload)|) && HonestSender(arrivals + [last], key, msgType, payload)
    requires BelongsTo(last, key) && !(Indices(|ChunksOf(payload)|) <= Seen(arrivals, key))
    ensures ReceivedOutcome(RunReceived(arrivals), last)
         == (if Indices(|ChunksOf(payload)|) <= Seen(arrivals + [last], key) then Whole(payload) else Waiting)
  {
    var n := |ChunksOf(payload)|;
    DeliversWhenComplete(arrivals, last, key, msgType, payload);
    CollectedIsSeen(arrivals, key, n);
    var run := arrivals + [last];
    assert run[..|arrivals|] == arrivals;
    assert Seen(run, key) == Seen(arrivals, key) + {IndexOf(last)} <= Indices(n);
  }

  /** A payload of one chunk is delivered at once and leaves no record. */
  lemma SingleChunkPasses(pending: map<Key, Record>, a: Arrival, msgType: int, msgId: int, payload: Bytes)
    requires |payload| <= MAX_CHUNK_SIZE && IsChunk(a, msgType, msgId, payload, 0)
    ensures ReceivedOutcome(pending, a) == Whole(payload) && Received(pending, a) == pending
  {
    ChunkFacts(a, msgType, msgId, payload, 0);
  }

  /** A payload gets through, in chunks sent in order say, exactly when it is no larger than
      MAX_CHUNK_TOTAL full chunks; of a larger one the receiver keeps nothing. */
  lemma {:induction false} SizeLimit(payload: Bytes)
    ensures |ChunksOf(payload)| <= MAX_CHUNK_TOTAL <==> |payload| <= MESSAGE_LIMIT
    ensures |payload| > MESSAGE_LIMIT ==>
      forall pending: map<Key, Record>, key: Key, d: Datagram, now: real :: d.chunkTotal == |ChunksOf(payload)| ==>
        FedOutcome(pending, key, d, now) == Waiting && FedPending(pending, key, d, now) == pending
  {
    SplitMeaning(payload);
  }

  /** The sender's header has room for a chunk count, else _pack raises, exactly up to 32767 full chunks. */
  lemma {:induction false} HeaderLimit(msgType: int, msgId: int, payload: Bytes, i: nat)
    requires 0 <= msgType < 0x100 && 0 <= msgId < 0x1_0000_0000 && i < |ChunksOf(payload)|
    ensures Pack(ChunkDatagram(msgType, msgId, payload, i)).Some? <==> |payload| <= 0x7FFF * MAX_CHUNK_SIZE
  {
    SplitMeaning(payload);
  }

  // ------------------------------------------------------------------------------ the sync collector

  /** The fields of a _PendingSync. */
  datatype Collector<T> = Collector(chunks: map<int, Bytes>, total: Option<int>, event: bool, result: Option<T>)

  function FiledChunks<T>(c: Collector<T>, d: Datagram): map<int, Bytes> {
    if 0 < d.chunkTotal <= MAX_CHUNK_TOTAL then c.chunks[d.chunkIdx := d.payload] else c.chunks
  }

  function SyncOutcome<T>(c: Collector<T>, d: Datagram): Outcome {
    if 0 < d.chunkTotal <= MAX_CHUNK_TOTAL then Assembled(FiledChunks(c, d), d.chunkTotal) else Waiting
  }

  /** What one chunk does; decode is the unknown decoder (None: it raised). */
  function SyncFed<T>(c: Collector<T>, d: Datagram, decode: Bytes -> Option<T>): Collector<T> {
    var outcome := SyncOutcome(c, d);
    Collector(FiledChunks(c, d), if 0 < d.chunkTotal <= MAX_CHUNK_TOTAL then Some(d.chunkTotal) else c.total,
              c.event || outcome.Whole?, if outcome.Whole? then decode(outcome.payload) else c.result)
  }

  class PendingSync<T> {
    const decode: Bytes -> Option<T>
    var chunks: map<int, Bytes>
    var total: Option<int>
    var event: bool
    var result: Option<T>

    function Fields(): Collector<T>
      reads this
    {
      Collector(chunks, total, event, result)
    }

    constructor (decode: Bytes -> Option<T>)
      ensures this.decode == decode && Fields() == Collector(map[], None, false, None)
    {
      this.decode := decode;
      chunks, total, event, result := map[], None, false, None;
    }

    /** feed; raised is the KeyError of joining with an index missing. */
    method Feed(d: Datagram) returns (raised: bool)
      modifies this
      ensures Fields() == SyncFed(old(Fields()), d, decode)
      ensures raised == SyncOutcome(old(Fields()), d).Raised?
    {
      raised := false;
      if d.chunkTotal <= 0 || d.chunkTotal > MAX_CHUNK_TOTAL {
        return;
      }
      total := Some(d.chunkTotal);
      chunks := chunks[d.chunkIdx := d.payload];
      if |chunks| == d.chunkTotal {
        var full := JoinAll(chunks, d.chunkTotal);
        if full.None? {
          return true;
        }
        result := decode(full.value);
        event := true;
      }
    }

    /** The MT_SYNC part of _handle_datagram, while the request is pending. */
    method HandleChunk(d: Datagram) returns (raised: bool, ack: Option<set<int>>)
      modifies this
      ensures Fields() == SyncFed(old(Fields()), d, decode)
      ensures raised == SyncOutcome(old(Fields()), d).Raised?
      ensures ack == if d.chunkTotal > 1 && !raised then Some(chunks.Keys) else None
    {
      raised := Feed(d);
      ack := if d.chunkTotal > 1 && !raised then Some(chunks.Keys) else None;
    }
  }

  /** The collector after a run of datagrams. */
  function RunSync<T>(run: seq<Datagram>, decode: Bytes -> Option<T>): Collector<T> {
    if run == [] then Collector(map[], None, false, None)
    else SyncFed(RunSync(run[..|run| - 1], decode), run[|run| - 1], decode)
  }

  function IndicesIn(run: seq<Datagram>): set<int> {
    if run == [] then {} else IndicesIn(run[..|run| - 1]) + {run[|run| - 1].chunkIdx}
  }

  /** The collector has just these chunks of the payload, and is done exactly when that is all of them. */
  ghost predicate SyncHas<T>(c: Collector<T>, payload: Bytes, held: set<int>, decode: Bytes -> Option<T>) {
    var n := |ChunksOf(payload)|;
    && held <= Indices(n)
    && c.chunks == PartsAt(payload, held)
    && c.event == (held == Indices(n))
    && c.result == if c.event then decode(payload) else None
  }

  lemma {:induction false} SyncFeedOne<T>(c: Collector<T>, payload: Bytes, held: set<int>, msgType: int, msgId: int,
                                          i: int, decode: Bytes -> Option<T>)
    requires |ChunksOf(payload)| <= MAX_CHUNK_TOTAL && 0 <= i < |ChunksOf(payload)|
    requires SyncHas(c, payload, held, decode)
    ensures SyncHas(SyncFed(c, ChunkDatagram(msgType, msgId, payload, i), decode), payload, held + {i}, decode)
  {
    var d := ChunkDatagram(msgType, msgId, payload, i);
    assert FiledChunks(c, d) == PartsAt(payload, held + {i});
    AssembledHonest(payload, held + {i});
    if held == Indices(|ChunksOf(payload)|) {
      assert held + {i} == held;
    }
  }

  /** Fed the chunks of one payload in any order, with any copies, the collector signals exactly when
      every index has come, then has the decoded payload, and no later copy changes that. */
  lemma {:induction false} SyncDeliversWhenComplete<T>(run: seq<Datagram>, payload: Bytes, msgType: int, msgId: int,
                                                       decode: Bytes -> Option<T>)
    requires |payload| <= MESSAGE_LIMIT
    requires forall d :: d in run ==>
      0 <= d.chunkIdx < |ChunksOf(payload)| && d == ChunkDatagram(msgType, msgId, payload, d.chunkIdx)
    ensures SyncHas(RunSync(run, decode), payload, IndicesIn(run), decode)
  {
    if run == [] {
      assert 0 in Indices(|ChunksOf(payload)|);
    } else {
      var k := |run| - 1;
      SyncDeliversWhenComplete(run[..k], payload, msgType, msgId, decode);
      SizeLimit(payload);
      assert run[k] in run;
      SyncFeedOne(RunSync(run[..k], decode), payload, IndicesIn(run[..k]), msgType, msgId, run[k].chunkIdx, decode);
    }
  }
}
