/** src/peer_udp.py: the chunked send with acknowledgements and retransmit rounds, as the code that runs
    in one node and as a step system of sender, network and receiver. */
module ChunkProtocol {
  import opened Params
  import opened Chunks

  // ------------------------------------------------------------------------------------ the sender

  /** An entry of _pending_chunked_sends. */
  datatype Tracked = Tracked(chunks: seq<Bytes>, acked: set<int>, msgType: int, event: bool)

  function Acknowledged(t: Tracked, indices: set<int>): Tracked {
    var acked := t.acked + indices;
    t.(acked := acked, event := t.event || Indices(|t.chunks|) <= acked)
  }

  function AcknowledgedAll(t: Tracked, acks: seq<set<int>>): Tracked
    decreases |acks|
  {
    if acks == [] then t else AcknowledgedAll(Acknowledged(t, acks[0]), acks[1..])
  }

  /** The indices below n not acknowledged, in order. */
  function Missing(n: nat, acked: set<int>): (r: seq<int>)
    ensures |r| <= n
  {
    if n == 0 then [] else Missing(n - 1, acked) + if n - 1 in acked then [] else [n - 1]
  }

  lemma {:induction false} MissingMembers(n: nat, acked: set<int>)
    ensures forall i :: i in Missing(n, acked) <==> 0 <= i < n && i !in acked
  {
    if n > 0 {
      MissingMembers(n - 1, acked);
    }
  }

  /** The indices resent, given the acknowledgements that come in during each round's wait. */
  function Resent(t: Tracked, acks: seq<seq<set<int>>>): seq<int>
    decreases |acks|
  {
    if acks == [] then []
    else
      var now := AcknowledgedAll(t, acks[0]);
      if now.event then [] else Missing(|now.chunks|, now.acked) + Resent(now, acks[1..])
  }

  lemma {:induction false} AcknowledgedAllKeeps(t: Tracked, acks: seq<set<int>>)
    ensures AcknowledgedAll(t, acks).chunks == t.chunks && AcknowledgedAll(t, acks).msgType == t.msgType
    ensures t.acked <= AcknowledgedAll(t, acks).acked
    decreases |acks|
  {
    if acks != [] {
      AcknowledgedAllKeeps(Acknowledged(t, acks[0]), acks[1..]);
    }
  }

  lemma {:induction false} ResentNext(t: Tracked, acks: seq<seq<set<int>>>)
    requires acks != []
    ensures
      var now := AcknowledgedAll(t, acks[0]);
      Resent(t, acks) == if now.event then [] else Missing(|now.chunks|, now.acked) + Resent(now, acks[1..])
  {
  }

  lemma {:induction false} NothingLeft(t: Tracked, acks: seq<seq<set<int>>>)
    requires acks == []
    ensures Resent(t, acks) == []
  {
  }

  lemma TimesNext(k: nat, n: nat)
    ensures (k + 1) * n == k * n + n
  {
  }

  /** At most one resend of everything in each round. */
  lemma {:induction false} ResentBound(t: Tracked, acks: seq<seq<set<int>>>)
    ensures |Resent(t, acks)| <= |acks| * |t.chunks|
    decreases |acks|
  {
    if acks != [] {
      var now := AcknowledgedAll(t, acks[0]);
      AcknowledgedAllKeeps(t, acks[0]);
      ResentBound(now, acks[1..]);
      TimesNext(|acks[1..]|, |t.chunks|);
    }
  }

  predicate AreIndices(indices: seq<int>, n: nat) {
    forall i :: i in indices ==> 0 <= i < n
  }

  /** Nothing acknowledged before is resent. */
  lemma {:induction false} ResentIsMissing(t: Tracked, acks: seq<seq<set<int>>>)
    ensures AreIndices(Resent(t, acks), |t.chunks|)
    ensures forall i :: i in Resent(t, acks) ==> i !in t.acked
    decreases |acks|
  {
    if acks != [] {
      var now := AcknowledgedAll(t, acks[0]);
      AcknowledgedAllKeeps(t, acks[0]);
      ResentIsMissing(now, acks[1..]);
      if !now.event {
        MissingMembers(|now.chunks|, now.acked);
        assert Resent(t, acks) == Missing(|now.chunks|, now.acked) + Resent(now, acks[1..]);
      }
    }
  }

  /** How many chunks the first pass sends, from chunk i on: it stops after the first send error. */
  function FirstPass(fails: int -> bool, i: nat, n: nat): (r: nat)
    ensures i <= n ==> r <= n - i
    decreases n - i
  {
    if i >= n then 0 else 1 + if fails(i) then 0 else FirstPass(fails, i + 1, n)
  }

  /** Values the header has room for. */
  /** The first pass stops behind its first failure. */
  lemma {:induction false} FirstPassIs(fails: int -> bool, i: nat, n: nat)
    requires i <= n
    ensures
      var sent := FirstPass(fails, i, n);
      && (forall k :: i <= k < i + sent - 1 ==> !fails(k))
      && (sent < n - i ==> sent > 0 && fails(i + sent - 1))
    decreases n - i
  {
    if i < n && !fails(i) {
      FirstPassIs(fails, i + 1, n);
    }
  }

  lemma {:induction false} AcknowledgedAllIs(t: Tracked, acks: seq<set<int>>)
    ensures
      var now := AcknowledgedAll(t, acks);
      && |now.chunks| == |t.chunks|
      && (forall i :: i in now.acked <==> i in t.acked || exists s :: s in acks && i in s)
      && (now.event ==> t.event || Indices(|t.chunks|) <= now.acked)
    decreases |acks|
  {
    if acks != [] {
      assert acks == [acks[0]] + acks[1..];
      AcknowledgedAllIs(Acknowledged(t, acks[0]), acks[1..]);
    }
  }

  /** A chunk that is never acknowledged is resent once in every round. */
  lemma {:induction false} ResentEachRound(t: Tracked, acks: seq<seq<set<int>>>, i: int)
    requires 0 <= i < |t.chunks| && i !in t.acked && !t.event
    requires forall round, s :: round in acks && s in round ==> i !in s
    ensures Times(Resent(t, acks), i) == |acks|
    decreases |acks|
  {
    if acks != [] {
      var now := AcknowledgedAll(t, acks[0]);
      assert acks[0] in acks && forall r :: r in acks[1..] ==> r in acks;
      AcknowledgedAllIs(t, acks[0]);
      assert i in Indices(|t.chunks|);
      MissingOnce(|now.chunks|, now.acked, i);
      ResentNext(t, acks);
      hide AcknowledgedAll, Missing, Indices, Times, Resent;
      ResentEachRound(now, acks[1..], i);
      TimesConcat(Missing(|now.chunks|, now.acked), Resent(now, acks[1..]), i);
    }
  }

  lemma MissingNext(n: nat, acked: set<int>)
    requires n > 0
    ensures Missing(n, acked) == Missing(n - 1, acked) + if n - 1 in acked then [] else [n - 1]
  {
  }

  /** How often i occurs. */
  function Times(s: seq<int>, i: int): nat {
    multiset(s)[i]
  }

  lemma TimesConcat(a: seq<int>, b: seq<int>, i: int)
    ensures Times(a + b, i) == Times(a, i) + Times(b, i) && Times([], i) == 0
  {
  }

  lemma TimesOne(x: int, i: int)
    ensures Times([x], i) == if x == i then 1 else 0
  {
  }

  lemma {:induction false} MissingNone(acked: set<int>, i: int)
    ensures Times(Missing(0, acked), i) == 0
  {
  }

  lemma MissingStep(n: nat, acked: set<int>, i: int)
    requires n > 0
    ensures Times(Missing(n, acked), i)
         == Times(Missing(n - 1, acked), i) + if i == n - 1 && i !in acked then 1 else 0
  {
    MissingNext(n, acked);
    hide Times, Missing;
    if n - 1 in acked {
      assert Missing(n - 1, acked) + [] == Missing(n - 1, acked);
    } else {
      TimesConcat(Missing(n - 1, acked), [n - 1], i);
      TimesOne(n - 1, i);
    }
  }

  lemma {:induction false} MissingOnce(n: nat, acked: set<int>, i: int)
    ensures Times(Missing(n, acked), i) == if 0 <= i < n && i !in acked then 1 else 0
  {
    hide Times, Missing;
    if n == 0 {
      MissingNone(acked, i);
    } else {
      MissingOnce(n - 1, acked, i);
      MissingStep(n, acked, i);
    }
  }

  predicate Fits(msgType: int, msgId: int, total: int) {
    0 <= msgType < 0x100 && 0 <= msgId < 0x1_0000_0000 && total < 0x8000
  }

  function WireAt(target: string, msgType: int, msgId: int, chunks: seq<Bytes>, i: int): (string, Bytes)
    requires 0 <= i < |chunks| && Fits(msgType, msgId, |chunks|)
  {
    (target, Pack(Datagram(msgType, msgId, i, |chunks|, chunks[i])).value)
  }

  /** The datagrams of these chunks as sent to the target. */
  function Wires(target: string, msgType: int, msgId: int, chunks: seq<Bytes>, indices: seq<int>)
    : (r: seq<(string, Bytes)>)
    requires AreIndices(indices, |chunks|) && Fits(msgType, msgId, |chunks|)
    ensures |r| == |indices|
  {
    seq(|indices|, k requires 0 <= k < |indices| =>
      assert indices[k] in indices;
      WireAt(target, msgType, msgId, chunks, indices[k]))
  }

  /** 0 to k - 1 */
  function UpTo(k: nat): (r: seq<int>)
    ensures |r| == k && forall i :: 0 <= i < k ==> r[i] == i
  {
    seq(k, i => i)
  }

  class Sender {
    var tracked: map<Key, Tracked>
    var wire: seq<(string, Bytes)>

    constructor ()
      ensures tracked == map[] && wire == []
    {
      tracked, wire := map[], [];
    }

    /** _handle_ack */
    method HandleAck(sender: string, msgId: int, indices: set<int>)
      modifies this`tracked
      ensures tracked == if (sender, msgId) in old(tracked)
                         then old(tracked)[(sender, msgId) := Acknowledged(old(tracked)[(sender, msgId)], indices)]
                         else old(tracked)
    {
      var key := (sender, msgId);
      if key in tracked {
        var t := tracked[key];
        var acked := t.acked + indices;
        t := t.(acked := acked);
        if forall i :: 0 <= i < |t.chunks| ==> i in acked {
          t := t.(event := true);
        }
        tracked := tracked[key := t];
      }
    }

    /** _retransmit_until_acked; acks[r] are the acknowledgements handled while round r waits. */
    method RetransmitUntilAcked(target: string, msgId: int, acks: seq<seq<set<int>>>)
      requires |acks| == CHUNK_ACK_MAX_ROUNDS
      requires (target, msgId) in tracked ==>
        Fits(tracked[(target, msgId)].msgType, msgId, |tracked[(target, msgId)].chunks|)
      modifies this
      ensures tracked == old(tracked) - {(target, msgId)}
      ensures
        var key := (target, msgId);
        if key !in old(tracked) then wire == old(wire)
        else
          var t := old(tracked)[key];
          AreIndices(Resent(t, acks), |t.chunks|)
          && wire == old(wire) + Wires(target, t.msgType, msgId, t.chunks, Resent(t, acks))
    {
      hide Wires, AcknowledgedAll, Missing, Resent;
      var key := (target, msgId);
      if key !in tracked {
        return;
      }
      ghost var t := tracked[key];
      ResentIsMissing(t, acks);
      ghost var rest := Resent(t, acks);
      ghost var goal := wire + Wires(target, t.msgType, msgId, t.chunks, rest);
      assert acks[0..] == acks;
      hide AreIndices;
      var round, over := 0, false;
      while round < CHUNK_ACK_MAX_ROUNDS && !over
        invariant 0 <= round <= CHUNK_ACK_MAX_ROUNDS
        invariant key in tracked && tracked == old(tracked)[key := tracked[key]]
        invariant tracked[key].chunks == t.chunks && tracked[key].msgType == t.msgType
        invariant rest == if over then [] else Resent(tracked[key], acks[round..])
        invariant AreIndices(rest, |t.chunks|) && goal == wire + Wires(target, t.msgType, msgId, t.chunks, rest)
      {
        ghost var was, missing := tracked[key], [];
        ghost var sent := wire;
        over, missing := Round(target, msgId, acks[round]);
        assert acks[round..][1..] == acks[round + 1..];
        ResentNext(was, acks[round..]);
        rest := if over then [] else Resent(tracked[key], acks[round + 1..]);
        ResentIsMissing(tracked[key], acks[round + 1..]);
        WiresOn(sent, target, t.msgType, msgId, t.chunks, missing, rest);
        round := round + 1;
      }
      if !over {
        NothingLeft(tracked[key], acks[round..]);
      }
      tracked := tracked - {key};
    }

    /** One round: wait for acknowledgements, leave when all is acknowledged, else resend what is missing. */
    method Round(target: string, msgId: int, acks: seq<set<int>>) returns (over: bool, ghost missing: seq<int>)
      requires (target, msgId) in tracked
      requires Fits(tracked[(target, msgId)].msgType, msgId, |tracked[(target, msgId)].chunks|)
      modifies this
      ensures
        var was := old(tracked)[(target, msgId)];
        var now := AcknowledgedAll(was, acks);
        && tracked == old(tracked)[(target, msgId) := now]
        && now.chunks == was.chunks && now.msgType == was.msgType
        && over == now.event
        && missing == (if over then [] else Missing(|now.chunks|, now.acked))
        && AreIndices(missing, |was.chunks|)
        && wire == old(wire) + Wires(target, was.msgType, msgId, was.chunks, missing)
    {
      AcknowledgedAllKeeps(tracked[(target, msgId)], acks);
      HandleAcks(target, msgId, acks);
      var state := tracked[(target, msgId)];
      over, missing := state.event, [];
      if !over {
        var indices := Missing(|state.chunks|, state.acked);
        MissingMembers(|state.chunks|, state.acked);
        Resend(target, msgId, state, indices);
        missing := indices;
      }
    }

    /** The acknowledgements that come in during one wait. */
    method HandleAcks(sender: string, msgId: int, acks: seq<set<int>>)
      requires (sender, msgId) in tracked
      modifies this`tracked
      ensures tracked == old(tracked)[(sender, msgId) := AcknowledgedAll(old(tracked)[(sender, msgId)], acks)]
    {
      var k := 0;
      while k < |acks|
        invariant 0 <= k <= |acks|
        invariant (sender, msgId) in tracked
        invariant tracked == old(tracked)[(sender, msgId) := tracked[(sender, msgId)]]
        invariant AcknowledgedAll(tracked[(sender, msgId)], acks[k..])
               == AcknowledgedAll(old(tracked)[(sender, msgId)], acks)
      {
        HandleAck(sender, msgId, acks[k]);
        assert acks[k..][1..] == acks[k + 1..];
        k := k + 1;
      }
    }

    /** The resend loop of one round; an error of sendto is only logged. */
    method Resend(target: string, msgId: int, state: Tracked, missing: seq<int>)
      requires AreIndices(missing, |state.chunks|) && Fits(state.msgType, msgId, |state.chunks|)
      modifies this`wire
      ensures wire == old(wire) + Wires(target, state.msgType, msgId, state.chunks, missing)
    {
      var k := 0;
      ghost var all := Wires(target, state.msgType, msgId, state.chunks, missing);
      while k < |missing|
        invariant 0 <= k <= |missing|
        invariant wire == old(wire) + all[..k]
      {
        assert missing[k] in missing;
        wire := wire + [WireAt(target, state.msgType, msgId, state.chunks, missing[k])];
        k := k + 1;
      }
    }

    /** _send_chunked with the retransmit task it submits; fails(i) is whether sendto raises for chunk i of
        the first pass. False: _pack raised. */
    method SendChunked(msgType: int, msgId: int, payload: Bytes, target: string, fails: int -> bool,
                       acks: seq<seq<set<int>>>)
      returns (ok: bool)
      requires 0 <= msgType < 0x100 && 0 <= msgId < 0x1_0000_0000 && |acks| == CHUNK_ACK_MAX_ROUNDS
      modifies this
      ensures ok <==> |ChunksOf(payload)| < 0x8000
      ensures !ok ==> wire == old(wire)
      ensures ok ==> tracked == (if |ChunksOf(payload)| > 1 then old(tracked) - {(target, msgId)} else old(tracked))
      ensures !ok ==> tracked == old(tracked)[(target, msgId) := Tracked(ChunksOf(payload), {}, msgType, false)]
      ensures ok ==>
        var chunks := ChunksOf(payload);
        var indices := AllSent(chunks, msgType, fails, acks);
        && AreIndices(indices, |chunks|)
        && wire == old(wire) + Wires(target, msgType, msgId, chunks, indices)
    {
      hide Wires, Resent, FirstPass;
      var chunks := Split(payload);
      var total := |chunks|;
      var key := (target, msgId);
      if total > 1 {
        tracked := tracked[key := Tracked(chunks, {}, msgType, false)];
      }
      ghost var first;
      ok, first := SendFirstPass(msgType, msgId, chunks, target, fails);
      if ok && total > 1 {
        ghost var t, m := Tracked(chunks, {}, msgType, false), tracked;
        ResentIsMissing(t, acks);
        RetransmitUntilAcked(target, msgId, acks);
        WiresConcat(target, msgType, msgId, chunks, first, Resent(t, acks));
        assert m - {key} == old(tracked) - {key};
      } else if ok {
        assert first + [] == first;
      }
    }

    /** The first pass over the chunks: it stops after a send error, and raises where _pack does. */
    method SendFirstPass(msgType: int, msgId: int, chunks: seq<Bytes>, target: string, fails: int -> bool)
      returns (ok: bool, ghost first: seq<int>)
      requires 0 <= msgType < 0x100 && 0 <= msgId < 0x1_0000_0000 && chunks != []
      modifies this`wire
      ensures ok <==> |chunks| < 0x8000
      ensures !ok ==> wire == old(wire)
      ensures first == UpTo(FirstPass(fails, 0, |chunks|)) && AreIndices(first, |chunks|)
      ensures ok ==> wire == old(wire) + Wires(target, msgType, msgId, chunks, first)
    {
      ok := true;
      first := UpTo(FirstPass(fails, 0, |chunks|));
      var i, stop := 0, false;
      while i < |chunks| && !stop
        invariant 0 <= i <= |chunks|
        invariant i > 0 ==> |chunks| < 0x8000
        invariant i + (if stop then 0 else FirstPass(fails, i, |chunks|)) == |first|
        invariant wire == old(wire) + if i == 0 then [] else Wires(target, msgType, msgId, chunks, UpTo(i))
      {
        var pkt := Pack(Datagram(msgType, msgId, i, |chunks|, chunks[i]));
        if pkt.None? {
          ok := false;
          return;
        }
        WiresSnoc(target, msgType, msgId, chunks, i);
        wire := wire + [(target, pkt.value)];
        stop := fails(i);
        i := i + 1;
      }
    }
  }

  /** The chunks one send passes to sendto, in order. */
  function AllSent(chunks: seq<Bytes>, msgType: int, fails: int -> bool, acks: seq<seq<set<int>>>): seq<int> {
    UpTo(FirstPass(fails, 0, |chunks|))
    + if |chunks| > 1 then Resent(Tracked(chunks, {}, msgType, false), acks) else []
  }

  lemma WiresConcat(target: string, msgType: int, msgId: int, chunks: seq<Bytes>, a: seq<int>, b: seq<int>)
    requires AreIndices(a, |chunks|) && AreIndices(b, |chunks|) && Fits(msgType, msgId, |chunks|)
    ensures AreIndices(a + b, |chunks|)
    ensures Wires(target, msgType, msgId, chunks, a + b)
         == Wires(target, msgType, msgId, chunks, a) + Wires(target, msgType, msgId, chunks, b)
  {
  }

  lemma WiresOn(wire: seq<(string, Bytes)>, target: string, msgType: int, msgId: int, chunks: seq<Bytes>, a: seq<int>,
                b: seq<int>)
    requires AreIndices(a, |chunks|) && AreIndices(b, |chunks|) && Fits(msgType, msgId, |chunks|)
    ensures AreIndices(a + b, |chunks|)
    ensures wire + Wires(target, msgType, msgId, chunks, a + b)
         == wire + Wires(target, msgType, msgId, chunks, a) + Wires(target, msgType, msgId, chunks, b)
  {
    WiresConcat(target, msgType, msgId, chunks, a, b);
  }

  lemma WiresSnoc(target: string, msgType: int, msgId: int, chunks: seq<Bytes>, k: nat)
    requires k < |chunks| && Fits(msgType, msgId, |chunks|)
    ensures Wires(target, msgType, msgId, chunks, UpTo(k + 1))
         == Wires(target, msgType, msgId, chunks, UpTo(k)) + [WireAt(target, msgType, msgId, chunks, k)]
  {
    assert UpTo(k + 1) == UpTo(k) + [k];
  }

  /** At most one full pass and CHUNK_ACK_MAX_ROUNDS more. */
  lemma SendBound(chunks: seq<Bytes>, msgType: int, fails: int -> bool, acks: seq<seq<set<int>>>)
    requires |acks| == CHUNK_ACK_MAX_ROUNDS
    ensures |AllSent(chunks, msgType, fails, acks)| <= (1 + CHUNK_ACK_MAX_ROUNDS) * |chunks|
  {
    ResentBound(Tracked(chunks, {}, msgType, false), acks);
  }
}
