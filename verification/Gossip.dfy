/** src/gossip.py with the tx handlers of src/node.py and src/peer_udp.py: one node's relay, and the relay
    of one transaction over a network. */
module Relay {
  import opened Params
  import opened Prelude
  import opened Types

  // ----------------------------------------------------------------------------------- one node

  /** A send_tx: who it goes to, with which hop count. */
  datatype Sending = Sending(t: Tx, to: seq<string>, remainingHops: int)

  /** What dandelion_send does: the seen cache after it, and the sends. peers is what pool.get_all()
      returns, pick is pool.random()'s choice among them. */
  datatype Relayed = Relayed(seen: set<Hash>, sends: seq<Sending>)

  function Dandelion(e: Env, seen: set<Hash>, t: Tx, remaining: int, peers: seq<string>, pick: nat): Relayed {
    if remaining > 0 && pick < |peers| then Relayed(seen, [Sending(t, [peers[pick]], remaining - 1)])
    else if TxHash(e, t) in seen then Relayed(seen, [])
    else Relayed(seen + {TxHash(e, t)}, if peers == [] then [] else [Sending(t, peers, 0)])
  }

  class Gossip {
    var seen: set<Hash>
    var sends: seq<Sending>

    constructor ()
      ensures seen == {} && sends == []
    {
      seen, sends := {}, [];
    }

    /** mark_seen: whether h was seen before. */
    method MarkSeen(h: Hash) returns (already: bool)
      modifies this`seen
      ensures already == (h in old(seen)) && seen == old(seen) + {h}
    {
      already := h in seen;
      if !already {
        seen := seen + {h};
      }
    }

    /** UDPTransport.send_tx: nothing without peers. */
    method SendTx(t: Tx, to: seq<string>, remainingHops: int)
      modifies this`sends
      ensures sends == old(sends) + if to == [] then [] else [Sending(t, to, remainingHops)]
    {
      if to != [] {
        sends := sends + [Sending(t, to, remainingHops)];
      }
    }

    /** dandelion_send */
    method DandelionSend(e: Env, t: Tx, remaining: int, peers: seq<string>, pick: nat)
      requires pick < |peers| || peers == []
      modifies this
      ensures
        var r := Dandelion(e, old(seen), t, remaining, peers, pick);
        seen == r.seen && sends == old(sends) + r.sends
    {
      if remaining > 0 && peers != [] {
        SendTx(t, [peers[pick]], remaining - 1);
        return;
      }
      var already := MarkSeen(TxHash(e, t));
      if !already {
        SendTx(t, peers, 0);
      }
    }

    /** relay_tx: a node that knows fewer than MIN_PEERS_FOR_STEM peers floods; hops is the random draw. */
    method RelayTx(e: Env, t: Tx, known: nat, hops: int, peers: seq<string>, pick: nat)
      requires STEM_HOPS_MIN <= hops <= STEM_HOPS_MAX
      requires pick < |peers| || peers == []
      modifies this
      ensures
        var r := Dandelion(e, old(seen), t, if known < MIN_PEERS_FOR_STEM then 0 else hops, peers, pick);
        seen == r.seen && sends == old(sends) + r.sends
    {
      if known < MIN_PEERS_FOR_STEM {
        DandelionSend(e, t, 0, peers, pick);
      } else {
        DandelionSend(e, t, hops, peers, pick);
      }
    }
  }

  // ------------------------------------------------------------------------------- the network

  /** One datagram on its way; the position in Net.wire is its identity. */
  datatype Packet = Packet(src: string, dst: string, remainingHops: int)

  /** The relay of one transaction t: the datagrams ever sent, which of them the addressee's handler took,
      and the nodes that have t in their seen cache, in the order they flooded. */
  datatype Net = Net(wire: seq<Packet>, taken: set<int>, floods: seq<string>)

  /** Each node's peers, fixed for the run. */
  type Topology = map<string, seq<string>>

  /** The peers a node can use at one time: some of its list, the others being on cooldown. */
  predicate Usable(g: Topology, node: string, peers: seq<string>) {
    |peers| <= (if node in g then |g[node]| else 0)
  }

  /** A node runs dandelion_send(t, remaining). */
  function Sends(e: Env, t: Tx, w: Net, node: string, remaining: int, peers: seq<string>, pick: nat): Net {
    var r := Dandelion(e, if node in w.floods then {TxHash(e, t)} else {}, t, remaining, peers, pick);
    Net(w.wire + Packets(node, r.sends), w.taken,
        if node !in w.floods && TxHash(e, t) in r.seen then w.floods + [node] else w.floods)
  }

  function Packets(node: string, sends: seq<Sending>): seq<Packet> {
    if sends == [] then [] else Addressed(node, sends[0]) + Packets(node, sends[1..])
  }

  function Addressed(node: string, s: Sending): (r: seq<Packet>)
    ensures |r| == |s.to|
  {
    seq(|s.to|, k requires 0 <= k < |s.to| => Packet(node, s.to[k], s.remainingHops))
  }

  /** A datagram arrives. Any number of copies may; the msg_id cache lets the first through, and none
      that the node sent itself. A stem datagram goes on with one hop less; any other is for the mempool,
      and the transaction is flooded if it is accepted as valid and new. */
  datatype Arrival = Arrival(k: nat, accepted: bool, peers: seq<string>, pick: nat)

  predicate CanArrive(g: Topology, w: Net, a: Arrival) {
    && a.k < |w.wire| && w.wire[a.k].dst in g && Usable(g, w.wire[a.k].dst, a.peers)
    && (a.pick < |a.peers| || a.peers == [])
  }

  /** The handler takes the datagram. */
  predicate Taken(w: Net, a: Arrival) {
    a.k < |w.wire| && a.k !in w.taken && w.wire[a.k].src != w.wire[a.k].dst
  }

  function Arrived(e: Env, t: Tx, w: Net, a: Arrival): Net
    requires a.k < |w.wire|
  {
    var p := w.wire[a.k];
    if !Taken(w, a) then w
    else
      var w' := w.(taken := w.taken + {a.k as int});
      if p.remainingHops > 0 then Sends(e, t, w', p.dst, p.remainingHops, a.peers, a.pick)
      else if a.accepted then Sends(e, t, w', p.dst, 0, a.peers, a.pick)
      else w'
  }

  ghost predicate CanRun(e: Env, t: Tx, g: Topology, w: Net, run: seq<Arrival>)
    decreases |run|
  {
    run == [] || (CanArrive(g, w, run[0]) && CanRun(e, t, g, Arrived(e, t, w, run[0]), run[1..]))
  }

  function After(e: Env, t: Tx, g: Topology, w: Net, run: seq<Arrival>): Net
    requires CanRun(e, t, g, w, run)
    decreases |run|
  {
    if run == [] then w else After(e, t, g, Arrived(e, t, w, run[0]), run[1..])
  }

  // -------------------------------------------------------------------------------- the budget

  /** The hops still to go on datagrams nobody has taken. */
  function Hops(wire: seq<Packet>, taken: set<int>): int {
    if wire == [] then 0
    else
      var k := |wire| - 1;
      Hops(wire[..k], taken) + if k in taken || wire[k].remainingHops <= 0 then 0 else wire[k].remainingHops
  }

  /** The sum of the peer lists of these nodes. */
  function PeerSum(g: Topology, nodes: seq<string>): nat {
    if nodes == [] then 0 else PeerSum(g, nodes[..|nodes| - 1]) + PeerCount(g, nodes[|nodes| - 1])
  }

  function PeerCount(g: Topology, node: string): nat {
    if node in g then |g[node]| else 0
  }

  lemma {:induction false} HopsAppend(wire: seq<Packet>, more: seq<Packet>, taken: set<int>)
    requires forall k :: k in taken ==> k < |wire|
    requires forall p :: p in more ==> p.remainingHops <= 0
    ensures Hops(wire + more, taken) == Hops(wire, taken)
  {
    if more == [] {
      assert wire + more == wire;
    } else {
      var front := more[..|more| - 1];
      assert (wire + more)[..|wire + more| - 1] == wire + front;
      assert more[|more| - 1] in more;
      HopsAppend(wire, front, taken);
    }
  }

  lemma {:induction false} HopsTake(wire: seq<Packet>, taken: set<int>, k: nat)
    requires k < |wire| && k !in taken
    ensures Hops(wire, taken + {k})
         == Hops(wire, taken) - if wire[k].remainingHops > 0 then wire[k].remainingHops else 0
  {
    var last := |wire| - 1;
    if k == last {
      HopsOutside(wire[..last], taken, k);
    } else {
      HopsTake(wire[..last], taken, k);
    }
  }

  lemma {:induction false} HopsOutside(wire: seq<Packet>, taken: set<int>, k: nat)
    requires k >= |wire|
    ensures Hops(wire, taken + {k}) == Hops(wire, taken)
  {
    if wire != [] {
      HopsOutside(wire[..|wire| - 1], taken, k);
    }
  }

  lemma {:induction false} HopsNotNegative(wire: seq<Packet>, taken: set<int>)
    ensures Hops(wire, taken) >= 0
  {
    if wire != [] {
      HopsNotNegative(wire[..|wire| - 1], taken);
    }
  }

  /** Sends so far and hops to go are covered by the stem's hops and the peer lists of those that flooded;
      each node floods at most once, and each datagram is taken at most once. */
  ghost predicate Within(g: Topology, w: Net) {
    && |w.wire| + Hops(w.wire, w.taken) <= STEM_HOPS_MAX + PeerSum(g, w.floods)
    && Distinct(w.floods) && (forall n :: n in w.floods ==> n in g)
    && forall k :: k in w.taken ==> 0 <= k < |w.wire|
  }

  lemma {:induction false} StemPacket(node: string, t: Tx, peer: string, hops: int)
    ensures Packets(node, [Sending(t, [peer], hops)]) == [Packet(node, peer, hops)]
  {
    var s := Sending(t, [peer], hops);
    assert [s][1..] == [] && Packets(node, [s]) == Addressed(node, s) + Packets(node, []);
  }

  lemma {:induction false} FloodPackets(node: string, t: Tx, peers: seq<string>)
    ensures Packets(node, [Sending(t, peers, 0)]) == Addressed(node, Sending(t, peers, 0))
    ensures forall p :: p in peers <==> Packet(node, p, 0) in Packets(node, [Sending(t, peers, 0)])
  {
    var s := Sending(t, peers, 0);
    assert [s][1..] == [] && Packets(node, [s]) == Addressed(node, s) + Packets(node, []);
    forall p | p in peers
      ensures Packet(node, p, 0) in Packets(node, [s])
    {
      var k :| 0 <= k < |peers| && peers[k] == p;
      assert Packets(node, [s])[k] == Packet(node, p, 0);
    }
  }

  /** Both ways out of dandelion_send add packets at the end. */
  lemma SendsExtend(e: Env, t: Tx, w: Net, node: string, remaining: int, peers: seq<string>, pick: nat)
    requires pick < |peers| || peers == []
    ensures
      var next := Sends(e, t, w, node, remaining, peers, pick);
      if remaining > 0 && peers != [] then
        next == w.(wire := w.wire + [Packet(node, peers[pick], remaining - 1)])
      else if node in w.floods then next == w
      else next == Net(w.wire + Addressed(node, Sending(t, peers, 0)), w.taken, w.floods + [node])
  {
    if remaining > 0 && peers != [] {
      StemPacket(node, t, peers[pick], remaining - 1);
    } else {
      FloodPackets(node, t, peers);
      assert Packets(node, []) == [] && w.wire + [] == w.wire;
      assert peers == [] ==> Addressed(node, Sending(t, peers, 0)) == [];
    }
  }

  /** dandelion_send costs the hops it is given, or else the peer list of a node that had not flooded. */
  lemma {:induction false} SendsWithin(e: Env, t: Tx, g: Topology, w: Net, node: string, remaining: int,
                                       peers: seq<string>, pick: nat)
    requires node in g && Usable(g, node, peers) && (pick < |peers| || peers == [])
    requires Distinct(w.floods) && (forall n :: n in w.floods ==> n in g)
    requires forall k :: k in w.taken ==> 0 <= k < |w.wire|
    requires |w.wire| + Hops(w.wire, w.taken) + (if remaining > 0 then remaining else 0)
          <= STEM_HOPS_MAX + PeerSum(g, w.floods)
    ensures Within(g, Sends(e, t, w, node, remaining, peers, pick))
  {
    SendsExtend(e, t, w, node, remaining, peers, pick);
    hide Sends, Dandelion, Hops, PeerSum;
    if remaining > 0 && peers != [] {
      StemWithin(g, w, Packet(node, peers[pick], remaining - 1));
    } else if node !in w.floods {
      var more := Addressed(node, Sending(t, peers, 0));
      assert forall p :: p in more ==> p.remainingHops == 0;
      FloodWithin(g, w, node, more);
    }
  }

  lemma {:induction false} StemWithin(g: Topology, w: Net, p: Packet)
    requires Distinct(w.floods) && (forall n :: n in w.floods ==> n in g)
    requires forall k :: k in w.taken ==> 0 <= k < |w.wire|
    requires p.remainingHops >= 0
    requires |w.wire| + Hops(w.wire, w.taken) + p.remainingHops + 1 <= STEM_HOPS_MAX + PeerSum(g, w.floods)
    ensures Within(g, w.(wire := w.wire + [p]))
  {
    assert |w.wire| !in w.taken;
    HopsOneMore(w.wire, p, w.taken);
    hide Hops, PeerSum, Distinct;
  }

  lemma {:induction false} FloodWithin(g: Topology, w: Net, node: string, more: seq<Packet>)
    requires Distinct(w.floods) && (forall n :: n in w.floods ==> n in g)
    requires forall k :: k in w.taken ==> 0 <= k < |w.wire|
    requires node in g && node !in w.floods && |more| <= PeerCount(g, node)
    requires forall p :: p in more ==> p.remainingHops == 0
    requires |w.wire| + Hops(w.wire, w.taken) <= STEM_HOPS_MAX + PeerSum(g, w.floods)
    ensures Within(g, Net(w.wire + more, w.taken, w.floods + [node]))
  {
    HopsAppend(w.wire, more, w.taken);
    PeersOneMore(g, w.floods, node);
    hide Hops, PeerSum;
  }

  lemma {:induction false} HopsOneMore(wire: seq<Packet>, p: Packet, taken: set<int>)
    requires |wire| !in taken
    ensures Hops(wire + [p], taken) == Hops(wire, taken) + if p.remainingHops <= 0 then 0 else p.remainingHops
  {
    assert (wire + [p])[..|wire|] == wire;
  }

  lemma {:induction false} PeersOneMore(g: Topology, nodes: seq<string>, node: string)
    ensures PeerSum(g, nodes + [node]) == PeerSum(g, nodes) + PeerCount(g, node)
  {
    assert (nodes + [node])[..|nodes|] == nodes;
  }

  lemma ArrivedWithin(e: Env, t: Tx, g: Topology, w: Net, a: Arrival)
    requires Within(g, w) && CanArrive(g, w, a)
    ensures Within(g, Arrived(e, t, w, a))
    ensures Arrived(e, t, w, a).taken == if Taken(w, a) then w.taken + {a.k as int} else w.taken
  {
    if Taken(w, a) {
      var p := w.wire[a.k];
      HopsTake(w.wire, w.taken, a.k);
      var w' := w.(taken := w.taken + {a.k as int});
      SendsWithin(e, t, g, w', p.dst, p.remainingHops, a.peers, a.pick);
    }
  }

  /** Nothing sent, nobody has seen the transaction. */
  const SILENCE: Net := Net([], {}, [])

  lemma {:induction false} SilenceWithin(g: Topology, origin: string)
    ensures Within(g, SILENCE) && Spreads(g, origin, SILENCE)
    ensures |SILENCE.wire| + Hops(SILENCE.wire, SILENCE.taken) == 0 && PeerSum(g, SILENCE.floods) == 0
  {
  }

  /** The sender of the transaction runs relay_tx. */
  function Origin(e: Env, t: Tx, node: string, known: nat, hops: int, peers: seq<string>, pick: nat): Net {
    Sends(e, t, SILENCE, node, if known < MIN_PEERS_FOR_STEM then 0 else hops, peers, pick)
  }

  /** How many arrivals of a run are taken. */
  function TakenIn(e: Env, t: Tx, g: Topology, w: Net, run: seq<Arrival>): nat
    requires CanRun(e, t, g, w, run)
    decreases |run|
  {
    if run == [] then 0
    else (if Taken(w, run[0]) then 1 else 0) + TakenIn(e, t, g, Arrived(e, t, w, run[0]), run[1..])
  }

  lemma {:induction false} RunWithin(e: Env, t: Tx, g: Topology, w: Net, run: seq<Arrival>)
    requires Within(g, w) && CanRun(e, t, g, w, run)
    ensures Within(g, After(e, t, g, w, run))
    ensures |After(e, t, g, w, run).taken| == |w.taken| + TakenIn(e, t, g, w, run)
    decreases |run|
  {
    if run != [] {
      ArrivedWithin(e, t, g, w, run[0]);
      RunWithin(e, t, g, Arrived(e, t, w, run[0]), run[1..]);
    }
  }

  /** The peer lists of different nodes of the network add up to no more than all of them. */
  lemma {:induction false} PeerSumAtMost(g: Topology, some: seq<string>, all: seq<string>)
    requires Distinct(some) && (forall n :: n in some ==> n in all)
    ensures PeerSum(g, some) <= PeerSum(g, all)
    decreases |some|
  {
    if some != [] {
      var k := |some| - 1;
      assert some[k] in all;
      var i :| 0 <= i < |all| && all[i] == some[k];
      var rest := all[..i] + all[i + 1..];
      PeerSumWithout(g, all, i);
      forall n | n in some[..k]
        ensures n in rest
      {
        var j :| 0 <= j < k && some[j] == n;
        assert some[j] != some[k];
        assert n in some;
        var m :| 0 <= m < |all| && all[m] == n;
        assert m != i;
        assert rest[if m < i then m else m - 1] == n;
      }
      PeerSumAtMost(g, some[..k], rest);
    }
  }

  lemma {:induction false} PeerSumConcat(g: Topology, a: seq<string>, b: seq<string>)
    ensures PeerSum(g, a + b) == PeerSum(g, a) + PeerSum(g, b)
  {
    if b == [] {
      assert a + b == a;
    } else {
      assert (a + b)[..|a + b| - 1] == a + b[..|b| - 1];
      PeerSumConcat(g, a, b[..|b| - 1]);
    }
  }

  lemma {:induction false} PeerSumWithout(g: Topology, all: seq<string>, i: nat)
    requires i < |all|
    ensures PeerSum(g, all) == PeerSum(g, all[..i] + all[i + 1..]) + PeerCount(g, all[i])
  {
    PeerSumConcat(g, all[..i], all[i + 1..]);
    PeerSumConcat(g, all[..i], all[i..]);
    PeerSumConcat(g, [all[i]], all[i + 1..]);
    assert all[i..] == [all[i]] + all[i + 1..];
    assert all == all[..i] + all[i..];
    assert [all[i]][..0] == [];
  }

  lemma SetOfAtMost(s: set<int>, n: nat)
    requires forall k :: k in s ==> 0 <= k < n
    ensures |s| <= n
    decreases n
  {
    if n > 0 {
      var rest := s - {n - 1};
      SetOfAtMost(rest, n - 1);
      assert s <= rest + {n - 1};
      if n - 1 in s {
        assert s == rest + {n - 1};
      } else {
        assert s == rest;
      }
    } else {
      if s != {} {
        var k := SomeMember(s);
        assert false;
      }
    }
  }

  /** Relaying one transaction ends, over every network and however datagrams are lost, copied and
      reordered: all sends together are at most the longest stem and one flood of each node, no node
      floods twice, and so few arrivals are taken at all. */
  lemma {:induction false} RelayTerminates(e: Env, t: Tx, g: Topology, all: seq<string>, node: string, known: nat,
                                           hops: int, peers: seq<string>, pick: nat, run: seq<Arrival>)
    requires forall n :: n in g <==> n in all
    requires node in g && Usable(g, node, peers) && (pick < |peers| || peers == [])
    requires STEM_HOPS_MIN <= hops <= STEM_HOPS_MAX
    requires CanRun(e, t, g, Origin(e, t, node, known, hops, peers, pick), run)
    ensures
      var start := Origin(e, t, node, known, hops, peers, pick);
      var w := After(e, t, g, start, run);
      && |w.wire| <= STEM_HOPS_MAX + PeerSum(g, all)
      && Distinct(w.floods)
      && TakenIn(e, t, g, start, run) <= STEM_HOPS_MAX + PeerSum(g, all)
  {
    var start := Origin(e, t, node, known, hops, peers, pick);
    SilenceWithin(g, node);
    SendsWithin(e, t, g, SILENCE, node, if known < MIN_PEERS_FOR_STEM then 0 else hops, peers, pick);
    RunWithin(e, t, g, start, run);
    var w := After(e, t, g, start, run);
    HopsNotNegative(w.wire, w.taken);
    PeerSumAtMost(g, w.floods, all);
    SetOfAtMost(w.taken, |w.wire|);
  }

  // ------------------------------------------------------------------------------------ coverage

  /** Every node uses its whole peer list. The origin has the transaction in its own mempool from the start, so
      it takes each public copy for a duplicate; every other node takes the first one as valid and new. */
  ghost predicate Smooth(g: Topology, origin: string, e: Env, t: Tx, w: Net, run: seq<Arrival>)
    requires CanRun(e, t, g, w, run)
    decreases |run|
  {
    run == []
    || (SmoothArrival(g, origin, w, run[0]) && Smooth(g, origin, e, t, Arrived(e, t, w, run[0]), run[1..]))
  }

  predicate SmoothArrival(g: Topology, origin: string, w: Net, a: Arrival)
    requires CanArrive(g, w, a)
  {
    var d := w.wire[a.k].dst;
    && a.peers == g[d]
    && (d == origin ==> !a.accepted)
    && (d != origin && d !in w.floods ==> a.accepted)
  }

  /** Peer lists name other nodes of the network. */
  ghost predicate Closed(g: Topology) {
    forall n, p :: n in g && p in g[n] ==> p in g && p != n
  }

  /** Nothing that a node would still take is on its way. */
  ghost predicate Quiet(g: Topology, w: Net) {
    forall k :: 0 <= k < |w.wire| && w.wire[k].dst in g && w.wire[k].src != w.wire[k].dst ==> k in w.taken
  }

  /** A way through the peer graph that avoids one node, but for its start. */
  predicate Path(g: Topology, avoid: string, path: seq<string>) {
    && path != []
    && (forall i :: 0 <= i < |path| ==> path[i] in g && (i > 0 ==> path[i] != avoid))
    && forall i :: 0 <= i < |path| - 1 ==> path[i + 1] in g[path[i]]
  }

  ghost predicate Leads(g: Topology, avoid: string, from: string, to: string) {
    exists path: seq<string> :: Path(g, avoid, path) && path[0] == from && path[|path| - 1] == to
  }

  lemma LeadsSelf(g: Topology, avoid: string, n: string)
    requires n in g
    ensures Leads(g, avoid, n, n)
  {
    assert Path(g, avoid, [n]);
    assert [n][0] == n && [n][|[n]| - 1] == n;
  }

  lemma LeadsOn(g: Topology, avoid: string, from: string, to: string, next: string)
    requires Leads(g, avoid, from, to) && next in g && next != avoid && to in g && next in g[to]
    ensures Leads(g, avoid, from, next)
  {
    var path: seq<string> :| Path(g, avoid, path) && path[0] == from && path[|path| - 1] == to;
    var longer := path + [next];
    forall i | 0 <= i < |longer| - 1 ensures longer[i + 1] in g[longer[i]] {
      if i < |path| - 1 {
        assert path[i + 1] in g[path[i]];
      }
    }
    assert Path(g, avoid, longer) && longer[0] == from && longer[|longer| - 1] == next;
  }

  /** How many stem datagrams the origin asks for. */
  function StemLength(g: Topology, origin: string, known: nat, hops: int): int
    requires origin in g
  {
    if known < MIN_PEERS_FOR_STEM || g[origin] == [] then 0 else hops
  }

  /** The first stem datagrams carry falling hop counts. */
  ghost predicate StemFirst(w: Net, stem: int, m: nat) {
    m <= |w.wire| && m <= stem && forall k :: 0 <= k < m ==> w.wire[k].remainingHops == stem - 1 - k
  }

  /** Still in the stem: nobody has flooded, one datagram is on its way, or the last one has ended at the
      origin. */
  ghost predicate Stemming(g: Topology, origin: string, stem: int, w: Net) {
    && w.floods == [] && 0 < |w.wire| <= stem && StemFirst(w, stem, |w.wire|)
    && (forall k :: 0 <= k < |w.wire| ==> w.wire[k].dst in g && w.wire[k].src != w.wire[k].dst)
    && (forall k :: 0 <= k < |w.wire| - 1 ==> k in w.taken) && (forall k :: k in w.taken ==> 0 <= k < |w.wire|)
    && (|w.wire| - 1 in w.taken ==> |w.wire| == stem && w.wire[stem - 1].dst == origin)
  }

  /** Where the flood came from: the origin without a stem, the end of the whole stem, or a node without
      peers, where it ended again. */
  ghost predicate Started(g: Topology, origin: string, stem: int, w: Net)
    requires w.floods != []
  {
    var first := w.floods[0];
    if stem <= 0 then first == origin
    else
      && first != origin && (forall k :: 0 <= k < stem && k < |w.wire| ==> k in w.taken)
      && (|w.wire| < stem || (StemFirst(w, stem, stem) && w.wire[stem - 1].dst == first))
  }

  /** The flood is on: each public datagram comes from a node that flooded, and each node that flooded is
      one the first leads to. */
  ghost predicate Flooding(g: Topology, origin: string, stem: int, w: Net) {
    && w.floods != [] && Started(g, origin, stem, w)
    && (forall k :: 0 <= k < |w.wire| && k >= stem ==> FloodPacket(g, w, w.wire[k]))
    && (forall n :: n in w.floods ==> n in g && Leads(g, origin, w.floods[0], n))
  }

  predicate FloodPacket(g: Topology, w: Net, p: Packet) {
    p.remainingHops == 0 && p.src in w.floods && p.src in g && p.dst in g[p.src]
  }

  /** A flood's packets. */
  lemma FloodAddressed(g: Topology, node: string, t: Tx, w: Net, k: int)
    requires node in g && 0 <= k < |g[node]| && node in w.floods
    ensures FloodPacket(g, w, Addressed(node, Sending(t, g[node], 0))[k])
  {
  }

  lemma StemStep(e: Env, t: Tx, g: Topology, origin: string, stem: int, w: Net, a: Arrival)
    requires Closed(g) && origin in g && g[origin] != [] && Stemming(g, origin, stem, w)
    requires CanArrive(g, w, a) && SmoothArrival(g, origin, w, a) && Taken(w, a)
    ensures Stemming(g, origin, stem, Arrived(e, t, w, a)) || Flooding(g, origin, stem, Arrived(e, t, w, a))
  {
    var p := w.wire[a.k];
    var w' := w.(taken := w.taken + {a.k as int});
    var next := Arrived(e, t, w, a);
    assert a.k == |w.wire| - 1;
    SendsExtend(e, t, w', p.dst, p.remainingHops, a.peers, a.pick);
    hide Sends, Dandelion;
    if p.remainingHops > 0 && a.peers != [] {
      var q := Packet(p.dst, a.peers[a.pick], p.remainingHops - 1);
      assert next.wire == w.wire + [q] && next.taken == w.taken + {a.k as int};
      assert q.dst in g[p.dst];
      StemGrows(g, origin, stem, w, next, q);
    } else if p.remainingHops > 0 {
      LeadsSelf(g, origin, p.dst);
      assert next.wire == w.wire && next.floods == [p.dst];
    } else if a.accepted {
      LeadsSelf(g, origin, p.dst);
      FirstFlood(g, origin, stem, w, next, p.dst, t);
    } else {
      assert next == w' && p.dst == origin;
    }
  }

  lemma StemGrows(g: Topology, origin: string, stem: int, w: Net, next: Net, q: Packet)
    requires Stemming(g, origin, stem, w) && q.remainingHops == stem - 1 - |w.wire| >= 0
    requires q.dst in g && q.src != q.dst
    requires next == Net(w.wire + [q], w.taken + {|w.wire| - 1}, []) && |w.wire| !in w.taken
    ensures Stemming(g, origin, stem, next)
  {
  }

  /** The end of the stem floods. */
  lemma FirstFlood(g: Topology, origin: string, stem: int, w: Net, next: Net, node: string, t: Tx)
    requires |w.wire| == stem > 0 && StemFirst(w, stem, stem) && node in g && node != origin
    requires w.wire[stem - 1].dst == node && (forall k :: 0 <= k < stem ==> k in next.taken)
    requires next.wire == w.wire + Addressed(node, Sending(t, g[node], 0)) && next.floods == [node]
    requires Leads(g, origin, node, node)
    ensures Flooding(g, origin, stem, next)
  {
    forall k | 0 <= k < |next.wire| && k >= stem ensures FloodPacket(g, next, next.wire[k]) {
      FloodAddressed(g, node, t, next, k - stem);
    }
  }

  lemma FloodStep(e: Env, t: Tx, g: Topology, origin: string, stem: int, w: Net, a: Arrival)
    requires Closed(g) && origin in g && Flooding(g, origin, stem, w)
    requires CanArrive(g, w, a) && SmoothArrival(g, origin, w, a) && Taken(w, a)
    ensures Flooding(g, origin, stem, Arrived(e, t, w, a))
  {
    var p := w.wire[a.k];
    var w' := w.(taken := w.taken + {a.k as int});
    var next := Arrived(e, t, w, a);
    assert a.k >= stem;
    assert FloodPacket(g, w, p);
    SendsExtend(e, t, w', p.dst, p.remainingHops, a.peers, a.pick);
    hide Sends, Dandelion;
    if a.accepted && p.dst !in w.floods {
      LeadsOn(g, origin, w.floods[0], p.src, p.dst);
      FloodGrows(g, origin, stem, w, next, p.dst, t);
    } else {
      assert next == w';
      hide Leads;
    }
  }

  lemma FloodGrows(g: Topology, origin: string, stem: int, w: Net, next: Net, node: string, t: Tx)
    requires Flooding(g, origin, stem, w) && node in g && Leads(g, origin, w.floods[0], node)
    requires next.wire == w.wire + Addressed(node, Sending(t, g[node], 0)) && next.floods == w.floods + [node]
    requires w.taken <= next.taken && (stem > 0 ==> |w.wire| >= stem)
    ensures Flooding(g, origin, stem, next)
  {
    hide Leads;
    forall k | 0 <= k < |next.wire| && k >= stem ensures FloodPacket(g, next, next.wire[k]) {
      if k < |w.wire| {
        assert FloodPacket(g, w, w.wire[k]);
      } else {
        FloodAddressed(g, node, t, next, k - |w.wire|);
      }
    }
    assert forall k :: 0 <= k < |w.wire| ==> next.wire[k] == w.wire[k];
  }

  /** In the stem or in the flood. */
  ghost predicate UnderWay(g: Topology, origin: string, stem: int, w: Net) {
    Flooding(g, origin, stem, w) || (stem > 0 && Stemming(g, origin, stem, w))
  }

  lemma {:induction false} RunUnderWay(e: Env, t: Tx, g: Topology, origin: string, stem: int, w: Net, run: seq<Arrival>)
    requires Closed(g) && origin in g && (stem > 0 ==> g[origin] != []) && UnderWay(g, origin, stem, w)
    requires CanRun(e, t, g, w, run) && Smooth(g, origin, e, t, w, run)
    ensures UnderWay(g, origin, stem, After(e, t, g, w, run))
    decreases |run|
  {
    hide Flooding, Stemming, Arrived;
    if run != [] {
      if !Taken(w, run[0]) {
        NotTaken(e, t, w, run[0]);
      } else if Flooding(g, origin, stem, w) {
        FloodStep(e, t, g, origin, stem, w, run[0]);
      } else {
        StemStep(e, t, g, origin, stem, w, run[0]);
      }
      RunUnderWay(e, t, g, origin, stem, Arrived(e, t, w, run[0]), run[1..]);
    }
  }

  lemma NotTaken(e: Env, t: Tx, w: Net, a: Arrival)
    requires a.k < |w.wire| && !Taken(w, a)
    ensures Arrived(e, t, w, a) == w
  {
  }

  lemma OriginUnderWay(e: Env, t: Tx, g: Topology, origin: string, known: nat, hops: int, pick: nat)
    requires Closed(g) && origin in g && (pick < |g[origin]| || g[origin] == [])
    requires STEM_HOPS_MIN <= hops <= STEM_HOPS_MAX
    ensures UnderWay(g, origin, StemLength(g, origin, known, hops), Origin(e, t, origin, known, hops, g[origin], pick))
  {
    var stem := StemLength(g, origin, known, hops);
    var peers := g[origin];
    var w := Origin(e, t, origin, known, hops, peers, pick);
    SendsExtend(e, t, SILENCE, origin, if known < MIN_PEERS_FOR_STEM then 0 else hops, peers, pick);
    hide Sends, Dandelion;
    if stem > 0 {
      assert w.wire == [Packet(origin, peers[pick], hops - 1)];
      assert Stemming(g, origin, stem, w);
    } else {
      FloodStarts(g, origin, stem, t, w);
      hide Flooding, Stemming;
    }
  }

  lemma FloodStarts(g: Topology, origin: string, stem: int, t: Tx, w: Net)
    requires Closed(g) && origin in g && stem == 0 && w.taken == {} && w.floods == [origin]
    requires w.wire == Addressed(origin, Sending(t, g[origin], 0))
    ensures Flooding(g, origin, stem, w)
  {
    LeadsSelf(g, origin, origin);
    forall k | 0 <= k < |w.wire| ensures FloodPacket(g, w, w.wire[k]) {
      FloodAddressed(g, origin, t, w, k);
    }
    hide Leads, FloodPacket;
  }

  /** Who flooded has sent to all its peers, and who took a public datagram has flooded. */
  ghost predicate Spreads(g: Topology, origin: string, w: Net) {
    && (forall n, p :: n in w.floods && n in g && p in g[n] ==> Packet(n, p, 0) in w.wire)
    && (forall k :: k in w.taken && 0 <= k < |w.wire| && w.wire[k].remainingHops <= 0 ==>
          w.wire[k].dst == origin || w.wire[k].dst in w.floods)
  }

  lemma SendsSpread(e: Env, t: Tx, g: Topology, origin: string, w: Net, node: string, remaining: int, pick: nat)
    requires node in g && (pick < |g[node]| || g[node] == []) && Spreads(g, origin, w)
    requires forall k :: k in w.taken ==> 0 <= k < |w.wire|
    ensures Spreads(g, origin, Sends(e, t, w, node, remaining, g[node], pick))
    ensures remaining <= 0 ==> node in Sends(e, t, w, node, remaining, g[node], pick).floods
  {
    var next := Sends(e, t, w, node, remaining, g[node], pick);
    FloodPackets(node, t, g[node]);
    assert forall k :: 0 <= k < |w.wire| ==> next.wire[k] == w.wire[k];
    assert forall p :: p in w.wire ==> p in next.wire;
  }

  lemma ArrivedSpreads(e: Env, t: Tx, g: Topology, origin: string, w: Net, a: Arrival)
    requires Within(g, w) && CanArrive(g, w, a) && Spreads(g, origin, w) && SmoothArrival(g, origin, w, a)
    ensures Spreads(g, origin, Arrived(e, t, w, a))
  {
    if Taken(w, a) {
      var p := w.wire[a.k];
      var w' := w.(taken := w.taken + {a.k as int});
      if p.remainingHops > 0 || p.dst == origin || p.dst in w.floods {
        SendsSpread(e, t, g, origin, w', p.dst, p.remainingHops, a.pick);
      } else {
        SendsSpread(e, t, g, origin, w, p.dst, p.remainingHops, a.pick);
      }
    }
  }

  lemma {:induction false} RunSpreads(e: Env, t: Tx, g: Topology, origin: string, w: Net, run: seq<Arrival>)
    requires Within(g, w) && CanRun(e, t, g, w, run) && Spreads(g, origin, w) && Smooth(g, origin, e, t, w, run)
    ensures Spreads(g, origin, After(e, t, g, w, run))
    decreases |run|
  {
    if run != [] {
      ArrivedWithin(e, t, g, w, run[0]);
      ArrivedSpreads(e, t, g, origin, w, run[0]);
      RunSpreads(e, t, g, origin, Arrived(e, t, w, run[0]), run[1..]);
    }
  }

  /** Without loss, the flood reaches every node on a path from a node that flooded, round the origin. */
  lemma {:induction false} FloodReaches(g: Topology, origin: string, w: Net, path: seq<string>)
    requires Spreads(g, origin, w) && Quiet(g, w) && Path(g, origin, path) && path[0] in w.floods
    ensures path[|path| - 1] in w.floods
    decreases |path|
  {
    if |path| > 1 {
      var n, p := path[0], path[1];
      assert path[1] in g[path[0]];
      if p != n {
        assert Packet(n, p, 0) in w.wire;
        var k :| 0 <= k < |w.wire| && w.wire[k] == Packet(n, p, 0);
        assert k in w.taken;
      }
      PathRest(g, origin, path);
      FloodReaches(g, origin, w, path[1..]);
    }
  }

  lemma PathRest(g: Topology, avoid: string, path: seq<string>)
    requires Path(g, avoid, path) && |path| > 1
    ensures Path(g, avoid, path[1..])
  {
    var rest := path[1..];
    forall i | 0 <= i < |rest| ensures rest[i] in g && rest[i] != avoid {
      assert rest[i] == path[i + 1];
    }
    forall i | 0 <= i < |rest| - 1 ensures rest[i + 1] in g[rest[i]] {
      assert path[(i + 1) + 1] in g[path[i + 1]];
    }
  }

  /** A whole lossless relay, once nothing is on its way. Nobody has flooded exactly when there was a stem and
      its last datagram was addressed to the origin. Else a node has flooded exactly when the first one that
      did leads to it by a path that does not come by the origin. */
  lemma {:induction false} RelayCovers(e: Env, t: Tx, g: Topology, origin: string, known: nat, hops: int, pick: nat,
                                       run: seq<Arrival>)
    requires Closed(g) && origin in g && (pick < |g[origin]| || g[origin] == [])
    requires STEM_HOPS_MIN <= hops <= STEM_HOPS_MAX
    requires
      var start := Origin(e, t, origin, known, hops, g[origin], pick);
      CanRun(e, t, g, start, run) && Smooth(g, origin, e, t, start, run) && Quiet(g, After(e, t, g, start, run))
    ensures
      var stem := StemLength(g, origin, known, hops);
      var w := After(e, t, g, Origin(e, t, origin, known, hops, g[origin], pick), run);
      && (w.floods == [] <==>
            stem > 0 && |w.wire| >= stem && w.wire[stem - 1].remainingHops == 0 && w.wire[stem - 1].dst == origin)
      && (w.floods != [] ==> forall n :: n in w.floods <==> Leads(g, origin, w.floods[0], n))
  {
    var stem := StemLength(g, origin, known, hops);
    var start := Origin(e, t, origin, known, hops, g[origin], pick);
    var w := After(e, t, g, start, run);
    OriginUnderWay(e, t, g, origin, known, hops, pick);
    RunUnderWay(e, t, g, origin, stem, start, run);
    OriginSpreads(e, t, g, origin, known, hops, pick);
    RunSpreads(e, t, g, origin, start, run);
    hide Origin, CanRun, Smooth, After;
    if w.floods == [] {
      StemEnded(g, origin, stem, w);
    } else {
      FloodedIff(g, origin, stem, w);
    }
  }

  lemma OriginSpreads(e: Env, t: Tx, g: Topology, origin: string, known: nat, hops: int, pick: nat)
    requires origin in g && (pick < |g[origin]| || g[origin] == []) && STEM_HOPS_MIN <= hops <= STEM_HOPS_MAX
    ensures Within(g, Origin(e, t, origin, known, hops, g[origin], pick))
    ensures Spreads(g, origin, Origin(e, t, origin, known, hops, g[origin], pick))
  {
    var remaining := if known < MIN_PEERS_FOR_STEM then 0 else hops;
    SilenceWithin(g, origin);
    SendsWithin(e, t, g, SILENCE, origin, remaining, g[origin], pick);
    SendsSpread(e, t, g, origin, SILENCE, origin, remaining, pick);
  }

  lemma StemEnded(g: Topology, origin: string, stem: int, w: Net)
    requires UnderWay(g, origin, stem, w) && Quiet(g, w) && w.floods == []
    ensures stem > 0 && |w.wire| == stem && w.wire[stem - 1].remainingHops == 0 && w.wire[stem - 1].dst == origin
  {
    assert Stemming(g, origin, stem, w);
    assert |w.wire| - 1 in w.taken;
  }

  lemma FloodedIff(g: Topology, origin: string, stem: int, w: Net)
    requires UnderWay(g, origin, stem, w) && Quiet(g, w) && Spreads(g, origin, w) && w.floods != []
    ensures stem > 0 && |w.wire| >= stem ==> w.wire[stem - 1].dst != origin
    ensures forall n :: n in w.floods <==> Leads(g, origin, w.floods[0], n)
  {
    assert Flooding(g, origin, stem, w);
    forall n | Leads(g, origin, w.floods[0], n) ensures n in w.floods {
      var path: seq<string> :| Path(g, origin, path) && path[0] == w.floods[0] && path[|path| - 1] == n;
      FloodReaches(g, origin, w, path);
    }
  }

  // ------------------------------------------------------------------------- a relay that gets nowhere

  const LEAVES: seq<string> := ["l1", "l2", "l3", "l4", "l5", "l6", "l7", "l8"]

  /** A node whose eight peers know only it. */
  function HubNet(): Topology {
    (map n | n in LEAVES :: ["hub"])["hub" := LEAVES]
  }

  lemma HubPeers()
    ensures forall n :: n in HubNet() <==> n == "hub" || n in LEAVES
    ensures HubNet()["hub"] == LEAVES && "hub" !in LEAVES && "l1" in LEAVES
    ensures forall n :: n in LEAVES ==> HubNet()[n] == ["hub"]
    ensures Closed(HubNet())
  {
    assert LEAVES[0] == "l1";
  }

  const OUT: Packet := Packet("hub", "l1", 1)
  const BACK: Packet := Packet("l1", "hub", 0)

  lemma HubStarts(e: Env, t: Tx)
    ensures Origin(e, t, "hub", |LEAVES|, 2, LEAVES, 0) == Net([OUT], {}, [])
  {
    SendsExtend(e, t, SILENCE, "hub", 2, LEAVES, 0);
    hide Sends, Dandelion;
    assert SILENCE.wire + [OUT] == [OUT];
  }

  lemma LeafSendsBack(e: Env, t: Tx)
    ensures Arrived(e, t, Net([OUT], {}, []), Arrival(0, true, ["hub"], 0)) == Net([OUT, BACK], {0}, [])
  {
    var w := Net([OUT], {0}, []);
    SendsExtend(e, t, w, "l1", 1, ["hub"], 0);
    hide Sends, Dandelion;
    assert [OUT] + [BACK] == [OUT, BACK];
    assert w == Net([OUT], {}, []).(taken := {} + {0});
  }

  lemma HubRefuses(e: Env, t: Tx)
    ensures Arrived(e, t, Net([OUT, BACK], {0}, []), Arrival(1, false, LEAVES, 0)) == Net([OUT, BACK], {0, 1}, [])
  {
    assert {0} + {1} == {0, 1};
  }

  /** The hub relays a transaction of its own with a stem of two hops. Nothing is lost, yet nobody floods: the
      stem goes to a leaf and back, and the hub takes the transaction for a duplicate. */
  lemma {:induction false} StemEndsAtOrigin(e: Env, t: Tx)
    ensures
      var g := HubNet();
      var start := Origin(e, t, "hub", |LEAVES|, 2, LEAVES, 0);
      var run := [Arrival(0, true, ["hub"], 0), Arrival(1, false, LEAVES, 0)];
      && Closed(g) && CanRun(e, t, g, start, run) && Smooth(g, "hub", e, t, start, run)
      && Quiet(g, After(e, t, g, start, run)) && After(e, t, g, start, run).floods == []
  {
    var g := HubNet();
    var a, b := Arrival(0, true, ["hub"], 0), Arrival(1, false, LEAVES, 0);
    var w1, w2, w3 := Net([OUT], {}, []), Net([OUT, BACK], {0}, []), Net([OUT, BACK], {0, 1}, []);
    HubPeers();
    HubStarts(e, t);
    LeafSendsBack(e, t);
    HubRefuses(e, t);
    hide HubNet, Origin, Arrived, Closed;
    assert CanArrive(g, w1, a) && SmoothArrival(g, "hub", w1, a);
    assert CanArrive(g, w2, b) && SmoothArrival(g, "hub", w2, b);
    assert [a, b][1..] == [b] && [b][1..] == [];
    assert CanRun(e, t, g, w3, []) && After(e, t, g, w3, []) == w3 && Smooth(g, "hub", e, t, w3, []);
    assert CanRun(e, t, g, w2, [b]) && After(e, t, g, w2, [b]) == w3 && Smooth(g, "hub", e, t, w2, [b]);
  }
}
