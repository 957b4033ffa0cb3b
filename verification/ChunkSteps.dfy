/** src/peer_udp.py: one chunked send as a step system. The network loses, copies and reorders data and
    acknowledgements alike; other traffic reaches the receiver in between; the acknowledgement handler
    may run between any two steps of the sender. The receiver is the reassembler, or, for the answer to a
    sync request, the collector of that request. */
module ChunkSteps {
  import opened Params
  import opened Prelude
  import opened Chunks
  import opened ChunkProtocol

  /** The message sent: total is more than one chunk and no more than the receiver takes. */
  datatype Job = Job(addr: string, msgType: int, msgId: int, payload: Bytes)

  function Total(j: Job): nat {
    |ChunksOf(j.payload)|
  }

  function KeyOf(j: Job): Key {
    (j.addr, j.msgId)
  }

  /** Where the sender is: in the first pass, in the wait of a round, past a wait that timed out, in the
      resends of a round, about to drop the entry, or through. */
  datatype Phase =
    | Sending(next: nat)
    | Watching(round: nat)
    | Deciding(round: nat)
    | Resending(round: nat, todo: seq<int>)
    | Closing
    | Finished

  /** The reassembler with what it has delivered, or the collector of a pending request. The request ends on
      its own, done or timed out; chunks that come later are dropped unacknowledged. */
  datatype Receiver =
    | Assembling(records: map<Key, Record>, delivered: seq<Bytes>)
    | Collecting(collector: Collector<Bytes>, open: bool)

  /** The collector is left to decode: its result is the payload as received. */
  function Raw(): Bytes -> Option<Bytes> {
    (payload: Bytes) => Some(payload)
  }

  /** sent counts calls of sendto; onWire holds the chunk indices and acks the acknowledgements that were
      ever sent, each of which may arrive at any later time, any number of times, or never. */
  datatype World = World(phase: Phase, tracked: bool, acked: set<int>, event: bool, sent: nat, onWire: set<int>,
                         reached: set<int>, recv: Receiver, acks: set<set<int>>)

  datatype Step =
    | SendNext(ok: bool)
    | Wake
    | TimeOut
    | Decide
    | ResendNext(ok: bool)
    | EndRound
    | Close
    | DataArrives(i: int, at: real)
    | AckArrives(indices: set<int>)
    | OtherArrives(a: Arrival)
    | RequestEnds

  predicate SendersStep(s: Step) {
    !s.DataArrives? && !s.AckArrives? && !s.OtherArrives? && !s.RequestEnds?
  }

  predicate Enabled(j: Job, w: World, s: Step) {
    match s
    case SendNext(_) => w.phase.Sending?
    case Wake => w.phase.Watching? && w.event
    case TimeOut => w.phase.Watching? && !w.event
    case Decide => w.phase.Deciding?
    case ResendNext(_) => w.phase.Resending? && w.phase.todo != []
    case EndRound => w.phase.Resending? && w.phase.todo == []
    case Close => w.phase.Closing?
    case DataArrives(i, _) => i in w.onWire && 0 <= i < Total(j)
    case AckArrives(indices) => indices in w.acks
    case OtherArrives(a) => !BelongsTo(a, KeyOf(j))
    case RequestEnds => w.recv.Collecting?
  }

  /** The receiver's handler: feed the chunk, then acknowledge. */
  function AfterData(j: Job, w: World, i: int, at: real): World
    requires 0 <= i < Total(j)
  {
    var d := ChunkDatagram(j.msgType, j.msgId, j.payload, i);
    var here := w.(reached := w.reached + {i});
    match w.recv
    case Assembling(records, delivered) =>
      var outcome := FedOutcome(records, KeyOf(j), d, at);
      var after := FedPending(records, KeyOf(j), d, at);
      here.(recv := Assembling(after, delivered + if outcome.Whole? then [outcome.payload] else []),
            acks := w.acks + {AckOf(after, KeyOf(j), Total(j), outcome)})
    case Collecting(collector, open) =>
      if !open then here
      else
        var after := SyncFed(collector, d, Raw());
        here.(recv := Collecting(after, true), acks := w.acks + {after.chunks.Keys})
  }

  function Sent(w: World, i: int, ok: bool, phase: Phase): World {
    w.(sent := w.sent + 1, onWire := if ok then w.onWire + {i} else w.onWire, phase := phase)
  }

  function Next(j: Job, w: World, s: Step): World
    requires Enabled(j, w, s)
  {
    match s
    case SendNext(ok) =>
      var i := w.phase.next;
      Sent(w, i, ok, if ok && i + 1 < Total(j) then Sending(i + 1) else Watching(0))
    case Wake => w.(phase := Closing)
    case TimeOut => w.(phase := Deciding(w.phase.round))
    case Decide => w.(phase := Resending(w.phase.round, Missing(Total(j), w.acked)))
    case ResendNext(ok) => Sent(w, w.phase.todo[0], ok, Resending(w.phase.round, w.phase.todo[1..]))
    case EndRound =>
      w.(phase := if w.phase.round + 1 < CHUNK_ACK_MAX_ROUNDS then Watching(w.phase.round + 1) else Closing)
    case Close => w.(phase := Finished, tracked := false)
    case DataArrives(i, at) => AfterData(j, w, i, at)
    case AckArrives(indices) =>
      if w.tracked then
        var t := Acknowledged(Tracked(ChunksOf(j.payload), w.acked, j.msgType, w.event), indices);
        w.(acked := t.acked, event := t.event)
      else w
    case OtherArrives(a) =>
      if w.recv.Assembling? then w.(recv := Assembling(Received(w.recv.records, a), w.recv.delivered)) else w
    case RequestEnds => w.(recv := Collecting(w.recv.collector, false))
  }

  /** The entry is registered and nothing is sent; the receiver has no record of the message. */
  predicate Start(j: Job, w: World) {
    && w.phase == Sending(0) && w.tracked && w.acked == {} && !w.event && w.sent == 0
    && w.onWire == {} && w.reached == {} && w.acks == {}
    && match w.recv
       case Assembling(records, delivered) => KeyOf(j) !in records && delivered == []
       case Collecting(collector, open) => collector == Collector(map[], None, false, None) && open
  }

  ghost predicate Possible(j: Job, w: World, steps: seq<Step>)
    decreases |steps|
  {
    steps == [] || (Enabled(j, w, steps[0]) && Possible(j, Next(j, w, steps[0]), steps[1..]))
  }

  function Run(j: Job, w: World, steps: seq<Step>): World
    requires Possible(j, w, steps)
    decreases |steps|
  {
    if steps == [] then w else Run(j, Next(j, w, steps[0]), steps[1..])
  }

  // ------------------------------------------------------------------------------------ invariants

  function HeldOf(j: Job, r: Receiver): set<int> {
    match r
    case Assembling(records, _) => HeldIndices(records, KeyOf(j))
    case Collecting(collector, _) => collector.chunks.Keys
  }

  /** The payload has come out at the receiver. */
  predicate Done(j: Job, r: Receiver) {
    match r
    case Assembling(_, delivered) => delivered != []
    case Collecting(collector, _) => collector.event && collector.result == Some(j.payload)
  }

  /** The receiver holds some of the chunks that reached it, all of them until it is done or closed; and once
      it has had them all, the payload and nothing else has come out. */
  ghost predicate ReceiverFine(j: Job, r: Receiver, reached: set<int>) {
    && HeldOf(j, r) <= reached <= Indices(Total(j))
    && match r
       case Assembling(records, delivered) =>
         && HeldOf(j, r) < Indices(Total(j)) && Holds(records, KeyOf(j), j.payload, HeldOf(j, r))
         && (delivered == [] ==> HeldOf(j, r) == reached)
         && forall p :: p in delivered ==> p == j.payload
       case Collecting(collector, open) =>
         && SyncHas(collector, j.payload, HeldOf(j, r), Raw())
         && (open ==> HeldOf(j, r) == reached)
  }

  /** The chunks the receiver may have acknowledged: all that reached the reassembler, all that the collector
      still holds. */
  function Got(j: Job, w: World): set<int> {
    if w.recv.Assembling? then w.reached else HeldOf(j, w.recv)
  }

  /** The sender's view: what it takes as acknowledged the receiver has had. */
  ghost predicate AcksFine(j: Job, w: World) {
    && (forall indices :: indices in w.acks ==> indices <= Got(j, w))
    && w.acked <= Got(j, w)
    && (w.event ==> Indices(Total(j)) <= w.acked)
  }

  /** n for each of k rounds. */
  function Rounds(k: int, n: nat): nat {
    if k <= 0 then 0 else n + Rounds(k - 1, n)
  }

  /** How many calls of sendto are still to come at most. */
  function Left(n: nat, p: Phase): int {
    match p
    case Sending(next) => n - next + Rounds(CHUNK_ACK_MAX_ROUNDS, n)
    case Watching(r) => Rounds(CHUNK_ACK_MAX_ROUNDS - r, n)
    case Deciding(r) => Rounds(CHUNK_ACK_MAX_ROUNDS - r, n)
    case Resending(r, todo) => |todo| + Rounds(CHUNK_ACK_MAX_ROUNDS - r - 1, n)
    case Closing => 0
    case Finished => 0
  }

  /** How many steps the sender still takes at most. */
  function Rank(n: nat, p: Phase): int {
    match p
    case Sending(next) => n - next + Rounds(CHUNK_ACK_MAX_ROUNDS, n + 3) + 1
    case Watching(r) => Rounds(CHUNK_ACK_MAX_ROUNDS - r, n + 3) + 1
    case Deciding(r) => Rounds(CHUNK_ACK_MAX_ROUNDS - r, n + 3)
    case Resending(r, todo) => |todo| + 2 + Rounds(CHUNK_ACK_MAX_ROUNDS - r - 1, n + 3)
    case Closing => 1
    case Finished => 0
  }

  predicate PhaseFine(n: nat, p: Phase) {
    match p
    case Sending(next) => next < n
    case Watching(r) => r < CHUNK_ACK_MAX_ROUNDS
    case Deciding(r) => r < CHUNK_ACK_MAX_ROUNDS
    case Resending(r, todo) => r < CHUNK_ACK_MAX_ROUNDS && |todo| <= n && AreIndices(todo, n)
    case Closing => true
    case Finished => true
  }

  ghost predicate SenderFine(j: Job, w: World) {
    && PhaseFine(Total(j), w.phase)
    && (w.tracked <==> !w.phase.Finished?)
    && w.sent + Left(Total(j), w.phase) <= Total(j) + Rounds(CHUNK_ACK_MAX_ROUNDS, Total(j))
  }

  ghost predicate Fine(j: Job, w: World) {
    && Collects(Total(j)) && w.reached <= w.onWire <= Indices(Total(j))
    && ReceiverFine(j, w.recv, w.reached) && AcksFine(j, w) && SenderFine(j, w)
  }

  /** Every step of the sender keeps the count of sends within the budget and lowers the rank. */
  lemma SenderStepFine(j: Job, w: World, s: Step)
    requires SendersStep(s) && Enabled(j, w, s) && SenderFine(j, w)
    ensures SenderFine(j, Next(j, w, s))
    ensures 0 <= Rank(Total(j), Next(j, w, s).phase) < Rank(Total(j), w.phase)
  {
    if s.Decide? {
      MissingMembers(Total(j), w.acked);
      hide Missing;
    } else if s.ResendNext? {
      assert forall i :: i in w.phase.todo[1..] ==> i in w.phase.todo;
    }
  }

  lemma SenderStepKeeps(j: Job, w: World, s: Step)
    requires SendersStep(s) && Enabled(j, w, s) && Fine(j, w)
    ensures
      var next := Next(j, w, s);
      && next.recv == w.recv && next.reached == w.reached && AcksFine(j, next)
      && next.reached <= next.onWire <= Indices(Total(j))
  {
    hide ReceiverFine;
    if s.ResendNext? {
      assert w.phase.todo[0] in w.phase.todo;
    }
  }

  lemma {:induction false} HeldAre(records: map<Key, Record>, key: Key, payload: Bytes, held: set<int>)
    requires held <= Indices(|ChunksOf(payload)|) && Holds(records, key, payload, held)
    ensures HeldIndices(records, key) == held
  {
    assert held != {} ==> PartsAt(payload, held).Keys == held;
  }

  /** What one chunk does at the reassembler: it is acknowledged together with all it holds. */
  lemma AssemblerEffect(j: Job, w: World, i: int, at: real)
    requires Collects(Total(j)) && w.recv.Assembling? && ReceiverFine(j, w.recv, w.reached) && 0 <= i < Total(j)
    ensures
      var next, now := AfterData(j, w, i, at), HeldOf(j, w.recv) + {i};
      var held := if now == Indices(Total(j)) then {} else now;
      && next == w.(reached := w.reached + {i}, recv := next.recv, acks := w.acks + {now})
      && next.recv.Assembling?
      && next.recv.delivered == w.recv.delivered + (if now == Indices(Total(j)) then [j.payload] else [])
      && HeldOf(j, next.recv) == held && held < Indices(Total(j)) && Holds(next.recv.records, KeyOf(j), j.payload, held)
  {
    var now := HeldOf(j, w.recv) + {i};
    var held := if now == Indices(Total(j)) then {} else now;
    FeedOne(w.recv.records, KeyOf(j), j.msgType, j.payload, HeldOf(j, w.recv), i, at);
    assert 0 in Indices(Total(j));
    assert now <= Indices(Total(j)) && i in now;
    hide FedOutcome, FedPending, ChunksOf, Indices;
    HeldAre(AfterData(j, w, i, at).recv.records, KeyOf(j), j.payload, held);
    hide Holds, HeldIndices;
  }

  /** The collector likewise. */
  lemma CollectorEffect(j: Job, w: World, i: int, at: real)
    requires Collects(Total(j)) && w.recv.Collecting? && w.recv.open && ReceiverFine(j, w.recv, w.reached)
    requires 0 <= i < Total(j)
    ensures
      var next, now := AfterData(j, w, i, at), HeldOf(j, w.recv) + {i};
      && next == w.(reached := w.reached + {i}, recv := next.recv, acks := w.acks + {now})
      && next.recv.Collecting? && next.recv.open
      && HeldOf(j, next.recv) == now && SyncHas(next.recv.collector, j.payload, now, Raw())
  {
    var now := HeldOf(j, w.recv) + {i};
    SyncFeedOne(w.recv.collector, j.payload, HeldOf(j, w.recv), j.msgType, j.msgId, i, Raw());
    assert now <= Indices(Total(j));
    assert PartsAt(j.payload, now).Keys == now;
    hide SyncFed, ChunksOf, PartsAt;
  }

  /** One acknowledgement more, of indices the receiver has had. */
  lemma AcksGrow(j: Job, w: World, next: World, now: set<int>)
    requires AcksFine(j, w) && next == w.(reached := next.reached, recv := next.recv, acks := w.acks + {now})
    requires Got(j, w) <= Got(j, next) && now <= Got(j, next)
    ensures AcksFine(j, next)
  {
    hide Got, Indices, Total;
  }

  /** The reassembler after one chunk more, which completes the payload or not. */
  lemma AssembledFine(j: Job, was: Receiver, r: Receiver, reached: set<int>, i: int)
    requires was.Assembling? && r.Assembling? && ReceiverFine(j, was, reached) && i in Indices(Total(j))
    requires var now := HeldOf(j, was) + {i};
      && r.delivered == was.delivered + (if now == Indices(Total(j)) then [j.payload] else [])
      && HeldOf(j, r) == (if now == Indices(Total(j)) then {} else now)
    requires HeldOf(j, r) < Indices(Total(j)) && Holds(r.records, KeyOf(j), j.payload, HeldOf(j, r))
    ensures ReceiverFine(j, r, reached + {i})
  {
    hide Holds, HeldOf, Indices, Total, KeyOf;
    if HeldOf(j, was) + {i} == Indices(Total(j)) {
      assert r.delivered[|was.delivered|] == j.payload;
    }
  }

  lemma AssemblerKeeps(j: Job, w: World, i: int, at: real)
    requires Collects(Total(j)) && w.recv.Assembling? && ReceiverFine(j, w.recv, w.reached) && AcksFine(j, w)
    requires 0 <= i < Total(j)
    ensures
      var next := AfterData(j, w, i, at);
      next == w.(reached := w.reached + {i}, recv := next.recv, acks := next.acks)
      && ReceiverFine(j, next.recv, next.reached) && AcksFine(j, next)
  {
    AssemblerEffect(j, w, i, at);
    var next, now := AfterData(j, w, i, at), HeldOf(j, w.recv) + {i};
    hide AfterData, Holds, HeldOf, AcksFine, Indices;
    assert i in Indices(Total(j));
    assert now <= w.reached + {i};
    AssembledFine(j, w.recv, next.recv, w.reached, i);
    hide ReceiverFine;
    AcksGrow(j, w, next, now);
  }

  lemma CollectorKeeps(j: Job, w: World, i: int, at: real)
    requires Collects(Total(j)) && w.recv.Collecting? && w.recv.open && ReceiverFine(j, w.recv, w.reached)
    requires AcksFine(j, w) && 0 <= i < Total(j)
    ensures
      var next := AfterData(j, w, i, at);
      next == w.(reached := w.reached + {i}, recv := next.recv, acks := next.acks)
      && ReceiverFine(j, next.recv, next.reached) && AcksFine(j, next)
  {
    CollectorEffect(j, w, i, at);
    assert i in Indices(Total(j));
    hide AfterData, SyncHas, HeldOf, AcksFine, Indices;
    AcksGrow(j, w, AfterData(j, w, i, at), HeldOf(j, w.recv) + {i});
  }

  lemma ClosedKeeps(j: Job, w: World, i: int, at: real)
    requires w.recv.Collecting? && !w.recv.open && ReceiverFine(j, w.recv, w.reached) && AcksFine(j, w)
    requires 0 <= i < Total(j)
    ensures AfterData(j, w, i, at) == w.(reached := w.reached + {i})
    ensures ReceiverFine(j, w.recv, w.reached + {i}) && AcksFine(j, w.(reached := w.reached + {i}))
  {
    hide SyncHas, SyncFed;
    assert i in Indices(Total(j));
  }

  lemma DataStepKeeps(j: Job, w: World, i: int, at: real)
    requires Enabled(j, w, DataArrives(i, at)) && Fine(j, w)
    ensures Fine(j, AfterData(j, w, i, at))
  {
    hide ReceiverFine, AcksFine, AfterData;
    if w.recv.Assembling? {
      AssemblerKeeps(j, w, i, at);
    } else if w.recv.open {
      CollectorKeeps(j, w, i, at);
    } else {
      ClosedKeeps(j, w, i, at);
    }
    assert i in Indices(Total(j));
  }

  lemma AckStepKeeps(j: Job, w: World, indices: set<int>)
    requires Enabled(j, w, AckArrives(indices)) && Fine(j, w)
    ensures Fine(j, Next(j, w, AckArrives(indices)))
  {
    hide ReceiverFine;
  }

  lemma OtherStepKeeps(j: Job, w: World, a: Arrival)
    requires Enabled(j, w, OtherArrives(a)) && Fine(j, w)
    ensures Fine(j, Next(j, w, OtherArrives(a)))
  {
    if w.recv.Assembling? {
      OthersLeave(w.recv.records, a, KeyOf(j), j.payload, HeldOf(j, w.recv));
      assert HeldOf(j, Next(j, w, OtherArrives(a)).recv) == HeldOf(j, w.recv);
    }
  }

  lemma EndStepKeeps(j: Job, w: World)
    requires Enabled(j, w, RequestEnds) && Fine(j, w)
    ensures Fine(j, Next(j, w, RequestEnds))
  {
    hide SyncHas;
  }

  lemma StepKeeps(j: Job, w: World, s: Step)
    requires Enabled(j, w, s) && Fine(j, w)
    ensures Fine(j, Next(j, w, s))
  {
    match s
    case DataArrives(i, at) => DataStepKeeps(j, w, i, at);
    case AckArrives(indices) => AckStepKeeps(j, w, indices);
    case OtherArrives(a) => OtherStepKeeps(j, w, a);
    case RequestEnds => EndStepKeeps(j, w);
    case _ =>
      SenderStepFine(j, w, s);
      SenderStepKeeps(j, w, s);
  }

  lemma {:induction false} RunKeeps(j: Job, w: World, steps: seq<Step>)
    requires Fine(j, w) && Possible(j, w, steps)
    ensures Fine(j, Run(j, w, steps))
    decreases |steps|
  {
    if steps != [] {
      StepKeeps(j, w, steps[0]);
      RunKeeps(j, Next(j, w, steps[0]), steps[1..]);
    }
  }

  lemma StartFine(j: Job, w: World)
    requires Collects(Total(j)) && Start(j, w)
    ensures Fine(j, w)
  {
    assert 0 in Indices(Total(j));
  }

  // -------------------------------------------------------------------------------------- theorems

  /** In every run, with either receiver: what the sender takes as acknowledged has reached the receiver; the
      full acknowledgement is signalled only after the payload has come out there; nothing but the payload
      ever does; it has come out once every index has come, unless the request ended first; the number of
      data datagrams is bounded; and the tracking entry is gone exactly when the sender is through. */
  lemma {:induction false} ChunkedSendSafe(j: Job, start: World, steps: seq<Step>)
    requires Collects(Total(j)) && Start(j, start) && Possible(j, start, steps)
    ensures
      var w := Run(j, start, steps);
      && w.acked <= w.reached <= w.onWire
      && (w.event ==> Done(j, w.recv))
      && (w.recv.Assembling? ==> forall p :: p in w.recv.delivered ==> p == j.payload)
      && (w.recv.Collecting? && w.recv.collector.event ==> w.recv.collector.result == Some(j.payload))
      && (w.reached == Indices(Total(j)) && (w.recv.Collecting? ==> w.recv.open) ==> Done(j, w.recv))
      && w.sent <= (1 + CHUNK_ACK_MAX_ROUNDS) * Total(j)
      && (w.tracked <==> !w.phase.Finished?)
  {
    StartFine(j, start);
    RunKeeps(j, start, steps);
    var w := Run(j, start, steps);
    LeftIsNotNegative(Total(j), w.phase);
    FourRounds(Total(j));
  }

  lemma {:induction false} FourRounds(n: nat)
    ensures Rounds(CHUNK_ACK_MAX_ROUNDS, n) == CHUNK_ACK_MAX_ROUNDS * n
  {
    assert Rounds(2, n) == n + Rounds(1, n) && Rounds(1, n) == n;
    assert Rounds(4, n) == n + Rounds(3, n) && Rounds(3, n) == n + Rounds(2, n);
  }

  lemma LeftIsNotNegative(n: nat, p: Phase)
    requires PhaseFine(n, p)
    ensures Left(n, p) >= 0
    ensures Rank(n, p) >= 0 && (Rank(n, p) == 0 <==> p.Finished?)
  {
  }

  function SenderSteps(steps: seq<Step>): nat {
    if steps == [] then 0 else (if SendersStep(steps[0]) then 1 else 0) + SenderSteps(steps[1..])
  }

  lemma {:induction false} SenderStepsBounded(j: Job, w: World, steps: seq<Step>)
    requires Fine(j, w) && Possible(j, w, steps)
    ensures SenderSteps(steps) + Rank(Total(j), Run(j, w, steps).phase) <= Rank(Total(j), w.phase)
    decreases |steps|
  {
    if steps != [] {
      StepKeeps(j, w, steps[0]);
      if SendersStep(steps[0]) {
        SenderStepFine(j, w, steps[0]);
      }
      SenderStepsBounded(j, Next(j, w, steps[0]), steps[1..]);
    }
  }

  function NextSenderStep(w: World): Step {
    match w.phase
    case Sending(_) => SendNext(true)
    case Watching(_) => if w.event then Wake else TimeOut
    case Deciding(_) => Decide
    case Resending(_, todo) => if todo == [] then EndRound else ResendNext(true)
    case Closing => Close
    case Finished => Close
  }

  /** The sender comes to its end, whatever the network does: it has a step to take until it is through,
      and takes no more than a fixed number of them. At the end the tracking entry is gone. */
  lemma {:induction false} SenderFinishes(j: Job, start: World, steps: seq<Step>)
    requires Collects(Total(j)) && Start(j, start) && Possible(j, start, steps)
    ensures
      var w := Run(j, start, steps);
      && SenderSteps(steps) <= Rank(Total(j), Sending(0))
      && (w.phase.Finished? || Enabled(j, w, NextSenderStep(w)))
      && (SenderSteps(steps) == Rank(Total(j), Sending(0)) ==> !w.tracked)
  {
    StartFine(j, start);
    RunKeeps(j, start, steps);
    SenderStepsBounded(j, start, steps);
    var w := Run(j, start, steps);
    hide Fine, Possible, Run, SenderSteps, Start;
    RankAtEnd(j, w);
    hide Rank, Enabled, NextSenderStep;
  }

  lemma RankAtEnd(j: Job, w: World)
    requires Fine(j, w)
    ensures 0 <= Rank(Total(j), w.phase)
    ensures Rank(Total(j), w.phase) == 0 ==> !w.tracked
    ensures w.phase.Finished? || Enabled(j, w, NextSenderStep(w))
  {
    hide ReceiverFine, AcksFine;
  }

  /** The send is acknowledged in full as soon as the chunk that completes the message and the acknowledgement it
      causes arrive. */
  lemma {:induction false} LastChunkCompletes(j: Job, start: World, steps: seq<Step>, i: int, at: real)
    requires Collects(Total(j)) && Start(j, start) && Possible(j, start, steps)
    requires
      var w := Run(j, start, steps);
      && i in w.onWire && w.tracked && HeldOf(j, w.recv) + {i} == Indices(Total(j))
      && (w.recv.Collecting? ==> w.recv.open)
    ensures
      var w := Run(j, start, steps);
      && Enabled(j, w, DataArrives(i, at)) && Done(j, Next(j, w, DataArrives(i, at)).recv)
      && Enabled(j, Next(j, w, DataArrives(i, at)), AckArrives(Indices(Total(j))))
      && Next(j, Next(j, w, DataArrives(i, at)), AckArrives(Indices(Total(j)))).event
  {
    StartFine(j, start);
    RunKeeps(j, start, steps);
    hide Possible, Run, Start, Fine;
    LastChunkHere(j, Run(j, start, steps), i, at);
  }

  lemma LastChunkHere(j: Job, w: World, i: int, at: real)
    requires Fine(j, w) && i in w.onWire && w.tracked && HeldOf(j, w.recv) + {i} == Indices(Total(j))
    requires w.recv.Collecting? ==> w.recv.open
    ensures Enabled(j, w, DataArrives(i, at))
    ensures
      var next := Next(j, w, DataArrives(i, at));
      && Done(j, next.recv) && Enabled(j, next, AckArrives(Indices(Total(j))))
      && Next(j, next, AckArrives(Indices(Total(j)))).event
  {
    assert 0 <= i < Total(j) by {
      assert i in Indices(Total(j));
    }
    DataNext(j, w, i, at);
    hide Next, AfterData, HeldOf, Fine, Done, Indices, Total;
    LastData(j, w, i, at);
    FullAckEnds(j, AfterData(j, w, i, at));
  }

  lemma DataNext(j: Job, w: World, i: int, at: real)
    requires i in w.onWire && 0 <= i < Total(j)
    ensures Enabled(j, w, DataArrives(i, at)) && Next(j, w, DataArrives(i, at)) == AfterData(j, w, i, at)
  {
    hide AfterData;
  }

  lemma LastData(j: Job, w: World, i: int, at: real)
    requires Fine(j, w) && 0 <= i < Total(j) && HeldOf(j, w.recv) + {i} == Indices(Total(j))
    requires w.recv.Collecting? ==> w.recv.open
    ensures
      var next := AfterData(j, w, i, at);
      Done(j, next.recv) && next.tracked == w.tracked && Indices(Total(j)) in next.acks
  {
    if w.recv.Assembling? {
      AssemblerEffect(j, w, i, at);
      hide AfterData, Holds, HeldOf, ReceiverFine, AcksFine, SenderFine, Indices;
      var next := AfterData(j, w, i, at);
      assert next.recv.delivered == w.recv.delivered + [j.payload];
    } else {
      CollectorEffect(j, w, i, at);
      hide AfterData, HeldOf, ReceiverFine, AcksFine, SenderFine, Indices;
      CollectorDone(AfterData(j, w, i, at).recv.collector, j.payload);
      hide SyncHas;
    }
  }

  lemma {:induction false} CollectorDone(c: Collector<Bytes>, payload: Bytes)
    requires SyncHas(c, payload, Indices(|ChunksOf(payload)|), Raw())
    ensures c.event && c.result == Some(payload)
  {
  }

  lemma FullAckEnds(j: Job, w: World)
    requires w.tracked && Indices(Total(j)) in w.acks
    ensures Enabled(j, w, AckArrives(Indices(Total(j))))
    ensures Next(j, w, AckArrives(Indices(Total(j)))).event
  {
  }

  // ------------------------------------------------------------------- the code's rounds are such runs

  /** The entry of the tracking table. */
  function EntryOf(j: Job, w: World): Tracked {
    Tracked(ChunksOf(j.payload), w.acked, j.msgType, w.event)
  }

  /** What the network does between two steps of the sender. */
  predicate NetworkOnly(steps: seq<Step>) {
    forall s :: s in steps ==> !SendersStep(s)
  }

  /** The acknowledgements among them. */
  function AcksIn(steps: seq<Step>): seq<set<int>> {
    if steps == [] then []
    else (if steps[0].AckArrives? then [steps[0].indices] else []) + AcksIn(steps[1..])
  }

  lemma {:induction false} RunConcat(j: Job, w: World, a: seq<Step>, b: seq<Step>)
    requires Possible(j, w, a) && Possible(j, Run(j, w, a), b)
    ensures Possible(j, w, a + b) && Run(j, w, a + b) == Run(j, Run(j, w, a), b)
    decreases |a|
  {
    if a == [] {
      assert a + b == b;
    } else {
      assert (a + b)[0] == a[0] && (a + b)[1..] == a[1..] + b;
      RunConcat(j, Next(j, w, a[0]), a[1..], b);
    }
  }

  lemma NetworkMovesOnce(j: Job, w: World, s: Step)
    requires Enabled(j, w, s) && !SendersStep(s) && w.tracked
    ensures
      var next := Next(j, w, s);
      next.phase == w.phase && next.tracked && next.sent == w.sent
      && EntryOf(j, next)
           == (if s.AckArrives? then Acknowledged(EntryOf(j, w), s.indices) else EntryOf(j, w))
  {
    hide ChunksOf, Indices, FedOutcome, FedPending, SyncFed;
  }

  lemma AcksFirst(t: Tracked, steps: seq<Step>)
    requires steps != []
    ensures AcknowledgedAll(t, AcksIn(steps))
         == AcknowledgedAll(if steps[0].AckArrives? then Acknowledged(t, steps[0].indices) else t, AcksIn(steps[1..]))
  {
    if steps[0].AckArrives? {
      assert AcksIn(steps)[0] == steps[0].indices && AcksIn(steps)[1..] == AcksIn(steps[1..]);
    } else {
      assert AcksIn(steps) == AcksIn(steps[1..]);
    }
  }

  /** While the sender stands still, its entry takes up exactly the acknowledgements that arrive. */
  lemma {:induction false} NetworkMoves(j: Job, w: World, steps: seq<Step>)
    requires NetworkOnly(steps) && Possible(j, w, steps) && w.tracked
    ensures
      var w' := Run(j, w, steps);
      w'.phase == w.phase && w'.tracked && w'.sent == w.sent
      && EntryOf(j, w') == AcknowledgedAll(EntryOf(j, w), AcksIn(steps))
    decreases |steps|
  {
    if steps != [] {
      assert steps[0] in steps;
      assert NetworkOnly(steps[1..]) by {
        assert forall s :: s in steps[1..] ==> s in steps;
      }
      NetworkMovesOnce(j, w, steps[0]);
      AcksFirst(EntryOf(j, w), steps);
      NetworkMoves(j, Next(j, w, steps[0]), steps[1..]);
      hide Next, EntryOf, AcknowledgedAll, AcksIn, NetworkOnly;
    }
  }

  /** The resends of one round. */
  function Resends(todo: seq<int>, oks: int -> bool): seq<Step> {
    if todo == [] then [] else [ResendNext(oks(todo[0]))] + Resends(todo[1..], oks)
  }

  /** The indices among todo that sendto took. */
  function Taken(todo: seq<int>, oks: int -> bool): set<int> {
    if todo == [] then {} else (if oks(todo[0]) then {todo[0]} else {}) + Taken(todo[1..], oks)
  }

  lemma {:induction false} ResendsRun(j: Job, w: World, oks: int -> bool)
    requires w.phase.Resending?
    ensures
      var steps := Resends(w.phase.todo, oks);
      Possible(j, w, steps)
      && Run(j, w, steps) == w.(sent := w.sent + |w.phase.todo|, onWire := w.onWire + Taken(w.phase.todo, oks),
                                phase := Resending(w.phase.round, []))
    decreases |w.phase.todo|
  {
    var todo := w.phase.todo;
    if todo != [] {
      ResendsRun(j, Next(j, w, ResendNext(oks(todo[0]))), oks);
      var steps := Resends(todo, oks);
      assert steps[0] == ResendNext(oks(todo[0])) && steps[1..] == Resends(todo[1..], oks);
    }
  }

  /** The world after a round that was not the last of the wait: everything missing sent once. */
  function AfterRound(j: Job, w: World, oks: int -> bool): World
    requires w.phase.Watching?
  {
    var todo := Missing(Total(j), w.acked);
    var r := w.phase.round + 1;
    w.(sent := w.sent + |todo|, onWire := w.onWire + Taken(todo, oks),
       phase := if r < CHUNK_ACK_MAX_ROUNDS then Watching(r) else Closing)
  }

  lemma {:induction false} RoundRun(j: Job, w: World, oks: int -> bool)
    requires w.phase.Watching? && !w.event
    ensures
      var steps := [TimeOut, Decide] + Resends(Missing(Total(j), w.acked), oks) + [EndRound];
      Possible(j, w, steps) && Run(j, w, steps) == AfterRound(j, w, oks)
  {
    var todo := Missing(Total(j), w.acked);
    var r := w.phase.round;
    var w2 := w.(phase := Resending(r, todo));
    OneStep(j, w, TimeOut);
    OneStep(j, w.(phase := Deciding(r)), Decide);
    RunConcat(j, w, [TimeOut], [Decide]);
    assert [TimeOut] + [Decide] == [TimeOut, Decide];
    ResendsRun(j, w2, oks);
    RunConcat(j, w, [TimeOut, Decide], Resends(todo, oks));
    var w3 := Run(j, w2, Resends(todo, oks));
    OneStep(j, w3, EndRound);
    RunConcat(j, w, [TimeOut, Decide] + Resends(todo, oks), [EndRound]);
  }

  lemma {:induction false} OneStep(j: Job, w: World, s: Step)
    requires Enabled(j, w, s)
    ensures Possible(j, w, [s]) && Run(j, w, [s]) == Next(j, w, s)
  {
    assert [s][1..] == [];
    assert Run(j, Next(j, w, s), []) == Next(j, w, s);
  }

  /** What the network does in each round is possible where it happens. */
  ghost predicate RoundsPossible(j: Job, w: World, rounds: seq<seq<Step>>, oks: int -> bool)
    decreases |rounds|
  {
    rounds != [] ==>
      && w.phase.Watching? && NetworkOnly(rounds[0]) && Possible(j, w, rounds[0])
      && var w' := Run(j, w, rounds[0]);
         w'.phase.Watching? && (w'.event || RoundsPossible(j, AfterRound(j, w', oks), rounds[1..], oks))
  }

  function AcksOfRounds(rounds: seq<seq<Step>>): (r: seq<seq<set<int>>>)
    ensures |r| == |rounds|
  {
    if rounds == [] then [] else [AcksIn(rounds[0])] + AcksOfRounds(rounds[1..])
  }

  /** The retransmit loop of the code, with the acknowledgements that the network delivers during each
      wait, is a run of the step system: it ends with the sender through, and the resends counted there
      are those the loop makes. */
  lemma {:induction false} LoopIsRun(j: Job, w: World, rounds: seq<seq<Step>>, oks: int -> bool)
    returns (steps: seq<Step>)
    requires w.tracked && |rounds| <= CHUNK_ACK_MAX_ROUNDS && RoundsPossible(j, w, rounds, oks)
    requires w.phase == if rounds == [] then Closing else Watching(CHUNK_ACK_MAX_ROUNDS - |rounds|)
    ensures Possible(j, w, steps) && Run(j, w, steps).phase.Finished?
    ensures Run(j, w, steps).sent == w.sent + |Resent(EntryOf(j, w), AcksOfRounds(rounds))|
    decreases |rounds|
  {
    if rounds == [] {
      steps := [Close];
      OneStep(j, w, Close);
    } else {
      var w1 := Run(j, w, rounds[0]);
      NetworkMoves(j, w, rounds[0]);
      if w1.event {
        OneStep(j, w1, Wake);
        OneStep(j, Next(j, w1, Wake), Close);
        RunConcat(j, w1, [Wake], [Close]);
        RunConcat(j, w, rounds[0], [Wake] + [Close]);
        steps := rounds[0] + ([Wake] + [Close]);
      } else {
        var todo := Missing(Total(j), w1.acked);
        var once := [TimeOut, Decide] + Resends(todo, oks) + [EndRound];
        RoundRun(j, w1, oks);
        var w2 := AfterRound(j, w1, oks);
        var later := LoopIsRun(j, w2, rounds[1..], oks);
        RunConcat(j, w1, once, later);
        RunConcat(j, w, rounds[0], once + later);
        steps := rounds[0] + (once + later);
        assert AcksOfRounds(rounds)[1..] == AcksOfRounds(rounds[1..]);
      }
    }
  }
}
