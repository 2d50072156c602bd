/** One frame followed from the wire to the bus while the other threads rest. */
module PipelineProgress {
  import opened Bytes
  import opened Frames
  import opened Events
  import opened Framing
  import opened Pipeline
  import MpscSteps
  import MpscPromises
  import BusSteps
  import BusPromises

  function Times(m: Move, n: nat): seq<Move> {
    if n == 0 then [] else [m] + Times(m, n - 1)
  }

  lemma RunFirst(table: BusSteps.TopicTable, s: System, m: Move, rest: seq<Move>)
    ensures Run(table, s, [m] + rest) == Run(table, Step(table, s, m), rest)
  {
    hide Step;
    assert ([m] + rest)[0] == m && ([m] + rest)[1..] == rest;
  }

  lemma RunTimes(table: BusSteps.TopicTable, s: System, m: Move, n: nat, rest: seq<Move>)
    ensures n > 0 ==> Run(table, s, Times(m, n) + rest) == Run(table, Step(table, s, m), Times(m, n - 1) + rest)
    ensures Times(m, 0) + rest == rest
  {
    hide Run, Step;
    if n > 0 {
      assert Times(m, n) + rest == [m] + (Times(m, n - 1) + rest);
      RunFirst(table, s, m, Times(m, n - 1) + rest);
    }
  }

  // ---------------------------------------------------------------- the push of one event

  // Actions left to a thread inside push.
  function PushesLeft(x: MpscSteps.Producer<Item>): nat {
    match x
    case Idle => 0
    case Admitted(_) => 4
    case Created(_) => 3
    case Exchanged(_, _, _) => 2
    case Linked => 1
  }

  const Unused: Item := Item(0, 0, Event(0, BATCH, TCP, 0, [], []))

  lemma PushAdvances(q: Queue, p: nat, item: Item, spot: MpscSteps.Addr)
    requires MpscSteps.Inv(q) && p < |q.producers| && !q.producers[p].Idle?
    requires q.producers[p].Admitted? ==> spot !in q.heap
    ensures var q' := MpscSteps.PushStep(q, p, item, spot);
            && q' == MpscSteps.PushStep(q, p, Unused, spot) && |q'.producers| == |q.producers|
            && PushesLeft(q'.producers[p]) == PushesLeft(q.producers[p]) - 1
  {
    hide MpscSteps.Chained, MpscSteps.DataOk, MpscSteps.PrefixOk, MpscSteps.NoLeak, MpscSteps.SizeOk, MpscSteps.Wrap;
    assert MpscSteps.ProducerOk(q, p);
  }

  // A thread that goes on with its push does what the queue's producer does.
  lemma GoesOn(table: BusSteps.TopicTable, s: System, p: nat, now: nat, spot: MpscSteps.Addr)
    requires p < |s.queue.producers| && !s.queue.producers[p].Idle? && MpscSteps.Inv(s.queue)
    requires s.queue.producers[p].Admitted? ==> spot !in s.queue.heap
    ensures Step(table, s, Push(p, now, spot)) == s.(queue := MpscSteps.PushStep(s.queue, p, Unused, spot))
  {
    hide MpscSteps.PushStep, MpscSteps.Inv;
    PushAdvances(s.queue, p, Item(p, 0, Event(0, BATCH, TCP, 0, [], [])), spot);
  }

  lemma {:induction false} PushRuns(
      table: BusSteps.TopicTable, s: System, p: nat, now: nat, spot: MpscSteps.Addr, rest: seq<Move>)
    requires p < |s.queue.producers| && MpscSteps.Inv(s.queue)
    requires s.queue.producers[p].Admitted? ==> spot !in s.queue.heap
    ensures var n := PushesLeft(s.queue.producers[p]);
            Run(table, s, Times(Push(p, now, spot), n) + rest)
            == Run(table, s.(queue := MpscPromises.Pushes(s.queue, p, Unused, spot, n)), rest)
    decreases PushesLeft(s.queue.producers[p])
  {
    hide MpscSteps.PushStep, MpscSteps.Inv, Run, Step, Times;
    var q, m := s.queue, Push(p, now, spot);
    var n := PushesLeft(q.producers[p]);
    RunTimes(table, s, m, n, rest);
    if n > 0 {
      GoesOn(table, s, p, now, spot);
      PushAdvances(q, p, Unused, spot);
      MpscSteps.PushKeepsInv(q, p, Unused, spot);
      PushRuns(table, Step(table, s, m), p, now, spot, rest);
    }
  }

  // ---------------------------------------------------------------- the pop of one event

  // While it pops the dispatcher does what the queue's consumer does, and takes what the pop returns.
  lemma {:induction false} DispatchRuns(table: BusSteps.TopicTable, s: System, rest: seq<Move>)
    requires s.bus.work.Idle? && MpscSteps.Inv(s.queue) && MpscPromises.AllIdle(s.queue)
    requires MpscPromises.StepsLeft(s.queue.consumer) >= 3 ==> |s.queue.history.chain| >= 2
    ensures var n, h := MpscPromises.StepsLeft(s.queue.consumer), s.queue.history;
            && |h.returned| < |h.pushed|
            && Run(table, s, Times(Dispatch, n) + rest)
               == Run(table, s.(queue := MpscPromises.Pops(s.queue, n),
                                bus := BusSteps.TakeStep(table, s.bus, h.pushed[|h.returned|].event)), rest)
    decreases MpscPromises.StepsLeft(s.queue.consumer)
  {
    hide MpscSteps.PopStep, MpscSteps.Inv, MpscPromises.AllIdle, Run, Times, BusSteps.TakeStep;
    var q, n := s.queue, MpscPromises.StepsLeft(s.queue.consumer);
    RunTimes(table, s, Dispatch, n, rest);
    MpscPromises.PopAdvances(q);
    MpscSteps.PopKeepsInv(q);
    PopReturns(q);
    var s' := Step(table, s, Dispatch);
    if q.consumer.Deleted? {
      RunTimes(table, s', Dispatch, 0, rest);
      assert s'.queue.history.returned[|q.history.returned|] == q.consumer.item;
      assert MpscPromises.Pops(q, 1) == MpscPromises.Pops(s'.queue, 0) == s'.queue;
    } else {
      DispatchRuns(table, s', rest);
    }
  }

  // ---------------------------------------------------------------- the whole way

  // Nobody is inside the queue, the dispatcher waits for events, and connection p has a frame to offer.
  predicate Ready(s: System, p: nat) {
    && Resting(s, p) && s.conns[p].offered < |Delivered(s.conns[p])|
    && MpscPromises.Quiet(s.queue) && |s.queue.history.chain| == 1 && s.queue.capacity > 0
    && s.bus.work.Idle?
  }

  // The queue after a push of its own.
  function AfterPush(q: Queue, p: nat, item: Item, spot: MpscSteps.Addr): Queue
    requires p < |q.producers|
  {
    MpscPromises.Pushes(MpscSteps.PushStep(q, p, item, spot), p, Unused, spot, 4)
  }

  lemma AfterPushIs(q: Queue, p: nat, item: Item, spot: MpscSteps.Addr)
    requires MpscSteps.Inv(q) && MpscPromises.Quiet(q) && |q.history.chain| == 1 && q.capacity > 0
    requires p < |q.producers| && spot !in q.heap
    ensures var q1, q' := MpscSteps.PushStep(q, p, item, spot), AfterPush(q, p, item, spot);
            && MpscSteps.Inv(q1) && q1.producers == q.producers[p := MpscSteps.Admitted(item)] && q1.heap == q.heap
            && MpscSteps.Inv(q') && MpscPromises.Quiet(q') && |q'.history.chain| == 2
            && q'.history.returned == q.history.returned == q.history.pushed
            && q'.history.pushed == q.history.pushed + [item]
  {
    MpscPromises.DrainedIsClean(q);
    CounterOfEmpty(q);
    MpscPromises.Admits(q, p, item, spot);
    hide *;
    MpscSteps.PushKeepsInv(q, p, item, spot);
    hide MpscSteps.PushStep;
    var q1 := MpscSteps.PushStep(q, p, item, spot);
    MpscPromises.AdmittedPushEnds(q1, p, item, Unused, spot);
    MpscPromises.PushesAllInv(q1, p, Unused, spot, 4);
    var q' := MpscPromises.Pushes(q1, p, Unused, spot, 4);
    assert q'.producers == q.producers;
    StillQuiet(q, q');
    SpellOut(q, p, item, spot);
  }

  lemma SpellOut(q: Queue, p: nat, item: Item, spot: MpscSteps.Addr)
    requires p < |q.producers|
    ensures AfterPush(q, p, item, spot)
            == MpscPromises.Pushes(MpscSteps.PushStep(q, p, item, spot), p, Unused, spot, 4)
  {
    hide MpscPromises.Pushes, MpscSteps.PushStep;
  }

  lemma StillQuiet(q: Queue, q': Queue)
    requires MpscPromises.Quiet(q) && q'.producers == q.producers && q'.consumer == q.consumer
    ensures MpscPromises.Quiet(q')
  {}

  // The thread's push of the event of its next frame.
  lemma Pushed(table: BusSteps.TopicTable, s: System, p: nat, now: nat, spot: MpscSteps.Addr, rest: seq<Move>)
    requires MpscSteps.Inv(s.queue) && Ready(s, p) && spot !in s.queue.heap
    ensures var c := s.conns[p];
            Run(table, s, Times(Push(p, now, spot), 5) + rest)
            == Run(table, s.(queue := AfterPush(s.queue, p, Offer(s, p, now), spot), nextId := s.nextId + 1,
                             conns := s.conns[p := c.(offered := c.offered + 1)]), rest)
  {
    hide MpscSteps.PushStep, MpscSteps.Inv, Run, Times, MpscPromises.Pushes, Accepted;
    var m, item := Push(p, now, spot), Offer(s, p, now);
    AfterPushIs(s.queue, p, item, spot);
    RunTimes(table, s, m, 5, rest);
    PushRuns(table, Step(table, s, m), p, now, spot, rest);
  }

  lemma CounterOfEmpty(q: Queue)
    requires MpscSteps.Inv(q) && MpscPromises.Quiet(q) && |q.history.chain| == 1
    ensures MpscSteps.Counter(q) == 0
  {
    MpscSteps.CountZero(q.producers, MpscSteps.IsExchanged);
    MpscSteps.CountZero(q.producers, MpscSteps.IsLinked);
  }

  /**
    Five steps of its thread and six of the dispatcher bring the next frame of connection p to the
    dispatcher, as an event with the next id, the frame's own priority, topic and payload, and the
    time of its push; the connection has offered one frame more and the queue is empty again.
   */
  lemma FrameReachesDispatcher(
      table: BusSteps.TopicTable, s: System, p: nat, now: nat, spot: MpscSteps.Addr, rest: seq<Move>)
    requires Inv(s) && Ready(s, p) && spot !in s.queue.heap
    ensures var f, c := Delivered(s.conns[p])[s.conns[p].offered], s.conns[p];
            var e := Event(s.nextId % 4294967296, f.priority, 0, now, f.topic, f.payload);
            var q := MpscPromises.Pops(AfterPush(s.queue, p, Item(p, c.offered, e), spot), 6);
            && MpscPromises.Quiet(q) && |q.history.chain| == 1
            && Run(table, s, Times(Push(p, now, spot), 5) + (Times(Dispatch, 6) + rest))
               == Run(table, s.(queue := q, nextId := s.nextId + 1, conns := s.conns[p := c.(offered := c.offered + 1)],
                                bus := BusSteps.Step(table, s.bus, BusSteps.Take(e))), rest)
  {
    hide Run, Times, MpscSteps.Inv, MpscPromises.Pops, MpscPromises.AllIdle, AfterPush, Accepted, Inv;
    QueueOk(s);
    var c, item := s.conns[p], Offer(s, p, now);
    var q := AfterPush(s.queue, p, item, spot);
    Pushed(table, s, p, now, spot, Times(Dispatch, 6) + rest);
    AfterPushIs(s.queue, p, item, spot);
    DispatchRuns(
      table, s.(queue := q, nextId := s.nextId + 1, conns := s.conns[p := c.(offered := c.offered + 1)]), rest);
    MpscPromises.PopFinishes(q);
  }

  lemma QueueOk(s: System)
    requires Inv(s)
    ensures MpscSteps.Inv(s.queue)
  {}

  /** One more step of the dispatcher puts it on a bus that has room: the move of BusSteps that does. */
  lemma FrameIsPlaced(table: BusSteps.TopicTable, s: System, p: nat, now: nat, spot: MpscSteps.Addr)
    requires Inv(s) && Ready(s, p) && spot !in s.queue.heap
    requires |s.bus.bus.realtime| < 16383 && |s.bus.bus.transactional| < 131072 && |s.bus.bus.batch| < 32768
    ensures var f := Delivered(s.conns[p])[s.conns[p].offered];
            var e := Event(s.nextId % 4294967296, f.priority, 0, now, f.topic, f.payload);
            var s' := Run(table, s, Times(Push(p, now, spot), 5) + (Times(Dispatch, 6) + [Dispatch]));
            s'.bus == BusSteps.Run(table, s.bus, [BusSteps.Take(e), BusSteps.Try]) && s'.bus.work.Idle?
  {
    hide Run, Times, MpscPromises.Pops, AfterPush, Accepted, Inv, BusSteps.Step, BusSteps.Run;
    FrameReachesDispatcher(table, s, p, now, spot, [Dispatch]);
    var f, c := Delivered(s.conns[p])[s.conns[p].offered], s.conns[p];
    var e := Event(s.nextId % 4294967296, f.priority, 0, now, f.topic, f.payload);
    var b := BusSteps.Step(table, s.bus, BusSteps.Take(e));
    var q := MpscPromises.Pops(AfterPush(s.queue, p, Item(p, c.offered, e), spot), 6);
    BusSteps.RouteMeaning(table, s.bus.bus, e);
    BusPromises.TakesOne(table, s.bus, e);
    OneDispatch(
      table, s.(queue := q, nextId := s.nextId + 1, conns := s.conns[p := c.(offered := c.offered + 1)], bus := b));
    TwoMoves(table, s.bus, BusSteps.Take(e), BusSteps.Try);
    BusPromises.DispatchPlaces(table, s.bus, e);
  }

  lemma OneDispatch(table: BusSteps.TopicTable, s: System)
    requires s.bus.work.Trying?
    ensures Run(table, s, [Dispatch]) == s.(bus := BusSteps.Step(table, s.bus, BusSteps.Try))
  {
    hide BusSteps.TryStep;
    assert [Dispatch][1..] == [];
    assert Run(table, s, [Dispatch]) == Run(table, Step(table, s, Dispatch), []);
  }

  lemma TwoMoves(table: BusSteps.TopicTable, b: BusSteps.Machine, m: BusSteps.Move, n: BusSteps.Move)
    ensures BusSteps.Run(table, b, [m, n]) == BusSteps.Step(table, BusSteps.Step(table, b, m), n)
  {
    hide BusSteps.Step;
    var b1 := BusSteps.Step(table, b, m);
    assert [m, n][1..] == [n] && [n][1..] == [];
    assert BusSteps.Run(table, b, [m, n]) == BusSteps.Run(table, b1, [n]);
    assert BusSteps.Run(table, b1, [n]) == BusSteps.Run(table, BusSteps.Step(table, b1, n), []);
  }

  // One encoded frame received by a connection that has just been opened.
  lemma ReceivesOne(table: BusSteps.TopicTable, capacity: nat, n: nat, dummy: MpscSteps.Addr, p: nat, f: Frame)
    requires 0 < capacity && capacity + n < WORD && p < n && Sendable(f)
    ensures var s := Step(table, Init(capacity, n, dummy), Receive(p, Encode(f)));
            && Inv(s) && Ready(s, p) && Delivered(s.conns[p]) == [f] && s.conns[p].offered == 0 && s.nextId == 0
            && s.queue.heap.Keys == {dummy} && s.bus == BusSteps.Init()
  {
    var s0 := Init(capacity, n, dummy);
    InitInv(capacity, n, dummy);
    StepKeepsInv(table, s0, Receive(p, Encode(f)));
    StartsReady(capacity, n, dummy);
    hide Inv, Encode, Feed, Accepted, Init, MpscPromises.Quiet;
    ReceivedAlone(f);
  }

  lemma StartsReady(capacity: nat, n: nat, dummy: MpscSteps.Addr)
    ensures var s := Init(capacity, n, dummy);
            && |s.conns| == |s.queue.producers| == n
            && (forall p :: 0 <= p < n ==> s.conns[p] == Connection([], START, 0) && s.queue.producers[p].Idle?)
            && MpscPromises.Quiet(s.queue) && |s.queue.history.chain| == 1 && s.queue.capacity == capacity
            && s.queue.heap.Keys == {dummy} && s.bus == BusSteps.Init() && s.bus.work.Idle? && s.nextId == 0
            && Accepted(START.frames) == []
  {}

  lemma ReceivedAlone(f: Frame)
    requires Sendable(f)
    ensures Accepted(Feed(START, Encode(f)).frames) == [f]
  {
    var wire := Encode(f);
    hide Encode;
    var wires, frames: seq<Frame> := [wire], [f];
    assert wires[1..] == [] && frames[1..] == [] && wire + [] == wire;
    assert Flatten([wire]) == wire + Flatten([]) && EncodeAll([f]) == [wire] + EncodeAll([]);
    assert EncodeAll([f]) == [wire];
    WireRoundTrip([f], [wire]);
    assert FeedAll(START, [wire]) == FeedAll(Feed(START, wire), []);
  }

  /** The first frame any connection of a new server receives is the first event its bus is given. */
  lemma FirstFrameArrives(
      table: BusSteps.TopicTable, capacity: nat, n: nat, dummy: MpscSteps.Addr, p: nat, f: Frame, now: nat,
      spot: MpscSteps.Addr)
    requires 0 < capacity && capacity + n < WORD && p < n && Sendable(f) && spot != dummy
    ensures var e := Event(0, f.priority, 0, now, f.topic, f.payload);
            var work := [Receive(p, Encode(f))] + (Times(Push(p, now, spot), 5) + (Times(Dispatch, 6) + [Dispatch]));
            var s' := Run(table, Init(capacity, n, dummy), work);
            s'.bus == BusSteps.Run(table, BusSteps.Init(), [BusSteps.Take(e), BusSteps.Try]) && s'.bus.work.Idle?
  {
    hide Run, Step, Times, Encode, Delivered, Init, Inv, Ready, BusSteps.Run;
    var rest := Times(Push(p, now, spot), 5) + (Times(Dispatch, 6) + [Dispatch]);
    RunFirst(table, Init(capacity, n, dummy), Receive(p, Encode(f)), rest);
    ReceivesOne(table, capacity, n, dummy, p, f);
    FrameIsPlaced(table, Step(table, Init(capacity, n, dummy), Receive(p, Encode(f))), p, now, spot);
  }
}
