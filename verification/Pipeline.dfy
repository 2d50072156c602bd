/**
  From the wire to the bus: any number of TCP connections, each with a thread that cuts its bytes
  into frames and pushes events into the inbound queue, the dispatch thread that pops and routes
  them, and the consumers of the bus. The parts are the machines of Framing, MpscSteps and BusSteps.
 */
module Pipeline {
  import opened Wrappers
  import opened Bytes
  import opened Frames
  import opened Events
  import opened Framing
  import MpscSteps
  import BusSteps

  /** An event in the inbound queue, with the connection and the number of the frame it came from. */
  datatype Item = Item(conn: nat, place: nat, event: Event)

  /** One connection: the bytes received, the state of its framing, the frames offered to the queue. */
  datatype Connection = Connection(wire: seq<byte>, stream: Stream, offered: nat)

  type Queue = MpscSteps.Machine<Item>

  datatype System = System(
    conns: seq<Connection>, queue: Queue, bus: BusSteps.Machine, nextId: nat,
    refused: seq<Item>)            // history: what the queue turned away

  const TCP: nat := 0

  function Delivered(c: Connection): seq<Frame> {
    Accepted(c.stream.frames)
  }

  /** The event a thread makes of a frame; ids are cut to 32 bits. */
  function EventOf(f: Frame, id: nat, now: nat): Event {
    Event(id % 0x1_0000_0000, f.priority, TCP, now, f.topic, f.payload)
  }

  predicate FromFrame(e: Event, f: Frame) {
    e.priority == f.priority && e.source == TCP && e.topic == f.topic && e.body == f.payload
  }

  datatype Move =
    | Receive(p: nat, chunk: seq<byte>)
    | Push(p: nat, now: nat, spot: MpscSteps.Addr)
    | Dispatch
    | Consume(q: BusSteps.QueueId)
    | Drop(q: BusSteps.QueueId)

  predicate Resting(s: System, p: nat) {
    p < |s.conns| && p < |s.queue.producers| && s.queue.producers[p].Idle?
  }

  /** A thread receives again when all it has cut is pushed or refused. */
  function ReceiveStep(s: System, p: nat, chunk: seq<byte>): System {
    if Resting(s, p) && s.conns[p].offered == |Delivered(s.conns[p])| && s.conns[p].stream.open then
      var c := s.conns[p];
      s.(conns := s.conns[p := c.(wire := c.wire + chunk, stream := Feed(c.stream, chunk))])
    else s
  }

  function Offer(s: System, p: nat, now: nat): Item
    requires p < |s.conns| && s.conns[p].offered < |Delivered(s.conns[p])|
  {
    var k := s.conns[p].offered;
    Item(p, k, EventOf(Delivered(s.conns[p])[k], s.nextId, now))
  }

  /** An idle thread starts the push of its next frame's event; one inside push goes on. */
  function PushStep(s: System, p: nat, now: nat, spot: MpscSteps.Addr): System {
    if Resting(s, p) then
      if s.conns[p].offered < |Delivered(s.conns[p])| then
        var item := Offer(s, p, now);
        var t := s.(conns := s.conns[p := s.conns[p].(offered := s.conns[p].offered + 1)], nextId := s.nextId + 1,
                    queue := MpscSteps.PushStep(s.queue, p, item, spot));
        if t.queue.producers[p].Idle? then t.(refused := s.refused + [item]) else t
      else s
    else if p < |s.queue.producers| then
      s.(queue := MpscSteps.PushStep(s.queue, p, Item(p, 0, Event(0, BATCH, TCP, 0, [], [])), spot))
    else s
  }

  /** The dispatch thread pops until it has an event, and then tries to place it on the bus. */
  function DispatchStep(table: BusSteps.TopicTable, s: System): System {
    match s.bus.work
    case Idle =>
      var t := s.(queue := MpscSteps.PopStep(s.queue));
      if s.queue.consumer.Deleted? then t.(bus := BusSteps.TakeStep(table, s.bus, s.queue.consumer.item.event))
      else t
    case Trying(_, _, _) => s.(bus := BusSteps.TryStep(s.bus))
    case Waiting(_, _) => s.(bus := BusSteps.WaitStep(s.bus))
  }

  function Step(table: BusSteps.TopicTable, s: System, m: Move): System {
    match m
    case Receive(p, chunk) => ReceiveStep(s, p, chunk)
    case Push(p, now, spot) => PushStep(s, p, now, spot)
    case Dispatch => DispatchStep(table, s)
    case Consume(q) => s.(bus := BusSteps.ConsumeStep(s.bus, q))
    case Drop(q) => s.(bus := BusSteps.DropStep(s.bus, q))
  }

  function Run(table: BusSteps.TopicTable, s: System, schedule: seq<Move>): System
    decreases |schedule|
  {
    if schedule == [] then s else Run(table, Step(table, s, schedule[0]), schedule[1..])
  }

  function Init(capacity: nat, n: nat, dummy: MpscSteps.Addr): System {
    System(seq(n, _ => Connection([], START, 0)), MpscSteps.Init(capacity, n, dummy), BusSteps.Init(), 0, [])
  }

  // ---------------------------------------------------------------- from the wire to the queue

  /** The item a thread has on its way into the queue. */
  function OnItsWay(q: Queue, p: nat): Option<Item> {
    if p >= |q.producers| then None
    else
      match q.producers[p]
      case Admitted(x) => Some(x)
      case Created(n) => if n in q.heap then q.heap[n].data else None
      case _ => None
  }

  // What of a system concerns its connections, with the queue reduced to what was pushed.
  datatype Intake = Intake(conns: seq<Connection>, pushed: seq<Item>, flight: seq<Option<Item>>, refused: seq<Item>)

  function IntakeOf(s: System): (v: Intake)
    ensures |v.flight| == |s.conns|
  {
    var flight := seq(|s.conns|, p requires 0 <= p < |s.conns| => OnItsWay(s.queue, p));
    Intake(s.conns, s.queue.history.pushed, flight, s.refused)
  }

  /** The item is of the frame its tag says, one of those offered so far. */
  predicate Right(conns: seq<Connection>, x: Item) {
    && x.conn < |conns| && x.place < conns[x.conn].offered <= |Delivered(conns[x.conn])|
    && FromFrame(x.event, Delivered(conns[x.conn])[x.place])
  }

  predicate Differ(x: Item, y: Item) {
    x.conn != y.conn || x.place != y.place
  }

  /** Items of one connection in the order of its frames, no frame twice. */
  predicate WireOrder(items: seq<Item>) {
    forall i, j :: 0 <= i < j < |items| && items[i].conn == items[j].conn ==> items[i].place < items[j].place
  }

  /** How many of the items are of connection c. */
  function Count(items: seq<Item>, c: nat): nat {
    if items == [] then 0
    else Count(items[..|items| - 1], c) + if items[|items| - 1].conn == c then 1 else 0
  }

  lemma CountGrows(items: seq<Item>, x: Item, c: nat)
    ensures Count(items + [x], c) == Count(items, c) + if x.conn == c then 1 else 0
  {
    assert (items + [x])[..|items|] == items;
  }

  ghost predicate FlightOk(v: Intake, p: nat)
    requires p < |v.flight| == |v.conns|
  {
    v.flight[p].Some? ==>
      var x := v.flight[p].value;
      && Right(v.conns, x) && x.conn == p && x.place == v.conns[p].offered - 1
      && (forall i :: 0 <= i < |v.pushed| ==> Differ(v.pushed[i], x))
      && (forall j :: 0 <= j < |v.refused| ==> Differ(v.refused[j], x))
  }

  ghost predicate TagsOk(v: Intake) {
    && (forall i :: 0 <= i < |v.pushed| ==> Right(v.conns, v.pushed[i]))
    && (forall j :: 0 <= j < |v.refused| ==> Right(v.conns, v.refused[j]))
    && WireOrder(v.pushed) && WireOrder(v.refused)
    && (forall i, j :: 0 <= i < |v.pushed| && 0 <= j < |v.refused| ==> Differ(v.pushed[i], v.refused[j]))
  }

  /** Each frame offered was pushed, or refused, or is on its way, and is counted once. */
  ghost predicate Balanced(v: Intake, c: nat)
    requires c < |v.flight| == |v.conns|
  {
    Count(v.pushed, c) + Count(v.refused, c) + (if v.flight[c].Some? then 1 else 0) == v.conns[c].offered
  }

  predicate StreamOk(c: Connection) {
    c.stream == Feed(START, c.wire) && c.offered <= |Delivered(c)|
  }

  ghost predicate IntakeOk(v: Intake) {
    && |v.flight| == |v.conns|
    && TagsOk(v)
    && (forall p :: 0 <= p < |v.conns| ==> FlightOk(v, p) && Balanced(v, p) && StreamOk(v.conns[p]))
  }

  lemma DeliveredGrows(c: Connection, chunk: seq<byte>)
    ensures Delivered(c) <= Delivered(c.(stream := Feed(c.stream, chunk)))
  {
    hide Scan;
    var p := Scan(c.stream.buffer + chunk, c.stream.empties);
    if c.stream.open {
      AcceptedConcat(c.stream.frames, p.frames);
    }
  }

  // A connection receives more bytes.
  lemma ReceiveKeeps(v: Intake, p: nat, chunk: seq<byte>)
    requires IntakeOk(v) && p < |v.conns|
    ensures var c := v.conns[p];
            IntakeOk(v.(conns := v.conns[p := c.(wire := c.wire + chunk, stream := Feed(c.stream, chunk))]))
  {
    hide Accepted, Feed, Count;
    var c := v.conns[p];
    FeedSplit(START, c.wire, chunk);
    DeliveredGrows(c, chunk);
    var v' := v.(conns := v.conns[p := c.(wire := c.wire + chunk, stream := Feed(c.stream, chunk))]);
    assert forall x :: Right(v.conns, x) ==> Right(v'.conns, x);
    hide Right;
    forall r | 0 <= r < |v'.conns| ensures FlightOk(v', r) && Balanced(v', r) && StreamOk(v'.conns[r]) {
      assert FlightOk(v, r) && Balanced(v, r) && StreamOk(v.conns[r]);
    }
  }

  function Offered(conns: seq<Connection>, p: nat): seq<Connection>
    requires p < |conns|
  {
    conns[p := conns[p].(offered := conns[p].offered + 1)]
  }

  // The next frame of a connection gets its tag.
  lemma OfferIsNew(v: Intake, p: nat, x: Item)
    requires IntakeOk(v) && p < |v.conns| && v.conns[p].offered < |Delivered(v.conns[p])|
    requires x.conn == p && x.place == v.conns[p].offered && FromFrame(x.event, Delivered(v.conns[p])[x.place])
    ensures var conns := Offered(v.conns, p);
            && Right(conns, x) && TagsOk(v.(conns := conns))
            && (forall i :: 0 <= i < |v.pushed| ==> Differ(v.pushed[i], x))
            && (forall j :: 0 <= j < |v.refused| ==> Differ(v.refused[j], x))
            && (forall r :: 0 <= r < |v.conns| ==> StreamOk(conns[r]))
            && (forall r :: 0 <= r < |v.conns| && r != p ==>
                  FlightOk(v.(conns := conns), r) && Balanced(v.(conns := conns), r))
  {
    hide Accepted, Feed, Count;
    var conns := Offered(v.conns, p);
    assert StreamOk(v.conns[p]);
    assert forall y :: Right(v.conns, y) ==> Right(conns, y);
    forall r | 0 <= r < |v.conns| ensures StreamOk(conns[r]) {
      assert StreamOk(v.conns[r]);
    }
    forall r | 0 <= r < |v.conns| && r != p ensures FlightOk(v.(conns := conns), r) && Balanced(v.(conns := conns), r) {
      assert FlightOk(v, r) && Balanced(v, r);
    }
  }

  lemma AdmitKeeps(v: Intake, p: nat, x: Item)
    requires IntakeOk(v) && p < |v.conns| && v.conns[p].offered < |Delivered(v.conns[p])| && v.flight[p].None?
    requires x.conn == p && x.place == v.conns[p].offered && FromFrame(x.event, Delivered(v.conns[p])[x.place])
    ensures IntakeOk(v.(conns := Offered(v.conns, p), flight := v.flight[p := Some(x)]))
  {
    hide Accepted, Feed, Count, Right, Differ, WireOrder, StreamOk;
    OfferIsNew(v, p, x);
    assert Balanced(v, p);
    var t, v' := v.(conns := Offered(v.conns, p)), v.(conns := Offered(v.conns, p), flight := v.flight[p := Some(x)]);
    forall r | 0 <= r < |v.conns| ensures FlightOk(v', r) && Balanced(v', r) {
      assert r != p ==> FlightOk(t, r) && Balanced(t, r);
    }
  }

  lemma RefuseKeeps(v: Intake, p: nat, x: Item)
    requires IntakeOk(v) && p < |v.conns| && v.conns[p].offered < |Delivered(v.conns[p])| && v.flight[p].None?
    requires x.conn == p && x.place == v.conns[p].offered && FromFrame(x.event, Delivered(v.conns[p])[x.place])
    ensures IntakeOk(v.(conns := Offered(v.conns, p), refused := v.refused + [x]))
  {
    hide Accepted, Feed, Count, StreamOk;
    OfferIsNew(v, p, x);
    var t, v' := v.(conns := Offered(v.conns, p)), v.(conns := Offered(v.conns, p), refused := v.refused + [x]);
    assert WireOrder(v'.refused);
    forall r | 0 <= r < |v.conns| ensures FlightOk(v', r) && Balanced(v', r) {
      CountGrows(v.refused, x, r);
      assert FlightOk(v, r) && Balanced(v, r);
      assert r != p ==> FlightOk(t, r) && Balanced(t, r);
    }
  }

  // The exchange of a push: what was on its way is in the queue.
  lemma PublishKeeps(v: Intake, p: nat)
    requires IntakeOk(v) && p < |v.conns| && v.flight[p].Some?
    ensures IntakeOk(v.(pushed := v.pushed + [v.flight[p].value], flight := v.flight[p := None]))
  {
    hide Accepted, Feed, Count, StreamOk;
    var x := v.flight[p].value;
    var v' := v.(pushed := v.pushed + [x], flight := v.flight[p := None]);
    assert FlightOk(v, p);
    assert WireOrder(v'.pushed);
    forall r | 0 <= r < |v.conns| ensures FlightOk(v', r) && Balanced(v', r) {
      CountGrows(v.pushed, x, r);
      assert FlightOk(v, r) && Balanced(v, r);
    }
  }

  // ---------------------------------------------------------------- the queue's steps

  // A step of producer p leaves what others have on their way.
  lemma PushLeavesFlight(q: Queue, p: nat, item: Item, spot: MpscSteps.Addr, r: nat)
    requires MpscSteps.Inv(q) && p < |q.producers| && r != p
    ensures OnItsWay(MpscSteps.PushStep(q, p, item, spot), r) == OnItsWay(q, r)
  {
    hide MpscSteps.Chained, MpscSteps.DataOk, MpscSteps.PrefixOk, MpscSteps.NoLeak, MpscSteps.SizeOk;
    if r < |q.producers| {
      assert MpscSteps.ProducerOk(q, p) && MpscSteps.ProducerOk(q, r);
    }
  }

  lemma PopLeavesFlight(q: Queue, r: nat)
    requires MpscSteps.Inv(q)
    ensures OnItsWay(MpscSteps.PopStep(q), r) == OnItsWay(q, r)
  {
    hide MpscSteps.DataOk, MpscSteps.PrefixOk, MpscSteps.NoLeak, MpscSteps.SizeOk, MpscSteps.LinkOk;
    if r < |q.producers| {
      assert MpscSteps.ProducerOk(q, r);
    }
  }

  // What producer p's own step does to its item and to the items pushed.
  lemma PushMovesFlight(q: Queue, p: nat, item: Item, spot: MpscSteps.Addr)
    requires MpscSteps.Inv(q) && p < |q.producers|
    ensures var q', x := MpscSteps.PushStep(q, p, item, spot), OnItsWay(q, p);
            && |q'.producers| == |q.producers| && q'.history.returned == q.history.returned
            && (q.producers[p].Idle? ==>
                  && x.None? && q'.history.pushed == q.history.pushed
                  && OnItsWay(q', p) == if q'.producers[p].Idle? then None else Some(item))
            && (q.producers[p].Created? ==>
                  x.Some? && q'.history.pushed == q.history.pushed + [x.value] && OnItsWay(q', p).None?)
            && (!q.producers[p].Idle? && !q.producers[p].Created? ==>
                  q'.history.pushed == q.history.pushed && OnItsWay(q', p) == x)
  {
    hide MpscSteps.Chained, MpscSteps.DataOk, MpscSteps.PrefixOk, MpscSteps.NoLeak, MpscSteps.SizeOk;
    assert MpscSteps.ProducerOk(q, p);
  }

  // ---------------------------------------------------------------- what every step keeps

  /** The dispatcher has taken exactly what its pops returned. */
  ghost predicate Taken(s: System) {
    && |s.bus.seen| == |s.queue.history.returned|
    && (forall i :: 0 <= i < |s.bus.seen| ==> s.bus.seen[i] == s.queue.history.returned[i].event)
  }

  ghost predicate Inv(s: System) {
    && |s.queue.producers| == |s.conns|
    && MpscSteps.Inv(s.queue)
    && BusSteps.Inv(s.bus)
    && IntakeOk(IntakeOf(s))
    && Taken(s)
  }

  lemma SameIntake(s: System, v: Intake)
    requires |v.flight| == |s.conns| && v.conns == s.conns && v.refused == s.refused
    requires v.pushed == s.queue.history.pushed
    requires forall r :: 0 <= r < |s.conns| ==> v.flight[r] == OnItsWay(s.queue, r)
    ensures IntakeOf(s) == v
  {
    hide OnItsWay;
  }

  lemma ReceiveKeepsInv(s: System, p: nat, chunk: seq<byte>)
    requires Inv(s)
    ensures Inv(ReceiveStep(s, p, chunk))
  {
    hide MpscSteps.Inv, BusSteps.Inv, IntakeOk, Feed, Accepted, OnItsWay;
    var s', v := ReceiveStep(s, p, chunk), IntakeOf(s);
    if s' != s {
      ReceiveKeeps(v, p, chunk);
      SameIntake(s', v.(conns := s'.conns));
    }
  }

  // A step of a thread inside push: at its exchange the item is pushed, else nothing changes.
  lemma GoOnKeepsInv(s: System, p: nat, item: Item, spot: MpscSteps.Addr)
    requires Inv(s) && p < |s.queue.producers| && !s.queue.producers[p].Idle?
    ensures Inv(s.(queue := MpscSteps.PushStep(s.queue, p, item, spot)))
  {
    hide MpscSteps.Inv, BusSteps.Inv, IntakeOk, OnItsWay, MpscSteps.PushStep;
    var q, v := s.queue, IntakeOf(s);
    var s' := s.(queue := MpscSteps.PushStep(q, p, item, spot));
    MpscSteps.PushKeepsInv(q, p, item, spot);
    PushMovesFlight(q, p, item, spot);
    forall r | 0 <= r < |s.conns| && r != p ensures OnItsWay(s'.queue, r) == OnItsWay(q, r) {
      PushLeavesFlight(q, p, item, spot, r);
    }
    if q.producers[p].Created? {
      PublishKeeps(v, p);
      SameIntake(s', v.(pushed := v.pushed + [v.flight[p].value], flight := v.flight[p := None]));
    } else {
      SameIntake(s', v);
    }
  }

  lemma OfferKeepsInv(s: System, p: nat, now: nat, spot: MpscSteps.Addr)
    requires Inv(s) && Resting(s, p) && s.conns[p].offered < |Delivered(s.conns[p])|
    ensures Inv(PushStep(s, p, now, spot))
  {
    hide MpscSteps.Inv, BusSteps.Inv, IntakeOk, OnItsWay, MpscSteps.PushStep, Accepted;
    var q, v, item, s' := s.queue, IntakeOf(s), Offer(s, p, now), PushStep(s, p, now, spot);
    MpscSteps.PushKeepsInv(q, p, item, spot);
    PushMovesFlight(q, p, item, spot);
    forall r | 0 <= r < |s.conns| && r != p ensures OnItsWay(s'.queue, r) == OnItsWay(q, r) {
      PushLeavesFlight(q, p, item, spot, r);
    }
    if s'.queue.producers[p].Idle? {
      RefuseKeeps(v, p, item);
      SameIntake(s', v.(conns := s'.conns, refused := s'.refused));
    } else {
      AdmitKeeps(v, p, item);
      SameIntake(s', v.(conns := s'.conns, flight := v.flight[p := Some(item)]));
    }
  }

  lemma PushKeepsInv(s: System, p: nat, now: nat, spot: MpscSteps.Addr)
    requires Inv(s)
    ensures Inv(PushStep(s, p, now, spot))
  {
    hide Inv, MpscSteps.PushStep;
    SameThreads(s);
    if Resting(s, p) {
      if s.conns[p].offered < |Delivered(s.conns[p])| {
        OfferKeepsInv(s, p, now, spot);
      }
    } else if p < |s.queue.producers| {
      GoOnKeepsInv(s, p, Item(p, 0, Event(0, BATCH, TCP, 0, [], [])), spot);
    }
  }

  lemma SameThreads(s: System)
    requires Inv(s)
    ensures |s.queue.producers| == |s.conns|
  {}

  // What the consumer's step does to the items returned.
  lemma PopReturns(q: Queue)
    ensures var q' := MpscSteps.PopStep(q);
            && q'.producers == q.producers && q'.history.pushed == q.history.pushed
            && q'.history.returned == q.history.returned + if q.consumer.Deleted? then [q.consumer.item] else []
  {}

  lemma TakeSees(table: BusSteps.TopicTable, b: BusSteps.Machine, e: Event)
    requires b.work.Idle?
    ensures BusSteps.TakeStep(table, b, e).seen == b.seen + [e]
  {}

  lemma PopKeepsInv(table: BusSteps.TopicTable, s: System)
    requires Inv(s) && s.bus.work.Idle?
    ensures Inv(DispatchStep(table, s))
  {
    hide MpscSteps.Inv, BusSteps.Inv, IntakeOk, OnItsWay, MpscSteps.PopStep, BusSteps.TakeStep;
    var s' := DispatchStep(table, s);
    MpscSteps.PopKeepsInv(s.queue);
    PopReturns(s.queue);
    forall r | 0 <= r < |s.conns| ensures OnItsWay(s'.queue, r) == OnItsWay(s.queue, r) {
      PopLeavesFlight(s.queue, r);
    }
    SameIntake(s', IntakeOf(s));
    if s.queue.consumer.Deleted? {
      var e := s.queue.consumer.item.event;
      BusSteps.StepKeepsInv(table, s.bus, BusSteps.Take(e));
      TakeSees(table, s.bus, e);
    }
  }

  // A step of the bus alone takes no event.
  lemma BusKeepsInv(table: BusSteps.TopicTable, s: System, m: BusSteps.Move)
    requires Inv(s) && !m.Take?
    ensures Inv(s.(bus := BusSteps.Step(table, s.bus, m)))
  {
    hide MpscSteps.Inv, BusSteps.Inv, IntakeOk, OnItsWay, BusSteps.Step;
    BusSteps.StepKeepsInv(table, s.bus, m);
    BusSeesNothing(table, s.bus, m);
    SameIntake(s.(bus := BusSteps.Step(table, s.bus, m)), IntakeOf(s));
  }

  lemma BusSeesNothing(table: BusSteps.TopicTable, b: BusSteps.Machine, m: BusSteps.Move)
    requires !m.Take?
    ensures BusSteps.Step(table, b, m).seen == b.seen
  {
    hide BusSteps.Dropped, BusSteps.Level, BusSteps.Full;
  }

  lemma StepKeepsInv(table: BusSteps.TopicTable, s: System, m: Move)
    requires Inv(s)
    ensures Inv(Step(table, s, m))
  {
    hide Inv, ReceiveStep, PushStep, MpscSteps.PopStep;
    match m
    case Receive(p, chunk) => ReceiveKeepsInv(s, p, chunk);
    case Push(p, now, spot) => PushKeepsInv(s, p, now, spot);
    case Dispatch =>
      match s.bus.work {
        case Idle => PopKeepsInv(table, s);
        case Trying(_, _, _) => BusKeepsInv(table, s, BusSteps.Try);
        case Waiting(_, _) => BusKeepsInv(table, s, BusSteps.WaitOver);
      }
    case Consume(q) => BusKeepsInv(table, s, BusSteps.Consume(q));
    case Drop(q) => BusKeepsInv(table, s, BusSteps.Drop(q));
  }

  lemma {:induction false} RunKeepsInv(table: BusSteps.TopicTable, s: System, schedule: seq<Move>)
    requires Inv(s)
    ensures Inv(Run(table, s, schedule))
    decreases |schedule|
  {
    if schedule != [] {
      hide Inv, Step;
      StepKeepsInv(table, s, schedule[0]);
      RunKeepsInv(table, Step(table, s, schedule[0]), schedule[1..]);
    }
  }

  lemma InitInv(capacity: nat, n: nat, dummy: MpscSteps.Addr)
    requires capacity + n < WORD
    ensures Inv(Init(capacity, n, dummy))
  {
    MpscSteps.InitInv<Item>(capacity, n, dummy);
    BusSteps.InitInv();
    hide MpscSteps.Inv, BusSteps.Inv;
    NothingScanned();
  }

  lemma NothingScanned()
    ensures Feed(START, []) == START && Accepted(START.frames) == []
  {
    var none: seq<byte> := [];
    assert none + none == none;
  }

  // ---------------------------------------------------------------- from the queue to the bus

  /** The items behind the events that queue q admitted, in the order it admitted them. */
  function Came(ledger: seq<BusSteps.Entry>, items: seq<Item>, q: BusSteps.QueueId): seq<Item>
    requires |ledger| <= |items|
  {
    if ledger == [] then []
    else
      var last := |ledger| - 1;
      Came(ledger[..last], items, q) + if ledger[last].q == q && ledger[last].accepted then [items[last]] else []
  }

  lemma {:induction false} CameIsAdmitted(ledger: seq<BusSteps.Entry>, items: seq<Item>, q: BusSteps.QueueId)
    requires |ledger| <= |items|
    requires forall i :: 0 <= i < |ledger| ==> BusSteps.SameButPriority(items[i].event, ledger[i].event)
    ensures var came, admitted := Came(ledger, items, q), BusSteps.Admitted(ledger, q);
            && |came| == |admitted|
            && (forall k :: 0 <= k < |came| ==> BusSteps.SameButPriority(came[k].event, admitted[k]))
    decreases |ledger|
  {
    hide BusSteps.SameButPriority;
    if ledger != [] {
      CameIsAdmitted(ledger[..|ledger| - 1], items, q);
    }
  }

  ghost predicate Among(x: Item, items: seq<Item>, n: nat) {
    exists i :: 0 <= i < n && i < |items| && items[i] == x
  }

  lemma {:induction false} CameFrom(ledger: seq<BusSteps.Entry>, items: seq<Item>, q: BusSteps.QueueId, k: nat)
    requires |ledger| <= |items| && k < |Came(ledger, items, q)|
    ensures Among(Came(ledger, items, q)[k], items, |ledger|)
    decreases |ledger|
  {
    var last := |ledger| - 1;
    var front := ledger[..last];
    if k < |Came(front, items, q)| {
      CameFrom(front, items, q, k);
      assert Came(ledger, items, q)[k] == Came(front, items, q)[k];
    } else {
      assert Came(ledger, items, q)[k] == items[last];
    }
  }

  lemma {:induction false} CameInOrder(ledger: seq<BusSteps.Entry>, items: seq<Item>, q: BusSteps.QueueId)
    requires |ledger| <= |items| && WireOrder(items)
    ensures WireOrder(Came(ledger, items, q))
    decreases |ledger|
  {
    if ledger != [] {
      var last := |ledger| - 1;
      var front := ledger[..last];
      var before := Came(front, items, q);
      CameInOrder(front, items, q);
      forall k | 0 <= k < |before| && before[k].conn == items[last].conn
        ensures before[k].place < items[last].place
      {
        CameFrom(front, items, q, k);
      }
    }
  }

  // ---------------------------------------------------------------- the theorems

  /**
    However the bytes of each connection are cut and all threads interleave: what left bus queue q,
    followed by what it holds, are events of frames of the connections' bytes, changed in priority
    at most, and those of one connection come in the order of its frames, no frame twice.
   */
  lemma BusKeepsWireOrder(
      table: BusSteps.TopicTable, capacity: nat, n: nat, dummy: MpscSteps.Addr, schedule: seq<Move>,
      q: BusSteps.QueueId)
    requires capacity + n < WORD
    ensures var s := Run(table, Init(capacity, n, dummy), schedule);
            && |s.bus.ledger| <= |s.queue.history.returned|
            && (var came := Came(s.bus.ledger, s.queue.history.returned, q);
                var events := BusSteps.Left(s.bus.removals, q) + BusSteps.Queue(s.bus.bus, q);
                && |came| == |events| && WireOrder(came)
                && (forall k :: 0 <= k < |came| ==>
                      && BusSteps.SameButPriority(came[k].event, events[k])
                      && OfItsFrame(s.conns, came[k])))
  {
    hide Run, Came, BusSteps.Left, BusSteps.Admitted, Count;
    InitInv(capacity, n, dummy);
    RunKeepsInv(table, Init(capacity, n, dummy), schedule);
    var s := Run(table, Init(capacity, n, dummy), schedule);
    SystemOrder(s);
    BusOrder(s.bus, q);
    var items := s.queue.history.returned;
    CameIsAdmitted(s.bus.ledger, items, q);
    CameInOrder(s.bus.ledger, items, q);
    var came := Came(s.bus.ledger, items, q);
    forall k | 0 <= k < |came| ensures OfItsFrame(s.conns, came[k]) {
      CameFrom(s.bus.ledger, items, q, k);
    }
  }

  /** The item's event is that of frame `place` of all the bytes its connection has received. */
  predicate OfItsFrame(conns: seq<Connection>, x: Item) {
    && x.conn < |conns|
    && var frames := Accepted(Feed(START, conns[x.conn].wire).frames);
       x.place < |frames| && FromFrame(x.event, frames[x.place])
  }

  // What the dispatcher was given, in order and of the right frames.
  lemma SystemOrder(s: System)
    requires Inv(s)
    ensures var items := s.queue.history.returned;
            && |s.bus.ledger| <= |items| && WireOrder(items)
            && (forall x :: x in items ==> OfItsFrame(s.conns, x))
            && (forall i :: 0 <= i < |s.bus.ledger| ==> BusSteps.SameButPriority(items[i].event, s.bus.ledger[i].event))
  {
    hide MpscSteps.Chained, MpscSteps.ProducersOk, MpscSteps.DataOk, MpscSteps.NoLeak, MpscSteps.SizeOk;
    hide BusSteps.Conserved, BusSteps.InOrder, BusSteps.FatesOk, BusSteps.PressureOk, Count, Accepted, Feed;
    var items, v := s.queue.history.returned, IntakeOf(s);
    assert items <= v.pushed;
    assert s.bus.seen == s.bus.seen[..|items|];
    forall x | x in items ensures OfItsFrame(s.conns, x) {
      var i :| 0 <= i < |items| && items[i] == x;
      assert Right(v.conns, v.pushed[i]) && StreamOk(v.conns[x.conn]);
    }
  }

  lemma BusOrder(b: BusSteps.Machine, q: BusSteps.QueueId)
    requires BusSteps.Inv(b)
    ensures BusSteps.Admitted(b.ledger, q) == BusSteps.Left(b.removals, q) + BusSteps.Queue(b.bus, q)
  {
    assert BusSteps.InOrder(b, q);
  }

  /**
    Of connection c, the frames offered are those pushed, those refused and the one on its way, and
    no frame is two of these. The dispatcher has seen a prefix of what was pushed.
   */
  ghost predicate FramesAccounted(s: System, c: nat)
    requires c < |s.conns|
  {
    var pushed, flight := s.queue.history.pushed, OnItsWay(s.queue, c);
    && Count(pushed, c) + Count(s.refused, c) + (if flight.Some? then 1 else 0) == s.conns[c].offered
    && WireOrder(pushed) && WireOrder(s.refused)
    && (forall x, y :: x in pushed && y in s.refused ==> Differ(x, y))
    && (flight.Some? ==> flight.value.conn == c && forall x :: x in pushed + s.refused ==> Differ(x, flight.value))
    && s.queue.history.returned <= pushed
    && |s.queue.history.returned| == |s.bus.seen| == |s.bus.ledger| + |BusSteps.InHand(s.bus.work)|
  }

  /** No frame is lost or doubled on its way to the dispatcher, and every event it saw is settled or in hand. */
  lemma EveryFrameAccounted(
      table: BusSteps.TopicTable, capacity: nat, n: nat, dummy: MpscSteps.Addr, schedule: seq<Move>, c: nat)
    requires capacity + n < WORD && c < |Run(table, Init(capacity, n, dummy), schedule).conns|
    ensures FramesAccounted(Run(table, Init(capacity, n, dummy), schedule), c)
  {
    hide Run, Count;
    InitInv(capacity, n, dummy);
    RunKeepsInv(table, Init(capacity, n, dummy), schedule);
    AccountsHold(Run(table, Init(capacity, n, dummy), schedule), c);
  }

  lemma AccountsHold(s: System, c: nat)
    requires Inv(s) && c < |s.conns|
    ensures FramesAccounted(s, c)
  {
    hide MpscSteps.Chained, MpscSteps.ProducersOk, MpscSteps.DataOk, MpscSteps.NoLeak, MpscSteps.SizeOk;
    hide BusSteps.Conserved, BusSteps.InOrder, BusSteps.FatesOk, BusSteps.PressureOk, Count, OnItsWay, Right;
    var v := IntakeOf(s);
    assert FlightOk(v, c) && Balanced(v, c);
    assert v.flight[c] == OnItsWay(s.queue, c);
  }
}
