/**
  Dispatcher and event bus as one state machine: one dispatch thread, consumers that pop from
  any queue and a control plane that drops batches, interleaved at whole bus calls. A wait on a
  full transactional queue releases the lock, so it is two steps.
 */
module BusSteps {
  import opened Wrappers
  import opened Bytes
  import opened Frames
  import opened Events

  const RING_CAPACITY := 16384
  const DROP_BATCH_SIZE := 64
  const MAX_RETRIES := 3

  datatype QueueId = REALTIME | TRANSACTIONAL | BATCH
  datatype PressureLevel = NORMAL | HIGH | CRITICAL

  /** A ring keeps one slot empty. */
  function Capacity(q: QueueId): nat {
    match q
    case REALTIME => RING_CAPACITY - 1
    case TRANSACTIONAL => 131072
    case BATCH => 32768
  }

  datatype Bus = Bus(
    realtime: seq<Event>, transactional: seq<Event>, batch: seq<Event>,
    pressure: PressureLevel, dead: seq<Event>)

  function Queue(b: Bus, q: QueueId): seq<Event> {
    match q
    case REALTIME => b.realtime
    case TRANSACTIONAL => b.transactional
    case BATCH => b.batch
  }

  function WithQueue(b: Bus, q: QueueId, s: seq<Event>): (b': Bus)
    ensures Queue(b', q) == s && b'.pressure == b.pressure && b'.dead == b.dead
    ensures forall p :: p != q ==> Queue(b', p) == Queue(b, p)
  {
    match q
    case REALTIME => b.(realtime := s)
    case TRANSACTIONAL => b.(transactional := s)
    case BATCH => b.(batch := s)
  }

  predicate Full(b: Bus, q: QueueId) {
    |Queue(b, q)| >= Capacity(q)
  }

  // ---------------------------------------------------------------- calls on the bus

  function Level(used: nat): PressureLevel {
    if used >= 14000 then PressureLevel.CRITICAL else if used >= 12000 then PressureLevel.HIGH else NORMAL
  }

  datatype Outcome = Accepted | Refused | Waits

  function Push(b: Bus, q: QueueId, e: Event): (Bus, Outcome) {
    match q
    case REALTIME =>
      var b1 := b.(pressure := Level(|b.realtime|));
      if |b.realtime| < RING_CAPACITY - 1 then (b1.(realtime := b.realtime + [e]), Accepted)
      else (b1.(realtime := b.realtime[1..] + [e], dead := b.dead + [b.realtime[0]]), Accepted)
    case TRANSACTIONAL =>
      if Full(b, q) then (b, Waits) else (b.(transactional := b.transactional + [e]), Accepted)
    case BATCH =>
      if Full(b, q) then (b, Refused) else (b.(batch := b.batch + [e]), Accepted)
  }

  /** The end of the timed wait: the condition is looked at once more under the lock. */
  function EndWait(b: Bus, e: Event): (Bus, bool) {
    if Full(b, TRANSACTIONAL) then (b, false) else (b.(transactional := b.transactional + [e]), true)
  }

  function Pop(b: Bus, q: QueueId): (Bus, Option<Event>) {
    if Queue(b, q) == [] then (b, None) else (WithQueue(b, q, Queue(b, q)[1..]), Some(Queue(b, q)[0]))
  }

  function DropCount(b: Bus, q: QueueId): (n: nat)
    ensures n <= |Queue(b, q)|
  {
    if |Queue(b, q)| < DROP_BATCH_SIZE then |Queue(b, q)| else DROP_BATCH_SIZE
  }

  function DropBatch(b: Bus, q: QueueId): Bus {
    var n := DropCount(b, q);
    WithQueue(b, q, Queue(b, q)[n..]).(dead := b.dead + Queue(b, q)[..n])
  }

  // ---------------------------------------------------------------- routing

  type TopicTable = Option<map<seq<byte>, Priority>>

  /** What the table asks for; a topic it does not list, or no table at all, asks for MEDIUM. */
  function Wanted(table: TopicTable, topic: seq<byte>): Priority {
    if table.Some? && topic in table.value then table.value[topic] else MEDIUM
  }

  function Raise(table: TopicTable, e: Event): Event {
    var wanted := Wanted(table, e.topic);
    if Rank(e.priority) < Rank(wanted) then e.(priority := wanted) else e
  }

  function Adapt(pressure: PressureLevel, e: Event): Event {
    if pressure == PressureLevel.CRITICAL then
      if e.priority == Priority.HIGH then e.(priority := MEDIUM) else e
    else if pressure == PressureLevel.HIGH then
      if e.priority == Priority.HIGH then e.(priority := MEDIUM) else e
    else e
  }

  function Target(e: Event): QueueId {
    if e.priority == Priority.CRITICAL || e.priority == Priority.HIGH then REALTIME
    else if e.priority == MEDIUM || e.priority == LOW then TRANSACTIONAL
    else QueueId.BATCH
  }

  function Routed(table: TopicTable, b: Bus, e: Event): Event {
    Adapt(b.pressure, Raise(table, e))
  }

  /** Where an event goes, in terms of what the client and the topic table asked for. */
  lemma RouteMeaning(table: TopicTable, b: Bus, e: Event)
    ensures var wanted, r := Wanted(table, e.topic), Routed(table, b, e);
            && (Target(r) == REALTIME <==>
                  || e.priority == Priority.CRITICAL || wanted == Priority.CRITICAL
                  || ((e.priority == Priority.HIGH || wanted == Priority.HIGH) && b.pressure == NORMAL))
            && (Target(r) == QueueId.BATCH <==> e.priority == Priority.BATCH && wanted == Priority.BATCH)
            && e.(priority := r.priority) == r
            && (Rank(r.priority) < Rank(e.priority) ==> e.priority == Priority.HIGH && r.priority == MEDIUM)
            && (Rank(r.priority) >= Rank(wanted) || (wanted == Priority.HIGH && r.priority == MEDIUM))
            && (r.priority == e.priority || r.priority == wanted
                || (r.priority == MEDIUM && Priority.HIGH in {e.priority, wanted}))
  {}

  // ---------------------------------------------------------------- the machine

  datatype Work =
    | Idle
    | Trying(event: Event, q: QueueId, failures: nat)
    | Waiting(event: Event, failures: nat)         // inside the timed wait of a push

  /** What became of one event the dispatcher took: accepted by q, or given up. */
  datatype Entry = Entry(event: Event, q: QueueId, accepted: bool, failures: nat)

  /** One event that left queue q: popped by a consumer, or dropped to the dead letters. */
  datatype Removal = Removal(event: Event, q: QueueId, consumed: bool)

  datatype Machine = Machine(
    bus: Bus, work: Work,
    // history: events taken from the inbound queue, their fates, and what left the queues
    seen: seq<Event>, ledger: seq<Entry>, removals: seq<Removal>)

  datatype Move = Take(event: Event) | Try | WaitOver | Consume(q: QueueId) | Drop(q: QueueId)

  function Init(): Machine {
    Machine(Bus([], [], [], NORMAL, []), Idle, [], [], [])
  }

  function TakeStep(table: TopicTable, s: Machine, e: Event): Machine {
    if s.work.Idle? then
      var r := Routed(table, s.bus, e);
      s.(work := Trying(r, Target(r), 0), seen := s.seen + [e])
    else s
  }

  function Finish(s: Machine, e: Event, q: QueueId, accepted: bool, failures: nat): Machine {
    s.(work := Idle, ledger := s.ledger + [Entry(e, q, accepted, failures)])
  }

  /** One more failed push: try again, or give the event up to the dead letters. */
  function Failed(s: Machine, e: Event, q: QueueId, failures: nat): Machine {
    if failures + 1 < MAX_RETRIES then s.(work := Trying(e, q, failures + 1))
    else Finish(s.(bus := s.bus.(dead := s.bus.dead + [e])), e, q, false, failures + 1)
  }

  // What a realtime push on a full ring evicts.
  function Evicted(b: Bus, q: QueueId): seq<Removal> {
    if q == REALTIME && |b.realtime| >= RING_CAPACITY - 1 then [Removal(b.realtime[0], q, false)] else []
  }

  function TryStep(s: Machine): Machine {
    match s.work
    case Trying(e, q, n) =>
      var (b, outcome) := Push(s.bus, q, e);
      (match outcome
       case Accepted => Finish(s.(bus := b, removals := s.removals + Evicted(s.bus, q)), e, q, true, n)
       case Refused => Failed(s.(bus := b), e, q, n)
       case Waits => s.(bus := b, work := Waiting(e, n)))
    case _ => s
  }

  function WaitStep(s: Machine): Machine {
    match s.work
    case Waiting(e, n) =>
      var (b, ok) := EndWait(s.bus, e);
      if ok then Finish(s.(bus := b), e, TRANSACTIONAL, true, n)
      else Failed(s.(bus := b), e, TRANSACTIONAL, n)
    case _ => s
  }

  function ConsumeStep(s: Machine, q: QueueId): Machine {
    var (b, got) := Pop(s.bus, q);
    if got.Some? then s.(bus := b, removals := s.removals + [Removal(got.value, q, true)]) else s
  }

  function Dropped(events: seq<Event>, q: QueueId): (r: seq<Removal>) {
    if events == [] then [] else [Removal(events[0], q, false)] + Dropped(events[1..], q)
  }

  function DropStep(s: Machine, q: QueueId): Machine {
    s.(bus := DropBatch(s.bus, q),
       removals := s.removals + Dropped(Queue(s.bus, q)[..DropCount(s.bus, q)], q))
  }

  function Step(table: TopicTable, s: Machine, m: Move): Machine {
    match m
    case Take(e) => TakeStep(table, s, e)
    case Try => TryStep(s)
    case WaitOver => WaitStep(s)
    case Consume(q) => ConsumeStep(s, q)
    case Drop(q) => DropStep(s, q)
  }

  function Run(table: TopicTable, s: Machine, schedule: seq<Move>): Machine
    decreases |schedule|
  {
    if schedule == [] then s else Run(table, Step(table, s, schedule[0]), schedule[1..])
  }

  // ---------------------------------------------------------------- reading the history

  function InHand(w: Work): seq<Event> {
    match w
    case Idle => []
    case Trying(e, _, _) => [e]
    case Waiting(e, _) => [e]
  }

  /** The events bound for q, in the order the dispatcher settled them. */
  function BoundFor(ledger: seq<Entry>, q: QueueId): seq<Event> {
    if ledger == [] then []
    else
      var x := ledger[|ledger| - 1];
      BoundFor(ledger[..|ledger| - 1], q) + if x.q == q then [x.event] else []
  }

  function Admitted(ledger: seq<Entry>, q: QueueId): seq<Event> {
    if ledger == [] then []
    else
      var x := ledger[|ledger| - 1];
      Admitted(ledger[..|ledger| - 1], q) + if x.q == q && x.accepted then [x.event] else []
  }

  function Settled(ledger: seq<Entry>): seq<Event> {
    if ledger == [] then [] else Settled(ledger[..|ledger| - 1]) + [ledger[|ledger| - 1].event]
  }

  /** What left q, in order. */
  function Left(removals: seq<Removal>, q: QueueId): seq<Event> {
    if removals == [] then []
    else
      var x := removals[|removals| - 1];
      Left(removals[..|removals| - 1], q) + if x.q == q then [x.event] else []
  }

  /** What consumers got, in order. */
  function Consumed(removals: seq<Removal>): seq<Event> {
    if removals == [] then []
    else
      var x := removals[|removals| - 1];
      Consumed(removals[..|removals| - 1]) + if x.consumed then [x.event] else []
  }

  lemma LedgerGrows(ledger: seq<Entry>, x: Entry)
    ensures Settled(ledger + [x]) == Settled(ledger) + [x.event]
    ensures forall q :: Admitted(ledger + [x], q) ==
              Admitted(ledger, q) + if x.q == q && x.accepted then [x.event] else []
    ensures forall q :: BoundFor(ledger + [x], q) == BoundFor(ledger, q) + if x.q == q then [x.event] else []
  {
    assert (ledger + [x])[..|ledger|] == ledger;
  }

  lemma RemovalsGrow(removals: seq<Removal>, x: Removal)
    ensures Consumed(removals + [x]) == Consumed(removals) + if x.consumed then [x.event] else []
    ensures forall q :: Left(removals + [x], q) == Left(removals, q) + if x.q == q then [x.event] else []
  {
    assert (removals + [x])[..|removals|] == removals;
  }

  lemma {:induction false} RemovalsDrop(removals: seq<Removal>, events: seq<Event>, q: QueueId)
    ensures Consumed(removals + Dropped(events, q)) == Consumed(removals)
    ensures Left(removals + Dropped(events, q), q) == Left(removals, q) + events
    ensures forall p :: p != q ==> Left(removals + Dropped(events, q), p) == Left(removals, p)
    decreases |events|
  {
    if events == [] {
      assert removals + [] == removals;
    } else {
      hide Consumed, Left;
      var x := Removal(events[0], q, false);
      RemovalsGrow(removals, x);
      RemovalsDrop(removals + [x], events[1..], q);
      assert events == [events[0]] + events[1..];
      assert Left(removals, q) + events == (Left(removals, q) + [events[0]]) + events[1..];
      assert removals + Dropped(events, q) == (removals + [x]) + Dropped(events[1..], q);
    }
  }

  // ---------------------------------------------------------------- conservation and order

  ghost function Queued(b: Bus): multiset<Event> {
    multiset(b.realtime) + multiset(b.transactional) + multiset(b.batch)
  }

  lemma QueuedLess(b: Bus, q: QueueId, front: seq<Event>, back: seq<Event>)
    requires Queue(b, q) == front + back
    ensures Queued(b) == Queued(WithQueue(b, q, back)) + multiset(front)
  {
    assert multiset(Queue(b, q)) == multiset(front) + multiset(back);
  }

  lemma QueuedMore(b: Bus, q: QueueId, back: seq<Event>)
    ensures Queued(WithQueue(b, q, Queue(b, q) + back)) == Queued(b) + multiset(back)
  {}

  /** Every event settled is in exactly one place: queued, consumed or dead-lettered. */
  ghost predicate Conserved(s: Machine) {
    multiset(Settled(s.ledger)) == Queued(s.bus) + multiset(Consumed(s.removals)) + multiset(s.bus.dead)
  }

  /** Queue q: what left it, followed by what it holds, is what it admitted, in that order. */
  ghost predicate InOrder(s: Machine, q: QueueId) {
    && Admitted(s.ledger, q) == Left(s.removals, q) + Queue(s.bus, q)
    && |Queue(s.bus, q)| <= Capacity(q)
  }

  lemma FinishConserves(s: Machine, b: Bus, e: Event, q: QueueId, n: nat)
    requires Conserved(s) && b == WithQueue(s.bus, q, Queue(s.bus, q) + [e]).(pressure := b.pressure)
    ensures Conserved(Finish(s.(bus := b), e, q, true, n))
  {
    hide Settled, Consumed, Admitted, Left, BoundFor, Queued;
    LedgerGrows(s.ledger, Entry(e, q, true, n));
    QueuedMore(s.bus, q, [e]);
    SameQueues(WithQueue(s.bus, q, Queue(s.bus, q) + [e]), b);
  }

  lemma SameQueues(b: Bus, b': Bus)
    requires forall q :: Queue(b, q) == Queue(b', q)
    ensures Queued(b) == Queued(b')
  {
    assert Queue(b, REALTIME) == Queue(b', REALTIME);
    assert Queue(b, TRANSACTIONAL) == Queue(b', TRANSACTIONAL);
    assert Queue(b, QueueId.BATCH) == Queue(b', QueueId.BATCH);
  }

  lemma FailedConserves(s: Machine, e: Event, q: QueueId, n: nat)
    requires Conserved(s)
    ensures Conserved(Failed(s, e, q, n))
  {
    hide Settled, Consumed, Admitted, Left, BoundFor, Queued;
    LedgerGrows(s.ledger, Entry(e, q, false, n + 1));
    SameQueues(s.bus, s.bus.(dead := s.bus.dead + [e]));
  }

  lemma EvictConserves(s: Machine, b: Bus, e: Event, n: nat)
    requires Conserved(s) && s.bus.realtime != []
    requires b == s.bus.(pressure := b.pressure, realtime := s.bus.realtime[1..] + [e],
                         dead := s.bus.dead + [s.bus.realtime[0]])
    ensures var r := Removal(s.bus.realtime[0], REALTIME, false);
            Conserved(Finish(s.(bus := b, removals := s.removals + [r]), e, REALTIME, true, n))
  {
    hide Settled, Consumed, Admitted, Left, BoundFor, Queued;
    var queue := s.bus.realtime;
    LedgerGrows(s.ledger, Entry(e, REALTIME, true, n));
    RemovalsGrow(s.removals, Removal(queue[0], REALTIME, false));
    QueuedLess(s.bus, REALTIME, [queue[0]], queue[1..]);
    QueuedMore(WithQueue(s.bus, REALTIME, queue[1..]), REALTIME, [e]);
    SameQueues(WithQueue(s.bus, REALTIME, queue[1..] + [e]), b);
  }

  lemma TryConserves(s: Machine)
    requires Conserved(s)
    ensures Conserved(TryStep(s))
  {
    hide Settled, Consumed, Admitted, Left, BoundFor;
    match s.work
    case Trying(e, q, n) =>
      var (b, outcome) := Push(s.bus, q, e);
      if outcome == Refused {
        FailedConserves(s, e, q, n);
      } else if outcome == Accepted {
        if Evicted(s.bus, q) == [] {
          assert s.removals + [] == s.removals;
          FinishConserves(s, b, e, q, n);
        } else {
          EvictConserves(s, b, e, n);
        }
      }
    case _ =>
  }

  lemma WaitConserves(s: Machine)
    requires Conserved(s)
    ensures Conserved(WaitStep(s))
  {
    match s.work
    case Waiting(e, n) =>
      if Full(s.bus, TRANSACTIONAL) {
        FailedConserves(s, e, TRANSACTIONAL, n);
      } else {
        FinishConserves(s, EndWait(s.bus, e).0, e, TRANSACTIONAL, n);
      }
    case _ =>
  }

  lemma ConsumeConserves(s: Machine, q: QueueId)
    requires Conserved(s)
    ensures Conserved(ConsumeStep(s, q))
  {
    hide Settled, Consumed, Left, Queued;
    var queue := Queue(s.bus, q);
    if queue != [] {
      QueuedLess(s.bus, q, [queue[0]], queue[1..]);
      RemovalsGrow(s.removals, Removal(queue[0], q, true));
      assert queue == [queue[0]] + queue[1..];
    }
  }

  lemma DropConserves(s: Machine, q: QueueId)
    requires Conserved(s)
    ensures Conserved(DropStep(s, q))
  {
    hide Settled, Consumed, Left, Queued, Dropped;
    var queue, n := Queue(s.bus, q), DropCount(s.bus, q);
    QueuedLess(s.bus, q, queue[..n], queue[n..]);
    SameQueues(WithQueue(s.bus, q, queue[n..]), DropBatch(s.bus, q));
    RemovalsDrop(s.removals, queue[..n], q);
    assert queue == queue[..n] + queue[n..];
  }

  lemma StepConserves(table: TopicTable, s: Machine, m: Move)
    requires Conserved(s)
    ensures Conserved(Step(table, s, m))
  {
    match m
    case Take(_) =>
    case Try => TryConserves(s);
    case WaitOver => WaitConserves(s);
    case Consume(q) => ConsumeConserves(s, q);
    case Drop(q) => DropConserves(s, q);
  }

  lemma StepKeepsOrder(table: TopicTable, s: Machine, m: Move, p: QueueId)
    requires InOrder(s, p)
    ensures InOrder(Step(table, s, m), p)
  {
    match m
    case Take(_) =>
    case Try => TryKeepsOrder(s, p);
    case WaitOver => WaitKeepsOrder(s, p);
    case Consume(q) => ConsumeKeepsOrder(s, q, p);
    case Drop(q) => DropKeepsOrder(s, q, p);
  }

  lemma ConsumeKeepsOrder(s: Machine, q: QueueId, p: QueueId)
    requires InOrder(s, p)
    ensures InOrder(ConsumeStep(s, q), p)
  {
    hide Consumed, Left, Admitted;
    if Queue(s.bus, q) != [] {
      RemovalsGrow(s.removals, Removal(Queue(s.bus, q)[0], q, true));
    }
  }

  lemma DropKeepsOrder(s: Machine, q: QueueId, p: QueueId)
    requires InOrder(s, p)
    ensures InOrder(DropStep(s, q), p)
  {
    hide Consumed, Left, Admitted, Dropped;
    var queue, n := Queue(s.bus, q), DropCount(s.bus, q);
    RemovalsDrop(s.removals, queue[..n], q);
    if p == q {
      assert queue == queue[..n] + queue[n..];
      assert Left(s.removals, q) + queue == (Left(s.removals, q) + queue[..n]) + queue[n..];
    }
  }

  lemma FinishKeepsOrder(s: Machine, b: Bus, e: Event, q: QueueId, n: nat, p: QueueId)
    requires InOrder(s, p) && !Full(s.bus, q)
    requires b == WithQueue(s.bus, q, Queue(s.bus, q) + [e]).(pressure := b.pressure)
    ensures InOrder(Finish(s.(bus := b), e, q, true, n), p)
  {
    hide Left, Admitted;
    LedgerGrows(s.ledger, Entry(e, q, true, n));
    if p == q {
      assert Queue(b, p) == Queue(s.bus, p) + [e];
      assert Left(s.removals, p) + (Queue(s.bus, p) + [e]) == (Left(s.removals, p) + Queue(s.bus, p)) + [e];
    } else {
      assert Queue(b, p) == Queue(s.bus, p);
    }
  }

  lemma EvictKeepsOrder(s: Machine, b: Bus, e: Event, n: nat, p: QueueId)
    requires InOrder(s, p) && s.bus.realtime != []
    requires b == s.bus.(pressure := b.pressure, realtime := s.bus.realtime[1..] + [e],
                         dead := s.bus.dead + [s.bus.realtime[0]])
    ensures var r := Removal(s.bus.realtime[0], REALTIME, false);
            InOrder(Finish(s.(bus := b, removals := s.removals + [r]), e, REALTIME, true, n), p)
  {
    hide Left, Admitted, Consumed;
    var queue := s.bus.realtime;
    LedgerGrows(s.ledger, Entry(e, REALTIME, true, n));
    RemovalsGrow(s.removals, Removal(queue[0], REALTIME, false));
    if p == REALTIME {
      assert (Left(s.removals, p) + queue) + [e] == (Left(s.removals, p) + [queue[0]]) + (queue[1..] + [e]);
    }
  }

  lemma FailedKeepsOrder(s: Machine, e: Event, q: QueueId, n: nat, p: QueueId)
    requires InOrder(s, p)
    ensures InOrder(Failed(s, e, q, n), p)
  {
    hide Left, Admitted;
    LedgerGrows(s.ledger, Entry(e, q, false, n + 1));
  }

  lemma TryKeepsOrder(s: Machine, p: QueueId)
    requires InOrder(s, p)
    ensures InOrder(TryStep(s), p)
  {
    hide Left, Admitted;
    match s.work
    case Trying(e, q, n) =>
      var (b, outcome) := Push(s.bus, q, e);
      if outcome == Refused {
        FailedKeepsOrder(s, e, q, n, p);
      } else if outcome == Accepted {
        if Evicted(s.bus, q) == [] {
          assert s.removals + [] == s.removals;
          FinishKeepsOrder(s, b, e, q, n, p);
        } else {
          EvictKeepsOrder(s, b, e, n, p);
        }
      }
    case _ =>
  }

  lemma WaitKeepsOrder(s: Machine, p: QueueId)
    requires InOrder(s, p)
    ensures InOrder(WaitStep(s), p)
  {
    hide Left, Admitted;
    match s.work
    case Waiting(e, n) =>
      if Full(s.bus, TRANSACTIONAL) {
        FailedKeepsOrder(s, e, TRANSACTIONAL, n, p);
      } else {
        FinishKeepsOrder(s, EndWait(s.bus, e).0, e, TRANSACTIONAL, n, p);
      }
    case _ =>
  }

  // ---------------------------------------------------------------- fates

  /** A realtime push never fails, and an event is given up only after three failures. */
  predicate FateOk(x: Entry) {
    && (if x.accepted then x.failures < MAX_RETRIES else x.failures == MAX_RETRIES)
    && x.q == Target(x.event)
    && (x.q == REALTIME ==> x.accepted && x.failures == 0)
  }

  predicate WorkOk(w: Work) {
    match w
    case Idle => true
    case Trying(e, q, n) => n < MAX_RETRIES && q == Target(e) && (q == REALTIME ==> n == 0)
    case Waiting(e, n) => n < MAX_RETRIES && Target(e) == TRANSACTIONAL
  }

  ghost predicate FatesOk(s: Machine) {
    && WorkOk(s.work)
    && (forall i :: 0 <= i < |s.ledger| ==> FateOk(s.ledger[i]))
    && |s.seen| == |s.ledger| + |InHand(s.work)|
  }

  lemma StepKeepsFates(table: TopicTable, s: Machine, m: Move)
    requires FatesOk(s)
    ensures FatesOk(Step(table, s, m))
  {}

  // Nothing but the priority of an event is ever changed.
  predicate SameButPriority(a: Event, b: Event) {
    a.(priority := b.priority) == b
  }

  ghost predicate Faithful(s: Machine) {
    && |s.seen| == |s.ledger| + |InHand(s.work)|
    && (forall i :: 0 <= i < |s.ledger| ==> SameButPriority(s.seen[i], s.ledger[i].event))
    && (forall i :: |s.ledger| <= i < |s.seen| ==> SameButPriority(s.seen[i], InHand(s.work)[i - |s.ledger|]))
  }

  // An event is taken in hand, settled, or neither.
  predicate HandMoves(s: Machine, s': Machine) {
    var hand, hand' := InHand(s.work), InHand(s'.work);
    || (s'.seen == s.seen && s'.ledger == s.ledger && hand' == hand)
    || (&& hand == [] && |hand'| == 1 && s'.ledger == s.ledger
        && |s'.seen| == |s.seen| + 1 && s'.seen[..|s.seen|] == s.seen && SameButPriority(s'.seen[|s.seen|], hand'[0]))
    || (&& |hand| == 1 && hand' == [] && s'.seen == s.seen
        && |s'.ledger| == |s.ledger| + 1 && s'.ledger[..|s.ledger|] == s.ledger
        && s'.ledger[|s.ledger|].event == hand[0])
  }

  lemma StepMovesHand(table: TopicTable, s: Machine, m: Move)
    ensures HandMoves(s, Step(table, s, m))
  {
    hide Full, Level, Dropped;
  }

  lemma StepKeepsFaithful(table: TopicTable, s: Machine, m: Move)
    requires Faithful(s)
    ensures Faithful(Step(table, s, m))
  {
    StepMovesHand(table, s, m);
    hide Step;
  }

  // ---------------------------------------------------------------- pressure

  /** Pressure is stale between pushes, but NORMAL still bounds the ring. */
  predicate PressureOk(s: Machine) {
    && (s.bus.pressure == NORMAL ==> |s.bus.realtime| <= 12000)
    && (s.work.Trying? && s.work.q == REALTIME && s.work.event.priority == Priority.HIGH ==> s.bus.pressure == NORMAL)
  }

  lemma StepKeepsPressure(table: TopicTable, s: Machine, m: Move)
    requires PressureOk(s)
    ensures PressureOk(Step(table, s, m))
  {}

  // ---------------------------------------------------------------- whole runs

  ghost predicate Inv(s: Machine) {
    Conserved(s) && (forall q :: InOrder(s, q)) && FatesOk(s) && Faithful(s) && PressureOk(s)
  }

  lemma InitInv()
    ensures Inv(Init())
  {}

  lemma StepKeepsInv(table: TopicTable, s: Machine, m: Move)
    requires Inv(s)
    ensures Inv(Step(table, s, m))
  {
    hide Conserved, InOrder, FatesOk, Faithful, PressureOk, Step;
    StepConserves(table, s, m);
    forall q ensures InOrder(Step(table, s, m), q) {
      StepKeepsOrder(table, s, m, q);
    }
    StepKeepsFates(table, s, m);
    StepKeepsFaithful(table, s, m);
    StepKeepsPressure(table, s, m);
  }

  lemma {:induction false} RunKeepsInv(table: TopicTable, s: Machine, schedule: seq<Move>)
    requires Inv(s)
    ensures Inv(Run(table, s, schedule))
    decreases |schedule|
  {
    if schedule != [] {
      hide Inv, Step;
      StepKeepsInv(table, s, schedule[0]);
      RunKeepsInv(table, Step(table, s, schedule[0]), schedule[1..]);
    }
  }

  /**
    Whatever the interleaving: every event taken is settled or in hand, changed in its priority
    at most; each settled event is in exactly one queue, popped once, or dead-lettered once; each
    queue handed out and holds exactly what it admitted, in order, within its capacity.
   */
  lemma ConservationAndOrder(table: TopicTable, schedule: seq<Move>)
    ensures var s := Run(table, Init(), schedule);
            && |s.seen| == |s.ledger| + |InHand(s.work)|
            && (forall i :: 0 <= i < |s.ledger| ==> SameButPriority(s.seen[i], s.ledger[i].event))
            && multiset(Settled(s.ledger))
               == Queued(s.bus) + multiset(Consumed(s.removals)) + multiset(s.bus.dead)
            && (forall q :: Admitted(s.ledger, q) == Left(s.removals, q) + Queue(s.bus, q))
            && (forall q :: |Queue(s.bus, q)| <= Capacity(q))
  {
    hide Run, Settled, Consumed, Admitted, Left, Queued;
    InitInv();
    RunKeepsInv(table, Init(), schedule);
    var s := Run(table, Init(), schedule);
    forall q
      ensures Admitted(s.ledger, q) == Left(s.removals, q) + Queue(s.bus, q) && |Queue(s.bus, q)| <= Capacity(q)
    {
      assert InOrder(s, q);
    }
  }

  lemma {:induction false} BoundIsAdmitted(ledger: seq<Entry>)
    requires forall i :: 0 <= i < |ledger| ==> FateOk(ledger[i])
    ensures Admitted(ledger, REALTIME) == BoundFor(ledger, REALTIME)
  {
    if ledger != [] {
      BoundIsAdmitted(ledger[..|ledger| - 1]);
    }
  }

  /** No realtime event is ever refused, and any other is given up after exactly three failures. */
  lemma RealtimeNeverRefused(table: TopicTable, schedule: seq<Move>)
    ensures var s := Run(table, Init(), schedule);
            && BoundFor(s.ledger, REALTIME) == Left(s.removals, REALTIME) + s.bus.realtime
            && (forall i :: 0 <= i < |s.ledger| && !s.ledger[i].accepted ==>
                  s.ledger[i].failures == MAX_RETRIES && s.ledger[i].q != REALTIME)
  {
    InitInv();
    RunKeepsInv(table, Init(), schedule);
    var s := Run(table, Init(), schedule);
    BoundIsAdmitted(s.ledger);
    assert InOrder(s, REALTIME);
    assert forall i :: 0 <= i < |s.ledger| ==> FateOk(s.ledger[i]);
  }

  function Failures(w: Work): nat {
    match w
    case Idle => 0
    case Trying(_, _, n) => n
    case Waiting(_, n) => n
  }

  /** A failure is counted, or an event given up, only at a moment when its queue is full. */
  lemma FailureMeansFull(table: TopicTable, s: Machine, m: Move)
    requires FatesOk(s) && InHand(s.work) != []
    ensures var s' := Step(table, s, m);
            var q := Target(InHand(s.work)[0]);
            && (InHand(s'.work) == InHand(s.work) && Failures(s'.work) != Failures(s.work) ==>
                  Failures(s'.work) == Failures(s.work) + 1 && Full(s.bus, q))
            && (|s'.ledger| > |s.ledger| && !s'.ledger[|s.ledger|].accepted ==>
                  Failures(s.work) == MAX_RETRIES - 1 && Full(s.bus, q) && s'.bus.dead == s.bus.dead + InHand(s.work))
            && (s'.work != s.work ==> m.Try? || m.WaitOver?)
  {}

  /** Only a CRITICAL event can push an old realtime event out. */
  lemma EvictionsAreForCritical(table: TopicTable, schedule: seq<Move>)
    ensures var s := Run(table, Init(), schedule);
            s.work.Trying? && Evicted(s.bus, s.work.q) != [] ==> s.work.event.priority == Priority.CRITICAL
  {
    InitInv();
    RunKeepsInv(table, Init(), schedule);
  }

  // ---------------------------------------------------------------- runs without CRITICAL events

  /** Nothing taken is CRITICAL, neither by itself nor by the topic table. */
  ghost predicate Calm(table: TopicTable, schedule: seq<Move>) {
    forall i :: 0 <= i < |schedule| && schedule[i].Take? ==>
      Raise(table, schedule[i].event).priority != Priority.CRITICAL
  }

  predicate CalmOk(s: Machine) {
    && PressureOk(s)
    && |s.bus.realtime| <= 12001
    && (s.work.Trying? && s.work.q == REALTIME ==> s.work.event.priority == Priority.HIGH)
  }

  lemma StepKeepsCalm(table: TopicTable, s: Machine, m: Move)
    requires CalmOk(s) && Calm(table, [m])
    ensures CalmOk(Step(table, s, m))
  {
    assert [m][0] == m;
    StepKeepsPressure(table, s, m);
  }

  lemma CalmParts(table: TopicTable, schedule: seq<Move>)
    requires Calm(table, schedule) && schedule != []
    ensures Calm(table, [schedule[0]]) && Calm(table, schedule[1..])
  {}

  lemma {:induction false} RunKeepsCalm(table: TopicTable, s: Machine, schedule: seq<Move>)
    requires CalmOk(s) && Calm(table, schedule)
    ensures CalmOk(Run(table, s, schedule))
    decreases |schedule|
  {
    if schedule != [] {
      hide CalmOk, Step, Calm;
      CalmParts(table, schedule);
      StepKeepsCalm(table, s, schedule[0]);
      RunKeepsCalm(table, Step(table, s, schedule[0]), schedule[1..]);
    }
  }

  /** Without CRITICAL events the ring never holds more than 12001 events, so it never overflows. */
  lemma CalmRingStaysLow(table: TopicTable, schedule: seq<Move>)
    requires Calm(table, schedule)
    ensures |Run(table, Init(), schedule).bus.realtime| <= 12001
  {
    RunKeepsCalm(table, Init(), schedule);
  }

  /** The pressure has been raised and no realtime event is on its way. */
  predicate Latched(s: Machine, p: PressureLevel) {
    && s.bus.pressure == p && p != NORMAL
    && !(s.work.Trying? && s.work.q == REALTIME)
  }

  lemma FinishKeepsLatch(s: Machine, e: Event, q: QueueId, accepted: bool, n: nat)
    requires q != REALTIME
    ensures BoundFor(Finish(s, e, q, accepted, n).ledger, REALTIME) == BoundFor(s.ledger, REALTIME)
  {
    LedgerGrows(s.ledger, Entry(e, q, accepted, n));
  }

  lemma StepKeepsLatch(table: TopicTable, s: Machine, m: Move, p: PressureLevel)
    requires Latched(s, p) && Calm(table, [m])
    ensures var s' := Step(table, s, m);
            Latched(s', p) && BoundFor(s'.ledger, REALTIME) == BoundFor(s.ledger, REALTIME)
  {
    hide BoundFor, Dropped;
    match m
    case Take(_) => assert [m][0] == m;
    case Try =>
      if s.work.Trying? {
        var t := s.(bus := Push(s.bus, s.work.q, s.work.event).0, removals := s.removals + []);
        FinishKeepsLatch(t, s.work.event, s.work.q, true, s.work.failures);
        FinishKeepsLatch(t, s.work.event, s.work.q, false, s.work.failures + 1);
      }
    case WaitOver =>
      if s.work.Waiting? {
        FinishKeepsLatch(s, s.work.event, TRANSACTIONAL, true, s.work.failures);
        FinishKeepsLatch(s, s.work.event, TRANSACTIONAL, false, s.work.failures + 1);
      }
    case Consume(_) =>
    case Drop(_) =>
  }

  /**
    Raised pressure does not fall again when consumers drain the ring: until the next CRITICAL
    event it stays as it is, and every HIGH event is sent to the transactional queue.
   */
  lemma {:induction false} PressureLatches(table: TopicTable, s: Machine, schedule: seq<Move>, p: PressureLevel)
    requires Latched(s, p) && Calm(table, schedule)
    ensures var s' := Run(table, s, schedule);
            Latched(s', p) && BoundFor(s'.ledger, REALTIME) == BoundFor(s.ledger, REALTIME)
    decreases |schedule|
  {
    if schedule != [] {
      hide Latched, Step, Calm, BoundFor;
      CalmParts(table, schedule);
      StepKeepsLatch(table, s, schedule[0], p);
      PressureLatches(table, Step(table, s, schedule[0]), schedule[1..], p);
    }
  }

  /** A CRITICAL event alone undoes the latch: its push makes the pressure that of the ring it found. */
  lemma CriticalUnlatches(table: TopicTable, s: Machine, e: Event)
    requires s.work.Idle? && Raise(table, e).priority == Priority.CRITICAL
    ensures Run(table, s, [Take(e), Try]).bus.pressure == Level(|s.bus.realtime|)
  {
    var s1 := Step(table, s, Take(e));
    assert Run(table, s, [Take(e), Try]) == Run(table, s1, [Try]) == Step(table, s1, Try);
  }

  // n HIGH events one after the other, and n realtime pops.
  function Burst(e: Event, n: nat): seq<Move> {
    if n == 0 then [] else [Take(e), Try] + Burst(e, n - 1)
  }

  function Drain(q: QueueId, n: nat): seq<Move> {
    if n == 0 then [] else [Consume(q)] + Drain(q, n - 1)
  }

  lemma OneHigh(table: TopicTable, s: Machine, e: Event)
    requires s.work.Idle? && s.bus.pressure == NORMAL && |s.bus.realtime| <= 12000
    requires Raise(table, e).priority == Priority.HIGH
    ensures var s' := Step(table, Step(table, s, Take(e)), Try);
            s'.work.Idle? && s'.bus.pressure == Level(|s.bus.realtime|) && |s'.bus.realtime| == |s.bus.realtime| + 1
  {}

  lemma RunTwo(table: TopicTable, s: Machine, a: Move, b: Move, rest: seq<Move>)
    ensures Run(table, s, [a, b] + rest) == Run(table, Step(table, Step(table, s, a), b), rest)
  {
    hide Step;
    var moves := [a, b] + rest;
    assert moves[1..] == [b] + rest && moves[1..][1..] == rest;
  }

  lemma {:induction false} BurstRaises(table: TopicTable, s: Machine, e: Event, n: nat)
    requires s.work.Idle? && s.bus.pressure == NORMAL && Raise(table, e).priority == Priority.HIGH
    requires n > 0 && |s.bus.realtime| + n == 12001
    ensures Calm(table, Burst(e, n))
    ensures var s' := Run(table, s, Burst(e, n));
            s'.work.Idle? && s'.bus.pressure == PressureLevel.HIGH && |s'.bus.realtime| == 12001
    decreases n
  {
    OneHigh(table, s, e);
    RunTwo(table, s, Take(e), Try, Burst(e, n - 1));
    var s1 := Step(table, s, Take(e));
    var s2 := Step(table, s1, Try);
    if n > 1 {
      hide Step;
      BurstRaises(table, s2, e, n - 1);
    }
  }

  // Between two states consumers took these events from q, and nothing else happened.
  predicate OnlyTook(s: Machine, s': Machine, q: QueueId, events: seq<Event>) {
    && Queue(s.bus, q) == events + Queue(s'.bus, q)
    && Consumed(s'.removals) == Consumed(s.removals) + events
    && (forall p :: p != q ==> Queue(s'.bus, p) == Queue(s.bus, p))
    && s'.bus.pressure == s.bus.pressure && s'.bus.dead == s.bus.dead
    && s'.work == s.work && s'.seen == s.seen && s'.ledger == s.ledger
  }

  lemma TookMore(s: Machine, t: Machine, u: Machine, q: QueueId, e: Event, more: seq<Event>)
    requires OnlyTook(s, t, q, [e]) && OnlyTook(t, u, q, more)
    ensures OnlyTook(s, u, q, [e] + more)
  {
    hide Consumed, Queue;
    assert Consumed(s.removals) + ([e] + more) == (Consumed(s.removals) + [e]) + more;
    assert ([e] + more) + Queue(u.bus, q) == [e] + (more + Queue(u.bus, q));
  }

  lemma ConsumeOne(table: TopicTable, s: Machine, q: QueueId)
    requires Queue(s.bus, q) != []
    ensures var s' := Step(table, s, Consume(q));
            OnlyTook(s, s', q, [Queue(s.bus, q)[0]]) && Queue(s'.bus, q) == Queue(s.bus, q)[1..]
  {
    hide Consumed;
    RemovalsGrow(s.removals, Removal(Queue(s.bus, q)[0], q, true));
  }

  lemma RunDrain(table: TopicTable, s: Machine, q: QueueId, n: nat)
    requires n > 0
    ensures Run(table, s, Drain(q, n)) == Run(table, Step(table, s, Consume(q)), Drain(q, n - 1))
  {
    hide Step;
    assert Drain(q, n)[1..] == Drain(q, n - 1);
  }

  lemma CalmConcat(table: TopicTable, x: seq<Move>, y: seq<Move>)
    requires Calm(table, x) && Calm(table, y)
    ensures Calm(table, x + y)
  {
    hide Raise;
  }

  lemma {:induction false} DrainIsCalm(table: TopicTable, q: QueueId, n: nat)
    ensures Calm(table, Drain(q, n))
  {
    if n > 0 {
      DrainIsCalm(table, q, n - 1);
    }
  }

  lemma {:induction false} DrainTakes(table: TopicTable, s: Machine, q: QueueId)
    ensures OnlyTook(s, Run(table, s, Drain(q, |Queue(s.bus, q)|)), q, Queue(s.bus, q))
    decreases |Queue(s.bus, q)|
  {
    var queue := Queue(s.bus, q);
    if queue == [] {
      hide Queue, Consumed;
      assert Consumed(s.removals) + [] == Consumed(s.removals) && queue + queue == queue;
    } else {
      hide Consumed, Queue, Step, Run, Drain, OnlyTook;
      ConsumeOne(table, s, q);
      var t := Step(table, s, Consume(q));
      DrainTakes(table, t, q);
      RunDrain(table, s, q, |queue|);
      TookMore(s, t, Run(table, t, Drain(q, |queue| - 1)), q, queue[0], queue[1..]);
      assert [queue[0]] + queue[1..] == queue;
    }
  }

  /** As many pops as a queue holds hand all of it to the consumers, in order, and touch nothing else. */
  lemma DrainEmpties(table: TopicTable, s: Machine, q: QueueId)
    ensures var s' := Run(table, s, Drain(q, |Queue(s.bus, q)|));
            && Queue(s'.bus, q) == [] && Consumed(s'.removals) == Consumed(s.removals) + Queue(s.bus, q)
            && (forall p :: p != q ==> Queue(s'.bus, p) == Queue(s.bus, p))
            && s'.bus.pressure == s.bus.pressure && s'.bus.dead == s.bus.dead
            && s'.work == s.work && s'.seen == s.seen && s'.ledger == s.ledger
  {
    hide Run, Drain, Queue, Consumed;
    DrainTakes(table, s, q);
  }

  lemma {:induction false} RunConcat(table: TopicTable, s: Machine, x: seq<Move>, y: seq<Move>)
    ensures Run(table, s, x + y) == Run(table, Run(table, s, x), y)
    decreases |x|
  {
    if x == [] {
      assert x + y == y;
    } else {
      hide Step;
      assert (x + y)[1..] == x[1..] + y;
      RunConcat(table, Step(table, s, x[0]), x[1..], y);
    }
  }

  /**
    The latch is reachable with HIGH events alone: 12001 of them and as many pops leave an empty
    ring that no later HIGH event will ever enter, for as long as nothing CRITICAL comes.
   */
  lemma EmptyRingCanBeLatched(table: TopicTable, e: Event, later: seq<Move>)
    requires Raise(table, e).priority == Priority.HIGH && Calm(table, later)
    ensures Calm(table, Burst(e, 12001) + Drain(REALTIME, 12001))
    ensures var s := Run(table, Init(), Burst(e, 12001) + Drain(REALTIME, 12001));
            var s' := Run(table, s, later);
            && s.bus.realtime == [] && Latched(s, PressureLevel.HIGH)
            && Latched(s', PressureLevel.HIGH) && BoundFor(s'.ledger, REALTIME) == BoundFor(s.ledger, REALTIME)
  {
    hide Run, Burst, Drain, BoundFor;
    BurstRaises(table, Init(), e, 12001);
    var s1 := Run(table, Init(), Burst(e, 12001));
    DrainEmpties(table, s1, REALTIME);
    DrainIsCalm(table, REALTIME, 12001);
    CalmConcat(table, Burst(e, 12001), Drain(REALTIME, 12001));
    RunConcat(table, Init(), Burst(e, 12001), Drain(REALTIME, 12001));
    PressureLatches(table, Run(table, s1, Drain(REALTIME, 12001)), later, PressureLevel.HIGH);
  }

  // ---------------------------------------------------------------- the dispatcher left alone

  function StepsLeft(w: Work): nat
    requires WorkOk(w)
  {
    match w
    case Idle => 0
    case Trying(_, _, n) => 2 * (MAX_RETRIES - n)
    case Waiting(_, n) => 2 * (MAX_RETRIES - n) - 1
  }

  /** The steps the dispatcher takes until its event is settled, with nobody else moving. */
  function Alone(s: Machine): Machine
    requires WorkOk(s.work)
    decreases StepsLeft(s.work)
  {
    match s.work
    case Idle => s
    case Trying(_, _, _) => Alone(TryStep(s))
    case Waiting(_, _) => Alone(WaitStep(s))
  }

  /** Left alone it gives an event up exactly when its queue is not the ring and is full. */
  lemma AloneOutcome(s: Machine)
    requires s.work.Trying? && WorkOk(s.work) && s.work.failures == 0
    ensures var e, q, s' := s.work.event, s.work.q, Alone(s);
            && s'.work.Idle?
            && (Full(s.bus, q) && q != REALTIME ==> s'.bus == s.bus.(dead := s.bus.dead + [e]))
            && (Full(s.bus, q) && q == REALTIME ==>
                  s'.bus.dead == s.bus.dead + [s.bus.realtime[0]] && s'.bus.realtime == s.bus.realtime[1..] + [e])
            && (!Full(s.bus, q) ==> s'.bus.dead == s.bus.dead && Queue(s'.bus, q) == Queue(s.bus, q) + [e])
  {
    var s1 := TryStep(s);
    if Full(s.bus, s.work.q) && s.work.q != REALTIME {
      var s2 := if s1.work.Waiting? then WaitStep(s1) else s1;
      var s3 := TryStep(s2);
      var s4 := if s3.work.Waiting? then WaitStep(s3) else s3;
      var s5 := TryStep(s4);
      var s6 := if s5.work.Waiting? then WaitStep(s5) else s5;
      assert Alone(s) == Alone(s2) && Alone(s2) == Alone(s4) && Alone(s4) == Alone(s6);
    }
  }
}
