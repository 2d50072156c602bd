/**
  What single calls of dispatcher and bus do, in numbers and outcomes: each is said of the steps of
  the machine and not of the functions they are made of.
 */
module BusPromises {
  import opened Frames
  import opened Events
  import opened BusSteps

  // ---------------------------------------------------------------- one try

  // Thread and history after the event in hand was accepted.
  predicate Placed(s: Machine, s': Machine, e: Event, q: QueueId) {
    s'.work == Idle && |s'.ledger| == |s.ledger| + 1 && s'.ledger[..|s.ledger|] == s.ledger
    && s'.ledger[|s.ledger|].event == e && s'.ledger[|s.ledger|].q == q && s'.ledger[|s.ledger|].accepted
  }

  /**
    A push to the ring: the pressure becomes that of the number of events it found there; with
    fewer than 16383 the event goes behind them, else the oldest goes to the dead letters first.
   */
  lemma RealtimePush(table: TopicTable, s: Machine)
    requires s.work.Trying? && s.work.q == REALTIME
    ensures var s', e, ring := Step(table, s, Try), s.work.event, s.bus.realtime;
            && Placed(s, s', e, REALTIME)
            && s'.bus.transactional == s.bus.transactional && s'.bus.batch == s.bus.batch
            && (s'.bus.pressure == PressureLevel.CRITICAL <==> |ring| >= 14000)
            && (s'.bus.pressure == PressureLevel.HIGH <==> 12000 <= |ring| < 14000)
            && (s'.bus.pressure == NORMAL <==> |ring| < 12000)
            && (|ring| < 16383 ==> s'.bus.realtime == ring + [e] && s'.bus.dead == s.bus.dead)
            && (|ring| >= 16383 ==> s'.bus.realtime == ring[1..] + [e] && s'.bus.dead == s.bus.dead + [ring[0]])
  {}

  /** A push to the transactional queue: accepted below 131072 events, else the timed wait begins. */
  lemma TransactionalPush(table: TopicTable, s: Machine)
    requires s.work.Trying? && s.work.q == TRANSACTIONAL
    ensures var s', e, queue := Step(table, s, Try), s.work.event, s.bus.transactional;
            && (|queue| < 131072 ==>
                  Placed(s, s', e, TRANSACTIONAL) && s'.bus == s.bus.(transactional := queue + [e]))
            && (|queue| >= 131072 ==> s' == s.(work := Waiting(e, s.work.failures)))
  {}

  /** The end of the wait: accepted if there is room by now, else one more failure, the third for good. */
  lemma WaitEnds(table: TopicTable, s: Machine)
    requires s.work.Waiting?
    ensures var s', e, n, queue := Step(table, s, WaitOver), s.work.event, s.work.failures, s.bus.transactional;
            && (|queue| < 131072 ==>
                  Placed(s, s', e, TRANSACTIONAL) && s'.bus == s.bus.(transactional := queue + [e]))
            && (|queue| >= 131072 && n < 2 ==> s' == s.(work := Trying(e, TRANSACTIONAL, n + 1)))
            && (|queue| >= 131072 && n >= 2 ==> s'.work == Idle && s'.bus == s.bus.(dead := s.bus.dead + [e]))
  {}

  /** A push to the batch queue: accepted below 32768 events, else a failure, the third for good. */
  lemma BatchPush(table: TopicTable, s: Machine)
    requires s.work.Trying? && s.work.q == QueueId.BATCH
    ensures var s', e, n, queue := Step(table, s, Try), s.work.event, s.work.failures, s.bus.batch;
            && (|queue| < 32768 ==>
                  Placed(s, s', e, QueueId.BATCH) && s'.bus == s.bus.(batch := queue + [e]))
            && (|queue| >= 32768 && n < 2 ==> s' == s.(work := Trying(e, QueueId.BATCH, n + 1)))
            && (|queue| >= 32768 && n >= 2 ==> s'.work == Idle && s'.bus == s.bus.(dead := s.bus.dead + [e]))
  {}

  // ---------------------------------------------------------------- taking and dropping

  /**
    A dispatched event goes, changed in priority at most, to the end of the queue that client, topic
    table and pressure name, when that queue has room.
   */
  lemma DispatchPlaces(table: TopicTable, s: Machine, e: Event)
    requires s.work.Idle?
    requires |s.bus.realtime| < 16383 && |s.bus.transactional| < 131072 && |s.bus.batch| < 32768
    ensures var s' := Run(table, s, [Take(e), Try]);
            var wanted := if table.Some? && e.topic in table.value then table.value[e.topic] else MEDIUM;
            var urgent := e.priority == Priority.CRITICAL || wanted == Priority.CRITICAL
              || ((e.priority == Priority.HIGH || wanted == Priority.HIGH) && s.bus.pressure == NORMAL);
            var idle := e.priority == Priority.BATCH && wanted == Priority.BATCH;
            && s'.seen == s.seen + [e] && s'.work.Idle? && s'.bus.dead == s.bus.dead
            && exists r ::
                 && SameButPriority(e, r)
                 && s'.bus.realtime == s.bus.realtime + (if urgent then [r] else [])
                 && s'.bus.transactional == s.bus.transactional + (if !urgent && !idle then [r] else [])
                 && s'.bus.batch == s.bus.batch + (if idle then [r] else [])
  {
    hide Routed, Target;
    var r := Routed(table, s.bus, e);
    RouteMeaning(table, s.bus, e);
    var s1 := Step(table, s, Take(e));
    var s2 := Step(table, s1, Try);
    TakesOne(table, s, e);
    assert [Take(e), Try][1..] == [Try] && [Try][1..] == [];
    assert Run(table, s, [Take(e), Try]) == Run(table, s1, [Try]) == Run(table, s2, []);
    match Target(r) {
      case REALTIME => RealtimePush(table, s1);
      case TRANSACTIONAL => TransactionalPush(table, s1);
      case BATCH => BatchPush(table, s1);
    }
    assert s2.bus.realtime == s.bus.realtime + (if Target(r) == REALTIME then [r] else []);
    assert s2.bus.transactional == s.bus.transactional + (if Target(r) == TRANSACTIONAL then [r] else []);
    assert s2.bus.batch == s.bus.batch + (if Target(r) == QueueId.BATCH then [r] else []);
  }

  lemma TakesOne(table: TopicTable, s: Machine, e: Event)
    requires s.work.Idle?
    ensures var s', r := Step(table, s, Take(e)), Routed(table, s.bus, e);
            s' == s.(work := Trying(r, Target(r), 0), seen := s.seen + [e])
  {}

  /** A batch drop moves the 64 oldest events of its queue, or all if there are fewer, to the dead letters. */
  lemma DropTakesSixtyFour(table: TopicTable, s: Machine, q: QueueId)
    ensures var s', queue := Step(table, s, Drop(q)), Queue(s.bus, q);
            exists n: nat ::
              && n == (if |queue| < 64 then |queue| else 64)
              && Queue(s'.bus, q) == queue[n..] && s'.bus.dead == s.bus.dead + queue[..n]
              && (forall p :: p != q ==> Queue(s'.bus, p) == Queue(s.bus, p))
              && s'.bus.pressure == s.bus.pressure && s'.work == s.work
              && Consumed(s'.removals) == Consumed(s.removals)
  {
    hide Dropped, Consumed;
    var queue := Queue(s.bus, q);
    var n: nat := if |queue| < 64 then |queue| else 64;
    RemovalsDrop(s.removals, queue[..n], q);
    assert Queue(Step(table, s, Drop(q)).bus, q) == queue[n..];
  }
}
