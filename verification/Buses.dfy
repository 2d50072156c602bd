/**
  EventBusMulti and Dispatcher with their fields updated in place: every call does to the ring,
  the deques, the pressure and the dead letters what the machine of BusSteps does.
 */
module Buses {
  import opened Wrappers
  import opened Frames
  import opened Events
  import opened Bitwise
  import opened Ring
  import opened DeadLetters
  import opened BusSteps

  lemma RingSize()
    ensures PowerOfTwo(RING_CAPACITY)
  {
    assert And(16, 15) == 0;
    assert And(256, 255) == 2 * (2 * (2 * (2 * And(16, 15))));
    assert And(4096, 4095) == 2 * (2 * (2 * (2 * And(256, 255))));
    assert And(16384, 16383) == 2 * (2 * And(4096, 4095));
  }

  class EventBus {
    const ring: RingBuffer<Event>
    var pressure: PressureLevel
    var transactional: seq<Event>
    var batch: seq<Event>
    const dlq: DeadLetterQueue

    ghost predicate Valid()
      reads this, ring, dlq
    {
      && ring.Valid() && ring.capacity == RING_CAPACITY && dlq.Valid()
      && |transactional| <= Capacity(TRANSACTIONAL) && |batch| <= Capacity(QueueId.BATCH)
    }

    ghost function View(): Bus
      reads this, ring, ring.buffer, dlq
      requires Valid()
    {
      Bus(ring.Contents(), transactional, batch, pressure, dlq.history)
    }

    constructor ()
      ensures Valid() && View() == Init().bus && fresh(ring) && fresh(ring.buffer) && fresh(dlq)
    {
      RingSize();
      ring := new RingBuffer<Event>(RING_CAPACITY);
      pressure := NORMAL;
      transactional, batch := [], [];
      dlq := new DeadLetterQueue();
    }

    method PushRealtime(e: Event) returns (ok: bool)
      requires Valid()
      modifies this`pressure, ring, ring.buffer, dlq
      ensures Valid() && ok && View() == BusSteps.Push(old(View()), REALTIME, e).0
    {
      var used := ring.Size();
      if used >= 14000 {
        pressure := PressureLevel.CRITICAL;
      } else if used >= 12000 {
        pressure := PressureLevel.HIGH;
      } else {
        pressure := NORMAL;
      }
      ok := ring.Push(e);
      if !ok {
        var oldest := ring.Pop();
        if oldest.Some? {
          dlq.Push(oldest.value);
        }
        // The pop has made room, so the source's last resort behind this push is never reached.
        ok := ring.Push(e);
      }
    }

    /** Waits is the timed wait of a full transactional queue; EndWait is how it ends. */
    method Push(q: QueueId, e: Event) returns (outcome: Outcome)
      requires Valid()
      modifies this, ring, ring.buffer, dlq
      ensures Valid() && (View(), outcome) == BusSteps.Push(old(View()), q, e)
    {
      match q
      case REALTIME =>
        var ok := PushRealtime(e);
        outcome := if ok then Accepted else Refused;
      case TRANSACTIONAL =>
        if |transactional| >= Capacity(TRANSACTIONAL) {
          return Waits;
        }
        transactional := transactional + [e];
        outcome := Accepted;
      case BATCH =>
        if |batch| >= Capacity(QueueId.BATCH) {
          return Refused;
        }
        batch := batch + [e];
        outcome := Accepted;
    }

    method EndWait(e: Event) returns (ok: bool)
      requires Valid()
      modifies this
      ensures Valid() && (View(), ok) == BusSteps.EndWait(old(View()), e)
    {
      ok := |transactional| < Capacity(TRANSACTIONAL);
      if ok {
        transactional := transactional + [e];
      }
    }

    /** The first look: an empty deque, not the ring, begins the timed wait that EndPop ends. */
    method Pop(q: QueueId) returns (item: Option<Event>, waits: bool)
      requires Valid()
      modifies this, ring
      ensures Valid() && (View(), item) == BusSteps.Pop(old(View()), q)
      ensures item.Some? <==> Queue(old(View()), q) != []
      ensures item.Some? ==> [item.value] + Queue(View(), q) == Queue(old(View()), q)
      ensures View() == WithQueue(old(View()), q, Queue(View(), q))
      ensures waits <==> item.None? && q != REALTIME
    {
      match q
      case REALTIME =>
        item := ring.Pop();
        waits := false;
      case _ =>
        item := PopFront(q);
        waits := item.None?;
    }

    /** The end of the timed wait: an event if there is one now, or none exactly when it is still empty. */
    method EndPop(q: QueueId) returns (item: Option<Event>)
      requires Valid() && q != REALTIME
      modifies this
      ensures Valid() && (View(), item) == BusSteps.Pop(old(View()), q)
      ensures item.Some? <==> Queue(old(View()), q) != []
      ensures item.Some? ==> [item.value] + Queue(View(), q) == Queue(old(View()), q)
      ensures View() == WithQueue(old(View()), q, Queue(View(), q))
    {
      item := PopFront(q);
    }

    method PopFront(q: QueueId) returns (item: Option<Event>)
      requires Valid() && q != REALTIME
      modifies this
      ensures Valid() && (View(), item) == BusSteps.Pop(old(View()), q)
      ensures item.Some? <==> Queue(old(View()), q) != []
      ensures item.Some? ==> [item.value] + Queue(View(), q) == Queue(old(View()), q)
      ensures View() == WithQueue(old(View()), q, Queue(View(), q))
    {
      if q == TRANSACTIONAL {
        if transactional == [] {
          return None;
        }
        item, transactional := Some(transactional[0]), transactional[1..];
      } else {
        if batch == [] {
          return None;
        }
        item, batch := Some(batch[0]), batch[1..];
      }
    }

    // The realtime half of dropBatchFromQueue: pop until the batch is full or the ring empty.
    method PopBatch() returns (dropped: seq<Event>)
      requires ring.Valid()
      modifies ring
      ensures ring.Valid()
      ensures dropped + ring.Contents() == old(ring.Contents())
      ensures |dropped| == DROP_BATCH_SIZE || (|dropped| < DROP_BATCH_SIZE && ring.Contents() == [])
    {
      hide Window;
      dropped := [];
      var more := true;
      while more && |dropped| < DROP_BATCH_SIZE
        invariant ring.Valid() && |dropped| <= DROP_BATCH_SIZE
        invariant dropped + ring.Contents() == old(ring.Contents())
        invariant more || ring.Contents() == []
        decreases DROP_BATCH_SIZE - |dropped|, more
      {
        ghost var before := ring.Contents();
        var item := ring.Pop();
        if item.Some? {
          assert dropped + before == dropped + [item.value] + ring.Contents();
          dropped := dropped + [item.value];
        } else {
          more := false;
        }
      }
    }

    /** Drops up to 64 of the oldest events of q, in order, to the dead letters. */
    method DropBatchFromQueue(q: QueueId) returns (n: nat)
      requires Valid()
      modifies this, ring, dlq
      ensures Valid() && View() == DropBatch(old(View()), q) && n == DropCount(old(View()), q)
    {
      hide Window, Last;
      var dropped: seq<Event>;
      match q {
        case REALTIME =>
          dropped := PopBatch();
        case TRANSACTIONAL =>
          dropped, transactional := TakeFront(transactional);
        case BATCH =>
          dropped, batch := TakeFront(batch);
      }
      n := |dropped|;
      if n > 0 {
        dlq.PushBatch(dropped);
      }
    }

    /** The source has no case for the ring: asked for it, it answers for the transactional queue. */
    method Size(q: QueueId) returns (n: nat)
      requires Valid()
      ensures n == |Queue(View(), if q == QueueId.BATCH then q else TRANSACTIONAL)|
    {
      match q
      case BATCH => n := |batch|;
      case _ => n := |transactional|;
    }
  }

  // The other half: a bounded number of pops from the front of a deque.
  method TakeFront(queue: seq<Event>) returns (dropped: seq<Event>, rest: seq<Event>)
    ensures dropped + rest == queue
    ensures |dropped| == if |queue| < DROP_BATCH_SIZE then |queue| else DROP_BATCH_SIZE
  {
    dropped, rest := [], queue;
    var toDrop := if |queue| < DROP_BATCH_SIZE then |queue| else DROP_BATCH_SIZE;
    var i := 0;
    while i < toDrop
      invariant 0 <= i <= toDrop && |dropped| == i && dropped + rest == queue
    {
      dropped, rest := dropped + [rest[0]], rest[1..];
      i := i + 1;
    }
  }

  class Dispatcher {
    const bus: EventBus
    var topics: TopicTable

    constructor (bus: EventBus, topics: TopicTable)
      ensures this.bus == bus && this.topics == topics
    {
      this.bus, this.topics := bus, topics;
    }

    method Route(e: Event) returns (routed: Event, q: QueueId)
      requires bus.Valid()
      ensures routed == Routed(topics, bus.View(), e) && q == Target(routed)
    {
      routed := e;
      var priority := MEDIUM;
      if topics.Some? && e.topic in topics.value {
        priority := topics.value[e.topic];
      }
      if Rank(routed.priority) < Rank(priority) {
        routed := routed.(priority := priority);
      }
      if bus.pressure == PressureLevel.CRITICAL {
        if routed.priority == Priority.HIGH {
          routed := routed.(priority := MEDIUM);
        }
      } else if bus.pressure == PressureLevel.HIGH {
        if routed.priority == Priority.HIGH {
          routed := routed.(priority := MEDIUM);
        }
      }
      if routed.priority == Priority.CRITICAL || routed.priority == Priority.HIGH {
        q := REALTIME;
      } else if routed.priority == MEDIUM || routed.priority == LOW {
        q := TRANSACTIONAL;
      } else {
        q := QueueId.BATCH;
      }
    }

    /** One turn of the dispatch loop with no other thread moving ends where the machine ends. */
    method Dispatch(e: Event, ghost s: Machine)
      requires bus.Valid() && s.bus == bus.View() && s.work.Idle?
      modifies bus, bus.ring, bus.ring.buffer, bus.dlq
      ensures bus.Valid() && bus.View() == Alone(TakeStep(topics, s, e)).bus
    {
      hide Routed, Target, Window, Last, PowerOfTwo;
      var routed, q := Route(e);
      var pushed, retries := false, 0;
      ghost var t := TakeStep(topics, s, e);
      while !pushed && retries < MAX_RETRIES
        invariant 0 <= retries <= MAX_RETRIES && bus.Valid() && WorkOk(t.work)
        invariant Alone(t) == Alone(TakeStep(topics, s, e))
        invariant if pushed then t.work.Idle? && t.bus == bus.View()
                  else if retries < MAX_RETRIES then t.work == Trying(routed, q, retries) && t.bus == bus.View()
                  else t.work.Idle? && t.bus == bus.View().(dead := bus.View().dead + [routed])
      {
        t := TryStep(t);
        var outcome := bus.Push(q, routed);
        pushed := outcome.Accepted?;
        if outcome.Waits? {
          t := WaitStep(t);
          pushed := bus.EndWait(routed);
        }
        if !pushed {
          retries := retries + 1;
        }
      }
      if !pushed {
        bus.dlq.Push(routed);
      }
    }
  }
}
