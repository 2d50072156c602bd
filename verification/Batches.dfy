/** BatchProcessor with its buckets updated in place. */
module Batches {
  import opened Events
  import opened DeadLetters
  import opened BatchSteps

  class BatchProcessor {
    const handler: Handler
    const window: int
    const dlq: DeadLetterQueue
    var buckets: map<Topic, Bucket>
    var dropping: bool
    var stored: seq<Event>      // the storage engine, as the events handed to it
    var synced: nat             // how many of them its last flush has covered
    ghost var submitted: seq<Submission>
    ghost var admitted: seq<Event>
    ghost var emitted: seq<Emission>
    ghost var earlier: nat      // how many events the dead letters held when the processor was made

    ghost predicate Valid()
      reads this, dlq
    {
      dlq.Valid() && earlier <= |dlq.history|
    }

    ghost function View(): Batcher
      reads this, dlq
      requires earlier <= |dlq.history|
    {
      Batcher(buckets, window, dropping, stored, synced, dlq.history[earlier..], submitted, admitted, emitted)
    }

    constructor (window: int, handler: Handler, dlq: DeadLetterQueue)
      requires dlq.Valid()
      ensures Valid() && View() == Init(window) && this.handler == handler && this.dlq == dlq
    {
      this.window, this.handler, this.dlq := window, handler, dlq;
      buckets, dropping, stored, synced := map[], false, [], 0;
      submitted, admitted, emitted, earlier := [], [], [], |dlq.history|;
    }

    method SetDropping(on: bool)
      requires Valid()
      modifies this`dropping
      ensures Valid() && View() == Step(old(View()), handler, BatchSteps.SetDropping(on))
    {
      dropping := on;
    }

    method Leave(e: Event, exit: Exit)
      requires Valid()
      modifies this`stored, this`emitted, dlq
      ensures Valid() && View() == Emit(old(View()), e, exit)
    {
      if exit == Processed {
        stored := stored + [e];
      } else {
        dlq.Push(e);
      }
      emitted := emitted + [Emission(e, exit)];
    }

    /** While dropping it also has the bus drop a batch of its own queue; `relieve` is that call. */
    method Process(e: Event, now: int, valid: bool, rules: bool) returns (relieve: bool)
      requires Valid()
      modifies this, dlq
      ensures relieve == old(dropping)
      ensures Valid() && View() == BatchSteps.Process(old(View()), handler, e, now, valid, rules)
    {
      hide FlushBucket;
      submitted := submitted + [Submission(e, dropping, valid && rules)];
      relieve := dropping;
      if dropping {
        Leave(e, Dropping);
        return;
      }
      if !valid {
        Leave(e, Refused);
        return;
      }
      if !rules {
        Leave(e, Refused);
        return;
      }
      if e.topic !in buckets {
        buckets := buckets[e.topic := Bucket([], 0)];
      }
      var bucket := buckets[e.topic];
      buckets := buckets[e.topic := bucket.(events := bucket.events + [e])];
      admitted := admitted + [e];
      assert View() == Admit(Note(old(View()), e, valid, rules), e);
      if bucket.lastFlush == 0 {
        buckets := buckets[e.topic := buckets[e.topic].(lastFlush := now)];
        return;
      }
      if now - bucket.lastFlush >= window {
        FlushBucketLocked(e.topic);
        buckets := buckets[e.topic := buckets[e.topic].(lastFlush := now)];
      }
    }

    method Flush(topic: Topic)
      requires Valid()
      modifies this, dlq
      ensures Valid() && View() == FlushBucket(old(View()), handler, topic)
    {
      if topic in buckets {
        FlushBucketLocked(topic);
      }
    }

    method FlushBucketLocked(topic: Topic)
      requires Valid() && topic in buckets
      modifies this, dlq
      ensures Valid() && View() == FlushBucket(old(View()), handler, topic)
      ensures buckets.Keys == old(buckets.Keys)
    {
      var events := buckets[topic].events;
      if events == [] {
        return;
      }
      var i := 0;
      while i < |events|
        invariant 0 <= i <= |events| && Valid() && View().buckets == old(View()).buckets
        invariant EmitAll(View(), handler, events[i..]) == EmitAll(old(View()), handler, events)
      {
        var outcome := handler(events[i]);
        assert events[i..][0] == events[i] && events[i..][1..] == events[i + 1..];
        if outcome == FAIL || outcome == DROP {
          Leave(events[i], Failed);
        } else {
          Leave(events[i], Processed);
        }
        i := i + 1;
      }
      synced := |stored|;
      buckets := buckets[topic := buckets[topic].(events := [])];
    }

    /** The buckets are met in some order, the same whatever it is in what becomes of each topic. */
    method StopAll() returns (ghost order: seq<Topic>)
      requires Valid()
      modifies this, dlq
      ensures Valid() && Covers(old(View()), order) && View() == Stop(old(View()), handler, order)
    {
      hide FlushBucket;
      order := [];
      var rest := buckets.Keys;
      while rest != {}
        invariant Valid() && View() == FlushEach(old(View()), handler, order)
        invariant rest <= buckets.Keys == old(buckets.Keys)
        invariant forall t :: t in old(buckets) ==> t in rest || t in order
        decreases |rest|
      {
        var topic :| topic in rest;
        FlushBucketLocked(topic);
        FlushEachMore(old(View()), handler, order, topic);
        order := order + [topic];
        rest := rest - {topic};
      }
      synced := |stored|;
    }
  }

  lemma {:induction false} FlushEachMore(s: Batcher, h: Handler, order: seq<Topic>, t: Topic)
    ensures FlushEach(s, h, order + [t]) == FlushBucket(FlushEach(s, h, order), h, t)
    decreases |order|
  {
    hide FlushBucket;
    if order == [] {
      assert ([] + [t])[1..] == [];
    } else {
      assert (order + [t])[1..] == order[1..] + [t];
      FlushEachMore(FlushBucket(s, h, order[0]), h, order[1..], t);
    }
  }
}
