/** TransactionalProcessor with its fields updated in place, over the duplicate table it owns. */
module Transactions {
  import opened Events
  import opened DeadLetters
  import opened Dedup
  import opened TransactionSteps
  import DedupSteps

  const BUCKET_COUNT: nat := 4096

  class TransactionalProcessor {
    const dedup: Deduplicator
    const dlq: DeadLetterQueue
    var lastCleanup: nat
    var paused: bool
    var maxRetries: int
    var stored: seq<Event>      // the storage engine, as the events handed to it
    ghost var log: seq<Record>
    ghost var earlier: nat      // how many events the dead letters held when the processor was made

    ghost predicate Valid()
      reads this, dedup, dedup.buckets, dedup.repr, dlq
    {
      dedup.Valid() && dlq.Valid() && earlier <= |dlq.history|
    }

    ghost function View(): Processor
      reads this, dedup, dlq
      requires earlier <= |dlq.history|
    {
      Processor(dedup.table, lastCleanup, paused, maxRetries, stored, dlq.history[earlier..], log)
    }

    constructor (dlq: DeadLetterQueue)
      requires dlq.Valid()
      ensures Valid() && View() == Init() && this.dlq == dlq && fresh(dedup) && fresh(dedup.buckets) && dedup.repr == {}
    {
      this.dlq := dlq;
      dedup := new Deduplicator(BUCKET_COUNT);
      lastCleanup, paused, maxRetries, stored := 0, false, 3, [];
      log, earlier := [], |dlq.history|;
    }

    method SetPaused(on: bool)
      requires Valid()
      modifies this`paused
      ensures Valid() && View() == Step(old(View()), if on then Pause else Resume)
    {
      paused := on;
    }

    method SetMaxRetries(n: int)
      requires Valid()
      modifies this`maxRetries
      ensures Valid() && View() == Step(old(View()), TransactionSteps.SetMaxRetries(n))
    {
      maxRetries := n;
    }

    method Process(c: Call)
      requires Valid()
      modifies this, dedup, dedup.buckets, dedup.repr, dlq
      ensures Valid() && View() == TransactionSteps.Process(old(View()), c)
      ensures fresh(dedup.repr - old(dedup.repr))
    {
      hide Handled, DedupSteps.Expired, SweepDue, DedupSteps.Unexpired, Last, Matches;
      if paused {
        Reject(c, false, Paused);
        return;
      }
      var duplicate := dedup.IsDuplicate(c.event.id);
      if duplicate {
        log := log + [Record(c.event, c.now, false, Fate.Duplicate)];
        return;
      }
      var swept := SweepWhenDue(c.now);
      if !c.valid {
        Reject(c, swept, Invalid);
        return;
      }
      if !c.rules {
        Reject(c, swept, Invalid);
        return;
      }
      var success := HandleWithRetry(c);
      if success {
        var _ := dedup.Insert(c.event.id, c.now);
        stored := stored + [c.event];
        log := log + [Record(c.event, c.now, swept, Stored)];
      } else {
        Reject(c, swept, Exhausted);
      }
    }

    method Reject(c: Call, ghost swept: bool, ghost fate: Fate)
      requires Valid()
      modifies this`log, dlq
      ensures Valid() && View() == Drop(old(View()), c, swept, fate)
    {
      dlq.Push(c.event);
      log := log + [Record(c.event, c.now, swept, fate)];
    }

    // The exchange of last_cleanup_ms_ always succeeds for the one thread that calls process.
    method SweepWhenDue(now: nat) returns (swept: bool)
      requires Valid()
      modifies this`lastCleanup, dedup, dedup.buckets, dedup.repr
      ensures Valid() && View() == Sweep(old(View()), now) && dedup.repr == old(dedup.repr)
      ensures swept == SweepDue(old(lastCleanup), now)
    {
      hide Elapsed, DedupSteps.Expired, Swept, Keep;
      swept := lastCleanup == 0 || Elapsed(now, lastCleanup) > CLEANUP_INTERVAL_MS;
      if swept {
        lastCleanup := now;
        dedup.Cleanup(now);
      }
    }

    method HandleWithRetry(c: Call) returns (success: bool)
      ensures success == Handled(c, maxRetries)
      ensures success <==> exists k: nat :: 1 <= k <= maxRetries && c.attempts(k) in {SUCCESS, ALERT}
    {
      HandledIff(c, maxRetries);
      success := false;
      var attempt: nat := 1;
      while attempt <= maxRetries && !success
        invariant attempt >= 1 && (maxRetries >= 0 ==> attempt <= maxRetries + 1)
        invariant success ==> Handled(c, maxRetries)
        invariant !success ==> forall k: nat :: 1 <= k < attempt ==> !Succeeded(c.attempts(k))
        decreases maxRetries - attempt, !success
      {
        var outcome := c.attempts(attempt);
        if outcome == SUCCESS || outcome == ALERT {
          assert Succeeded(c.attempts(attempt));
          success := true;
        } else {
          attempt := attempt + 1;
        }
      }
    }
  }
}
