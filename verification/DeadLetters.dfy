/** dead_letter_queue.cpp: the last thousand dropped events, and how many there ever were. */
module DeadLetters {
  import opened Events

  const MAX_STORED_EVENTS := 1000

  function Last<T>(s: seq<T>, n: nat): (r: seq<T>)
    ensures |r| == if |s| <= n then |s| else n
  {
    if |s| <= n then s else s[|s| - n..]
  }

  /** Dropping the oldest when full before appending keeps exactly the last n. */
  lemma LastAppend<T>(s: seq<T>, x: T, n: nat)
    requires n > 0
    ensures var kept := Last(s, n);
            Last(s + [x], n) == (if |kept| >= n then kept[1..] else kept) + [x]
  {}

  class DeadLetterQueue {
    var totalDropped: nat
    var stored: seq<Event>
    ghost var history: seq<Event>   // every event ever pushed
    ghost var cleared: nat          // how many of them a clear() has forgotten

    ghost predicate Valid()
      reads this
    {
      && cleared <= |history|
      && totalDropped == |history|
      && stored == Last(history[cleared..], MAX_STORED_EVENTS)
    }

    constructor ()
      ensures Valid() && history == [] && cleared == 0
    {
      totalDropped, stored, history, cleared := 0, [], [], 0;
    }

    method Store(e: Event)
      requires cleared <= |history| && stored == Last(history[cleared..], MAX_STORED_EVENTS)
      modifies this
      ensures history == old(history) + [e] && cleared == old(cleared) && totalDropped == old(totalDropped)
      ensures stored == Last(history[cleared..], MAX_STORED_EVENTS)
    {
      LastAppend(history[cleared..], e, MAX_STORED_EVENTS);
      assert (history + [e])[cleared..] == history[cleared..] + [e];
      if |stored| >= MAX_STORED_EVENTS {
        stored := stored[1..];
      }
      stored := stored + [e];
      history := history + [e];
    }

    method Push(e: Event)
      requires Valid()
      modifies this
      ensures Valid() && history == old(history) + [e] && cleared == old(cleared)
    {
      totalDropped := totalDropped + 1;
      Store(e);
    }

    method PushBatch(events: seq<Event>)
      requires Valid()
      modifies this
      ensures Valid() && history == old(history) + events && cleared == old(cleared)
    {
      totalDropped := totalDropped + |events|;
      var i := 0;
      while i < |events|
        invariant 0 <= i <= |events|
        invariant history == old(history) + events[..i] && cleared == old(cleared) <= |history|
        invariant totalDropped == |old(history)| + |events|
        invariant stored == Last(history[cleared..], MAX_STORED_EVENTS)
      {
        Store(events[i]);
        i := i + 1;
      }
    }

    /** The newest first: event k of the answer is the (k+1)-th from the end of all ever dropped. */
    method GetRecentEvents(maxCount: nat) returns (recent: seq<Event>)
      requires Valid()
      ensures |recent| <= maxCount && |recent| <= 1000 && |recent| <= |history| - cleared
      ensures |recent| == maxCount || |recent| == 1000 || |recent| == |history| - cleared
      ensures forall k :: 0 <= k < |recent| ==> recent[k] == history[|history| - 1 - k]
    {
      var count := if maxCount < |stored| then maxCount else |stored|;
      recent := [];
      while |recent| < count
        invariant |recent| <= count
        invariant forall k :: 0 <= k < |recent| ==> recent[k] == history[|history| - 1 - k]
      {
        recent := recent + [stored[|stored| - 1 - |recent|]];
      }
    }

    /** Forgets the stored events, not their number. */
    method Clear()
      requires Valid()
      modifies this
      ensures Valid() && stored == [] && history == old(history) && totalDropped == old(totalDropped)
    {
      stored := [];
      cleared := |history|;
    }
  }
}
