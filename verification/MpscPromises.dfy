/**
  What the queue of mpsc.hpp promises its callers, as theorems about every run of the machine.
 */
module MpscPromises {
  import opened Wrappers
  import opened Bytes
  import opened MpscSteps

  // ---------------------------------------------------------------- what the queue promises

  /** A run of `producers` threads and one consumer from the constructed queue. */
  function Reached<T>(capacity: nat, producers: nat, dummy: Addr, schedule: seq<Move<T>>): Machine<T> {
    Run(Init(capacity, producers, dummy), schedule)
  }

  lemma ReachedInv<T>(capacity: nat, producers: nat, dummy: Addr, schedule: seq<Move<T>>)
    requires capacity + producers < WORD
    ensures Inv(Reached(capacity, producers, dummy, schedule))
  {
    InitInv<T>(capacity, producers, dummy);
    RunKeepsInv(Init<T>(capacity, producers, dummy), schedule);
  }

  /**
    No step of any run touches a freed node, frees one twice or takes an item twice, and the
    items popped are a prefix of the items pushed in the order of the exchanges on tail_.
   */
  lemma FirstInFirstOut<T>(capacity: nat, producers: nat, dummy: Addr, schedule: seq<Move<T>>)
    requires capacity + producers < WORD
    ensures var s := Reached(capacity, producers, dummy, schedule);
            !s.faulted && s.history.returned <= s.history.taken <= s.history.pushed
  {
    ReachedInv(capacity, producers, dummy, schedule);
  }

  ghost predicate SoleOwer<T>(s: Machine<T>, p: nat, k: nat) {
    Owes(s, p, k) && forall q: nat :: Owes(s, q, k) ==> q == p
  }

  /** A missing link is owed by exactly one producer; an owed link starts at a live, unlinked node. */
  ghost predicate GapsOwedOnce<T>(s: Machine<T>) {
    var c := s.history.chain;
    && |c| >= 1 && c[0] == s.head && c[|c| - 1] == s.tail
    && (forall k :: 0 <= k < |c| ==> c[k] in s.heap)
    && (forall k :: 0 <= k < |c| - 1 ==> LinkedOrOwed(s, k))
    && (forall p: nat, k: nat :: Owes(s, p, k) ==> GapFor(s, p, k))
  }

  ghost predicate LinkedOrOwed<T>(s: Machine<T>, k: nat) {
    var c := s.history.chain;
    && k + 1 < |c| && c[k] in s.heap
    && (s.heap[c[k]].next == Some(c[k + 1]) || (s.heap[c[k]].next == None && exists p :: SoleOwer(s, p, k)))
  }

  /** Producer p is about to write its link into the live node at position k. */
  predicate GapFor<T>(s: Machine<T>, p: nat, k: nat) {
    var c := s.history.chain;
    && k + 1 < |c| && c[k] in s.heap && s.heap[c[k]].next == None
    && p < |s.producers| && s.producers[p].Exchanged?
    && s.producers[p].prev == c[k] && s.producers[p].node == c[k + 1]
  }

  /** The nodes from head_ to tail_ are the pushed, unpopped items, but for links still owed. */
  lemma GapsAreOwedOnce<T>(capacity: nat, producers: nat, dummy: Addr, schedule: seq<Move<T>>)
    requires capacity + producers < WORD
    ensures GapsOwedOnce(Reached(capacity, producers, dummy, schedule))
  {
    ReachedInv(capacity, producers, dummy, schedule);
    var s := Reached(capacity, producers, dummy, schedule);
    var c := s.history.chain;
    forall k | 0 <= k < |c| - 1 ensures LinkedOrOwed(s, k) {
      assert LinkOk(s, k);
      if s.heap[c[k]].next == None {
        var p: nat :| Owes(s, p, k);
        assert SoleOwer(s, p, k);
      }
    }
    forall p: nat, k: nat | Owes(s, p, k) ensures GapFor(s, p, k) {
      assert ProducerOk(s, p);
    }
  }

  /** The check-then-act race on size_ lets at most one extra item in per further producer. */
  lemma NeverFarOverCapacity<T>(capacity: nat, producers: nat, dummy: Addr, schedule: seq<Move<T>>)
    requires capacity + producers < WORD && producers > 0
    ensures var h := Reached(capacity, producers, dummy, schedule).history;
            |h.pushed| - |h.taken| <= |h.pushed| - h.advances <= capacity + producers - 1
  {
    ReachedInv(capacity, producers, dummy, schedule);
    var s := Reached(capacity, producers, dummy, schedule);
    RunKeepsThreads(Init<T>(capacity, producers, dummy), schedule);
    InFlightCovers(s.producers);
  }

  lemma {:induction false} RunKeepsThreads<T>(s: Machine<T>, schedule: seq<Move<T>>)
    ensures Run(s, schedule).capacity == s.capacity && |Run(s, schedule).producers| == |s.producers|
    decreases |schedule|
  {
    if schedule != [] {
      RunKeepsThreads(Step(s, schedule[0]), schedule[1..]);
    }
  }

  /** Items in the queue whose link has been stored. */
  function LinkedItems<T>(s: Machine<T>): int {
    |s.history.chain| - 1 - Count(s.producers, IsExchanged)
  }

  /**
    The counter modulo 2^64 is the number of linked items, less the pushes linked but not yet
    counted, plus the pop not yet counted; when nobody is inside push or pop it is exact.
   */
  lemma SizeCountsLinked<T>(capacity: nat, producers: nat, dummy: Addr, schedule: seq<Move<T>>)
    requires capacity + producers < WORD
    ensures var s := Reached(capacity, producers, dummy, schedule);
            && s.size == Wrap(LinkedItems(s) - Count(s.producers, IsLinked) + Uncounted(s))
            && (Quiet(s) ==> s.size == |s.history.pushed| - |s.history.returned| == LinkedItems(s))
  {
    ReachedInv(capacity, producers, dummy, schedule);
    var s := Reached(capacity, producers, dummy, schedule);
    if Quiet(s) {
      CountZero(s.producers, IsExchanged);
      CountZero(s.producers, IsLinked);
      CountZero(s.producers, InFlight);
      WrapSmall(Counter(s));
    }
  }

  predicate AllIdle<T>(s: Machine<T>) {
    forall p :: 0 <= p < |s.producers| ==> s.producers[p].Idle?
  }

  /** Nobody is inside push or pop. */
  predicate Quiet<T>(s: Machine<T>) {
    s.consumer.Resting? && AllIdle(s)
  }

  /** pop answers nullopt exactly when nothing is queued or the oldest link is still owed. */
  lemma PopEmptyIff<T>(s: Machine<T>)
    requires Inv(s) && s.consumer.AtHead?
    ensures PopStep(s).consumer.Resting? <==> |s.history.chain| == 1 || exists p :: Owes(s, p, 0)
  {
    if |s.history.chain| > 1 {
      assert LinkOk(s, 0);
      forall p: nat | Owes(s, p, 0) ensures s.heap[s.head].next == None {
        assert ProducerOk(s, p);
      }
    }
  }

  /** A push is turned away exactly when the counter is at capacity or has dipped below zero. */
  lemma RejectedIff<T>(s: Machine<T>, p: nat, item: T, spot: Addr)
    requires Inv(s) && p < |s.producers| && s.producers[p].Idle?
    ensures PushStep(s, p, item, spot) == s <==> Counter(s) < 0 || Counter(s) >= s.capacity
  {
    AdmittedBelowCapacity(s);
    assert s.producers[p := Admitted(item)][p] == Admitted(item);
  }

  /** The queue holds nothing, and yet an idle producer p is turned away. */
  predicate RejectsWhileEmpty<T(==)>(s: Machine<T>, p: nat, item: T, spot: Addr) {
    && |s.history.chain| == 1 && s.consumer.Resting?
    && p < |s.producers| && s.producers[p].Idle? && PushStep(s, p, item, spot) == s
  }

  // Producer 0 has linked item 7 and not counted it yet; producer 1 is idle.
  const LinkedUncounted: Machine<int> :=
    Machine(65536, 0, 1, 0, map[0 := Node(None, Some(1)), 1 := Node(Some(7), None)], [Linked, Idle],
            Resting, false, History([0, 1], 0, [7], [], []))

  lemma LinkedUncountedReached()
    ensures Reached(65536, 2, 0, seq(4, _ => Push(0, 7, 1))) == LinkedUncounted
  {
    var push := Push(0, 7, 1);
    var s0 := Init<int>(65536, 2, 0);
    var s1 := s0.(producers := [Admitted(7), Idle]);
    var s2 := s1.(producers := [Created(1), Idle], heap := map[0 := Node(None, None), 1 := Node(Some(7), None)]);
    var s3 := s2.(producers := [Exchanged(1, 0, 1), Idle], tail := 1, history := History([0, 1], 0, [7], [], []));
    assert Step(s0, push) == s1;
    assert Step(s1, push) == s2;
    assert Step(s2, push) == s3;
    assert Step(s3, push) == LinkedUncounted;
    assert seq(4, _ => push) == [push, push, push, push];
    RunFour(s0, push, push, push, push);
  }

  lemma RunFour<T>(s: Machine<T>, a: Move<T>, b: Move<T>, c: Move<T>, d: Move<T>)
    ensures Run(s, [a, b, c, d]) == Step(Step(Step(Step(s, a), b), c), d)
  {
    assert [a, b, c, d][1..] == [b, c, d] && [b, c, d][1..] == [c, d] && [c, d][1..] == [d];
    var s2 := Step(Step(s, a), b);
    assert Run(s, [a, b, c, d]) == Run(Step(s, a), [b, c, d]) == Run(s2, [c, d]);
    assert Run(s2, [c, d]) == Run(Step(s2, c), [d]) == Run(Step(Step(s2, c), d), []);
  }

  /** That does happen: a pop can be counted before the push whose item it took. */
  lemma RejectedWhileEmpty()
    ensures exists schedule: seq<Move<int>>, pops: nat ::
              RejectsWhileEmpty(Pops(Reached(65536, 2, 0, schedule), pops), 1, 8, 2)
  {
    LinkedUncountedReached();
    PoppedFirst();
    assert RejectsWhileEmpty(Pops(Reached(65536, 2, 0, seq(4, _ => Push(0, 7, 1))), 6), 1, 8, 2);
  }

  // The consumer takes the item and counts it.
  lemma PoppedFirst()
    ensures RejectsWhileEmpty(Pops(LinkedUncounted, 6), 1, 8, 2)
  {
    WrapSmall(-1);
    hide Wrap, Pops;
    var s := LinkedUncounted;
    PopsSix(s);
    var s1 := s.(consumer := AtHead(0));
    var s2 := s.(consumer := AtNext(0, 1));
    var s3 := s.(consumer := Moved(0, 1, 7), heap := map[0 := Node(None, Some(1)), 1 := Node(None, None)],
                 history := History([0, 1], 0, [7], [7], []));
    var s4 := s3.(consumer := Advanced(0, 7), head := 1, history := History([1], 1, [7], [7], []));
    var s5 := s4.(consumer := Deleted(7), heap := map[1 := Node(None, None)]);
    var s6 := s5.(consumer := Resting, size := Wrap(-1), history := History([1], 1, [7], [7], [7]));
    assert PopStep(s) == s1 && PopStep(s1) == s2 && PopStep(s2) == s3;
    assert PopStep(s3) == s4 && PopStep(s4) == s5 && PopStep(s5) == s6;
  }

  lemma PopsSix<T>(s: Machine<T>)
    ensures Pops(s, 6) == PopStep(PopStep(PopStep(PopStep(PopStep(PopStep(s))))))
  {
    hide PopStep;
    var s1 := PopStep(s);
    var s2 := PopStep(s1);
    var s3 := PopStep(s2);
    var s4 := PopStep(s3);
    var s5 := PopStep(s4);
    assert Pops(s, 6) == Pops(s1, 5) == Pops(s2, 4) == Pops(s3, 3) == Pops(s4, 2) == Pops(s5, 1);
  }

  // ---------------------------------------------------------------- draining a quiet queue

  /** The consumer alone takes n steps. */
  function Pops<T>(s: Machine<T>, n: nat): Machine<T>
    decreases n
  {
    if n == 0 then s else Pops(PopStep(s), n - 1)
  }

  // Steps left until the current (or next) pop call returns an item.
  function StepsLeft<T>(x: Consumer<T>): nat {
    match x
    case Resting => 6
    case AtHead(_) => 5
    case AtNext(_, _) => 4
    case Moved(_, _, _) => 3
    case Advanced(_, _) => 2
    case Deleted(_) => 1
  }

  // One step of the consumer towards the end of its call, with no push in flight.
  lemma PopAdvances<T>(s: Machine<T>)
    requires Inv(s) && AllIdle(s)
    requires StepsLeft(s.consumer) >= 3 ==> |s.history.chain| >= 2
    ensures var s' := PopStep(s);
            && AllIdle(s') && s'.history.pushed == s.history.pushed
            && |s'.history.chain| == |s.history.chain| - (if s.consumer.Moved? then 1 else 0)
            && (!s.consumer.Deleted? ==>
                  && StepsLeft(s'.consumer) == StepsLeft(s.consumer) - 1
                  && s'.history.returned == s.history.returned)
            && (s.consumer.Deleted? ==>
                  && s'.consumer.Resting?
                  && |s.history.returned| < |s.history.pushed|
                  && s'.history.returned == s.history.returned + [s.history.pushed[|s.history.returned|]])
  {
    hide LinkOk, ProducersOk, Holds, Distinct, NoLeak, SizeOk;
    PopIsSafe(s);
    if s.consumer.AtHead? {
      PopEmptyIff(s);
      forall p: nat ensures !Owes(s, p, 0) {
        assert p < |s.producers| ==> s.producers[p].Idle?;
      }
    }
  }

  lemma {:induction false} PopFinishes<T>(s: Machine<T>)
    requires Inv(s) && AllIdle(s)
    requires StepsLeft(s.consumer) >= 3 ==> |s.history.chain| >= 2
    ensures var s' := Pops(s, StepsLeft(s.consumer));
            && Inv(s') && Quiet(s')
            && |s'.history.chain| == |s.history.chain| - (if StepsLeft(s.consumer) >= 3 then 1 else 0)
            && s'.history.pushed == s.history.pushed
            && |s.history.returned| < |s.history.pushed|
            && s'.history.returned == s.history.returned + [s.history.pushed[|s.history.returned|]]
    decreases StepsLeft(s.consumer)
  {
    hide Inv, PopStep, AllIdle;
    PopKeepsInv(s);
    PopAdvances(s);
    if s.consumer.Deleted? {
      assert Pops(s, 1) == Pops(PopStep(s), 0) == PopStep(s);
    } else {
      PopFinishes(PopStep(s));
    }
  }

  /** n whole pop calls. */
  function Calls<T>(s: Machine<T>, n: nat): Machine<T>
    decreases n
  {
    if n == 0 then s else Calls(Pops(s, 6), n - 1)
  }

  /**
    Once nobody is pushing, as many pop calls as there are items return every one of them in
    order and leave the dummy as the only live node: nothing is lost and nothing leaks.
   */
  lemma {:induction false} DrainReturnsAll<T>(s: Machine<T>)
    requires Inv(s) && Quiet(s)
    ensures var s' := Calls(s, |s.history.chain| - 1);
            && Quiet(s') && !s'.faulted
            && s'.history.returned == s'.history.pushed == s.history.pushed
            && s'.heap.Keys == {s'.head}
    decreases |s.history.chain|
  {
    hide Inv, Pops, AllIdle;
    ChainNotEmpty(s);
    if |s.history.chain| == 1 {
      DrainedIsClean(s);
    } else {
      PopFinishes(s);
      DrainReturnsAll(Pops(s, 6));
    }
  }

  lemma ChainNotEmpty<T>(s: Machine<T>)
    requires Inv(s)
    ensures |s.history.chain| >= 1
  {}

  // With nobody inside and the dummy alone in the chain everything has been returned.
  lemma DrainedIsClean<T>(s: Machine<T>)
    requires Inv(s) && Quiet(s) && |s.history.chain| == 1
    ensures !s.faulted && s.history.returned == s.history.pushed && s.heap.Keys == {s.head}
  {
    hide SizeOk, ProducersOk, LinkOk, Holds;
    assert s.history.chain == [s.head];
  }

  // ---------------------------------------------------------------- a push left alone

  /** Producer p alone takes n steps. */
  function Pushes<T>(s: Machine<T>, p: nat, item: T, spot: Addr, n: nat): Machine<T>
    requires p < |s.producers|
    decreases n
  {
    if n == 0 then s else Pushes(PushStep(s, p, item, spot), p, item, spot, n - 1)
  }

  /** The push of an admitted item ends after four steps: allocate, exchange, link, count. */
  lemma AdmittedPushEnds<T>(s: Machine<T>, p: nat, x: T, item: T, spot: Addr)
    requires Inv(s) && p < |s.producers| && s.producers[p] == Admitted(x) && spot !in s.heap
    ensures Pushes(s, p, item, spot, 4) ==
            s.(producers := s.producers[p := Idle], tail := spot, size := Wrap(s.size + 1),
               heap := s.heap[spot := Node(Some(x), None)][s.tail := s.heap[s.tail].(next := Some(spot))],
               history := s.history.(chain := s.history.chain + [spot], pushed := s.history.pushed + [x]))
  {
    hide Wrap, ProducersOk, ConsumerOk, DataOk, PrefixOk, NoLeak, SizeOk, LinkOk, Distinct;
    assert s.tail in s.heap by { assert Chained(s); }
    var t := s.history.advances + |s.history.chain|;
    var s1 := PushStep(s, p, item, spot);
    var s2 := PushStep(s1, p, item, spot);
    var s3 := PushStep(s2, p, item, spot);
    var s4 := PushStep(s3, p, item, spot);
    assert s1.producers == s.producers[p := Created(spot)];
    assert s2.producers == s.producers[p := Exchanged(spot, s.tail, t)] && s2.history.pushed == s.history.pushed + [x];
    assert s3.producers == s.producers[p := Linked];
    assert s4.producers == s.producers[p := Idle];
    assert Pushes(s, p, item, spot, 4) == Pushes(s1, p, item, spot, 3) == Pushes(s2, p, item, spot, 2);
    assert Pushes(s2, p, item, spot, 2) == Pushes(s3, p, item, spot, 1) == Pushes(s4, p, item, spot, 0) == s4;
  }

  /** So does a whole push below capacity, and its item is the last of the queue. */
  lemma PushFinishes<T>(s: Machine<T>, p: nat, item: T, spot: Addr)
    requires Inv(s) && p < |s.producers| && s.producers[p].Idle? && spot !in s.heap
    requires 0 <= Counter(s) < s.capacity
    ensures var s' := Pushes(s, p, item, spot, 5);
            && Inv(s') && s'.producers == s.producers && s'.consumer == s.consumer
            && s'.size == s.size + 1 && s'.history.chain == s.history.chain + [spot]
            && s'.history.pushed == s.history.pushed + [item]
            && s'.history.taken == s.history.taken && s'.history.returned == s.history.returned
  {
    hide Inv, PushStep;
    PushesAllInv(s, p, item, spot, 5);
    Admits(s, p, item, spot);
    var s1 := PushStep(s, p, item, spot);
    PushKeepsInv(s, p, item, spot);
    AdmittedPushEnds(s1, p, item, item, spot);
    assert Pushes(s, p, item, spot, 5) == Pushes(s1, p, item, spot, 4);
    assert s.producers[p := Admitted(item)][p := Idle] == s.producers;
  }

  lemma {:induction false} PushesAllInv<T>(s: Machine<T>, p: nat, item: T, spot: Addr, n: nat)
    requires Inv(s) && p < |s.producers|
    ensures Inv(Pushes(s, p, item, spot, n))
    decreases n
  {
    hide Inv, PushStep;
    if n > 0 {
      PushKeepsInv(s, p, item, spot);
      SameProducers(s, p, item, spot);
      PushesAllInv(PushStep(s, p, item, spot), p, item, spot, n - 1);
    }
  }

  lemma SameProducers<T>(s: Machine<T>, p: nat, item: T, spot: Addr)
    requires p < |s.producers|
    ensures |PushStep(s, p, item, spot).producers| == |s.producers|
  {}

  lemma Admits<T>(s: Machine<T>, p: nat, item: T, spot: Addr)
    requires Inv(s) && p < |s.producers| && s.producers[p].Idle? && 0 <= Counter(s) < s.capacity
    ensures PushStep(s, p, item, spot) == s.(producers := s.producers[p := Admitted(item)])
    ensures s.size < s.capacity && Wrap(s.size + 1) == s.size + 1
  {
    AdmittedBelowCapacity(s);
  }

  /** One push and one pop call on a queue that is empty and quiet hand the item over. */
  lemma HandsOver<T>(s: Machine<T>, p: nat, item: T, spot: Addr)
    requires Inv(s) && Quiet(s) && |s.history.chain| == 1 && s.capacity > 0
    requires p < |s.producers| && spot !in s.heap
    ensures var s' := Pops(Pushes(s, p, item, spot, 5), 6);
            && Quiet(s') && s'.size == 0 && s'.heap.Keys == {s'.head}
            && s'.history.returned == s.history.returned + [item] == s'.history.pushed
  {
    CountZero(s.producers, IsExchanged);
    CountZero(s.producers, IsLinked);
    hide Inv, Pops, Pushes;
    DrainedIsClean(s);
    PushFinishes(s, p, item, spot);
    var s1 := Pushes(s, p, item, spot, 5);
    PopFinishes(s1);
    var s2 := Pops(s1, 6);
    DrainedIsClean(s2);
    EmptyIsZero(s2);
  }

  lemma EmptyIsZero<T>(s: Machine<T>)
    requires Inv(s) && Quiet(s) && |s.history.chain| == 1
    ensures s.size == 0
  {
    CountZero(s.producers, IsExchanged);
    CountZero(s.producers, IsLinked);
  }
}
