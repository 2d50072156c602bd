/**
  The realtime ring as the bus uses it: the thread that pushes also pops when the ring is full,
  so two threads pop. Stepped load by load like RingSteps, under sequential consistency.
 */
module RingEviction {
  import opened Bitwise
  import opened Ring

  // Where a thread stands inside `pop`.
  datatype Popper<T> =
    | Resting
    | AtTail(tail: nat)                       // tail_ loaded, head_ not yet
    | Filled(tail: nat)                       // head_ was seen away from tail
    | Read(tail: nat, item: T)                // slot read, tail_ not yet stored

  // Where the dispatch thread stands inside EventBusMulti::push to the ring.
  datatype Feeder<T> =
    | Idle
    | AtHead(item: T, head: nat, again: bool) // head_ loaded, by the first push or the second
    | Room(item: T, head: nat)
    | Written(item: T, head: nat)
    | Evicting(item: T, popper: Popper<T>)    // the first push was refused

  datatype Machine<T> = Machine(
    buffer: seq<T>, head: nat, tail: nat, feeder: Feeder<T>, consumer: Popper<T>,
    // history: items pushed, items that left by either pop, items given up
    pushed: seq<T>, left: seq<T>, refused: seq<T>)

  /** One action inside pop up to its last; a resting thread calls pop, an empty ring ends it. */
  function PopStep<T>(s: Machine<T>, p: Popper<T>): Popper<T> {
    match p
    case Resting => AtTail(s.tail)
    case AtTail(t) => if t == s.head then Resting else Filled(t)
    case Filled(t) => if t < |s.buffer| then Read(t, s.buffer[t]) else p
    case Read(_, _) => Resting
  }

  /** The last action of pop: tail_ is stored from the thread's own snapshot, and x has left. */
  function StoreTail<T>(s: Machine<T>, t: nat, x: T): Machine<T>
    requires |s.buffer| > 0
  {
    s.(tail := And(t + 1, |s.buffer| - 1), left := s.left + [x])
  }

  function ConsumeStep<T>(s: Machine<T>): Machine<T>
    requires |s.buffer| > 0
  {
    var t := if s.consumer.Read? then StoreTail(s, s.consumer.tail, s.consumer.item) else s;
    t.(consumer := PopStep(s, s.consumer))
  }

  /** The next action of the dispatch thread; an idle one starts push(item). */
  function FeedStep<T>(s: Machine<T>, item: T): Machine<T>
    requires |s.buffer| > 0
  {
    match s.feeder
    case Idle => s.(feeder := AtHead(item, s.head, false))
    case AtHead(x, h, again) =>
      if And(h + 1, |s.buffer| - 1) != s.tail then s.(feeder := Room(x, h))
      else if again then s.(feeder := Idle, refused := s.refused + [x])
      else s.(feeder := Evicting(x, Resting))
    case Room(x, h) =>
      if h < |s.buffer| then s.(feeder := Written(x, h), buffer := s.buffer[h := x]) else s
    case Written(x, h) =>
      s.(feeder := Idle, head := And(h + 1, |s.buffer| - 1), pushed := s.pushed + [x])
    case Evicting(x, p) =>
      if p.Read? then StoreTail(s, p.tail, p.item).(feeder := AtHead(x, s.head, true))
      else if p.AtTail? && p.tail == s.head then s.(feeder := AtHead(x, s.head, true))
      else s.(feeder := Evicting(x, PopStep(s, p)))
  }

  datatype Move<T> = Feed(item: T) | Consume

  function Step<T>(s: Machine<T>, m: Move<T>): (s': Machine<T>)
    requires |s.buffer| > 0
    ensures |s'.buffer| == |s.buffer|
  {
    match m
    case Feed(item) => FeedStep(s, item)
    case Consume => ConsumeStep(s)
  }

  function Run<T>(s: Machine<T>, schedule: seq<Move<T>>): (s': Machine<T>)
    requires |s.buffer| > 0
    ensures |s'.buffer| == |s.buffer|
    decreases |schedule|
  {
    if schedule == [] then s else Run(Step(s, schedule[0]), schedule[1..])
  }

  function Init<T>(buffer: seq<T>): Machine<T> {
    Machine(buffer, 0, 0, Idle, Resting, [], [], [])
  }

  // ---------------------------------------------------------------- nothing leaves twice, nothing is lost

  predicate Shaped<T>(s: Machine<T>) {
    PowerOfTwo(|s.buffer|) && s.head < |s.buffer| && s.tail < |s.buffer|
  }

  function Queue<T>(s: Machine<T>): seq<T>
    requires Shaped(s)
  {
    Window(s.buffer, s.head, s.tail)
  }

  /** The items that left and those queued are the items pushed, each once and in order. */
  ghost predicate Exact<T>(s: Machine<T>) {
    Shaped(s) && s.pushed == s.left + Queue(s)
  }

  /** What a thread is about to take is still the oldest item. */
  ghost predicate Fresh<T>(s: Machine<T>, t: nat, x: T)
    requires Shaped(s)
  {
    t == s.tail && s.tail != s.head && Queue(s) != [] && Queue(s)[0] == x
  }

  // Tail positions are told apart by the room they leave.
  lemma UsedIsOneLess(head: nat, tail: nat, t: nat, capacity: nat)
    requires head < capacity && tail < capacity && t < capacity
    requires Used(head, Next(t, capacity), capacity) == Used(head, tail, capacity) - 1
    ensures t == tail && tail != head
  {}

  lemma SameOldest<T>(left: seq<T>, q: seq<T>, x: T, q': seq<T>)
    requires left + q == (left + [x]) + q'
    ensures q != [] && q[0] == x
  {
    assert |left + q| == |(left + [x]) + q'|;
    assert (left + q)[|left|] == q[0] && ((left + [x]) + q')[|left|] == x;
  }

  /** A store of tail_ keeps the account exact if and only if what it takes is still the oldest item. */
  lemma StoreExactIff<T>(s: Machine<T>, t: nat, x: T)
    requires Exact(s) && t < |s.buffer|
    ensures Exact(StoreTail(s, t, x)) <==> Fresh(s, t, x)
  {
    hide And, PowerOfTwo, Used, Window;
    var n, s' := |s.buffer|, StoreTail(s, t, x);
    NextIsMasked(t, n);
    var q, q' := Queue(s), Queue(s');
    if s.tail != s.head {
      AdvanceTail(s.buffer, s.head, s.tail);
    }
    if Fresh(s, t, x) {
      assert q == [x] + q[1..];
      assert s.left + ([x] + q[1..]) == (s.left + [x]) + q[1..];
    } else if Exact(s') {
      assert |s.left + q| == |(s.left + [x]) + q'|;
      UsedIsOneLess(s.head, s.tail, t, n);
      SameOldest(s.left, q, x, q');
    }
  }

  predicate HasRoom<T>(s: Machine<T>)
    requires Shaped(s)
  {
    Next(s.head, |s.buffer|) != s.tail
  }

  predicate InRange<T>(s: Machine<T>, p: Popper<T>) {
    p.Resting? || p.tail < |s.buffer|
  }

  ghost predicate Inv<T>(s: Machine<T>) {
    && Exact(s)
    && InRange(s, s.consumer)
    && (match s.feeder
        case Idle => true
        case AtHead(_, h, _) => h == s.head
        case Room(_, h) => h == s.head && HasRoom(s)
        case Written(x, h) => h == s.head && HasRoom(s) && s.buffer[h] == x
        case Evicting(_, p) => InRange(s, p))
  }

  // The pop that the move is about to finish.
  function Finishing<T>(s: Machine<T>, m: Move<T>): Popper<T> {
    if m.Consume? then s.consumer else if s.feeder.Evicting? then s.feeder.popper else Resting
  }

  ghost predicate StoresFresh<T>(s: Machine<T>, m: Move<T>) {
    var p := Finishing(s, m);
    p.Read? ==> Shaped(s) && Fresh(s, p.tail, p.item)
  }

  // The tail of a ring that is not empty moves on and leaves the room there was.
  lemma RoomStays(head: nat, tail: nat, capacity: nat)
    requires head < capacity && tail < capacity && head != tail
    ensures Next(head, capacity) != Next(tail, capacity)
  {}

  lemma StoreKeepsInv<T>(s: Machine<T>, m: Move<T>)
    requires Inv(s) && Finishing(s, m).Read? && StoresFresh(s, m)
    ensures Inv(Step(s, m))
  {
    hide And, PowerOfTwo, Window, Used;
    var p := Finishing(s, m);
    StoreExactIff(s, p.tail, p.item);
    NextIsMasked(p.tail, |s.buffer|);
    RoomStays(s.head, s.tail, |s.buffer|);
    var s1 := StoreTail(s, p.tail, p.item);
    assert Exact(s1) && Queue(Step(s, m)) == Queue(s1);
  }

  lemma WriteKeepsInv<T>(s: Machine<T>, m: Move<T>)
    requires Inv(s) && m.Feed? && (s.feeder.Room? || s.feeder.Written?)
    ensures Inv(Step(s, m))
  {
    hide And, PowerOfTwo, Window, Used;
    NextIsMasked(s.head, |s.buffer|);
    if s.feeder.Room? {
      WriteOutside(s.buffer, s.head, s.tail, s.feeder.item);
    } else {
      AdvanceHead(s.buffer, s.head, s.tail);
      assert (s.left + Queue(s)) + [s.feeder.item] == s.left + (Queue(s) + [s.feeder.item]);
    }
  }

  lemma QuietKeepsInv<T>(s: Machine<T>, m: Move<T>)
    requires Inv(s) && !Finishing(s, m).Read? && !(m.Feed? && (s.feeder.Room? || s.feeder.Written?))
    ensures Inv(Step(s, m))
  {
    hide And, PowerOfTwo, Window, Used;
    NextIsMasked(s.head, |s.buffer|);
    assert Queue(Step(s, m)) == Queue(s);
  }

  lemma StepKeepsInv<T>(s: Machine<T>, m: Move<T>)
    requires Inv(s) && StoresFresh(s, m)
    ensures Inv(Step(s, m))
  {
    hide Inv, Step, StoresFresh;
    if Finishing(s, m).Read? {
      StoreKeepsInv(s, m);
    } else if m.Feed? && (s.feeder.Room? || s.feeder.Written?) {
      WriteKeepsInv(s, m);
    } else {
      QuietKeepsInv(s, m);
    }
  }

  lemma StaleStoreBreaks<T>(s: Machine<T>, m: Move<T>)
    requires Inv(s) && !StoresFresh(s, m)
    ensures !Exact(Step(s, m))
  {
    hide And, PowerOfTwo, Window, Used;
    var p := Finishing(s, m);
    StoreExactIff(s, p.tail, p.item);
    var s1 := StoreTail(s, p.tail, p.item);
    assert Shaped(s1) ==> Queue(Step(s, m)) == Queue(s1);
  }

  ghost predicate ExactThroughout<T>(s: Machine<T>, schedule: seq<Move<T>>)
    requires |s.buffer| > 0
    decreases |schedule|
  {
    Exact(s) && (schedule != [] ==> ExactThroughout(Step(s, schedule[0]), schedule[1..]))
  }

  /** Every store of tail_ in the run takes what is then the oldest item. */
  ghost predicate FreshThroughout<T>(s: Machine<T>, schedule: seq<Move<T>>)
    requires |s.buffer| > 0
    decreases |schedule|
  {
    schedule != [] ==> StoresFresh(s, schedule[0]) && FreshThroughout(Step(s, schedule[0]), schedule[1..])
  }

  /**
    With two threads popping, every event leaves the ring at most once and in order, none lost,
    throughout a run if and only if no thread stores tail_ after the other has taken its item.
   */
  lemma {:induction false} ExactIffFresh<T>(s: Machine<T>, schedule: seq<Move<T>>)
    requires Inv(s)
    ensures ExactThroughout(s, schedule) <==> FreshThroughout(s, schedule)
    decreases |schedule|
  {
    assert |s.buffer| > 0;
    if schedule != [] {
      hide Exact, Step, StoresFresh;
      var s' := Step(s, schedule[0]);
      if StoresFresh(s, schedule[0]) {
        StepKeepsInv(s, schedule[0]);
        hide Inv;
        ExactIffFresh(s', schedule[1..]);
        InvIsExact(s);
      } else {
        StaleStoreBreaks(s, schedule[0]);
      }
    } else {
      InvIsExact(s);
    }
  }

  lemma InvIsExact<T>(s: Machine<T>)
    requires Inv(s)
    ensures Exact(s)
  {}

  // ---------------------------------------------------------------- pops that do not overlap

  predicate Inside<T>(p: Popper<T>) {
    !p.Resting?
  }

  predicate Overlap<T>(s: Machine<T>) {
    Inside(s.consumer) && s.feeder.Evicting? && Inside(s.feeder.popper)
  }

  ghost predicate Accurate<T>(s: Machine<T>, p: Popper<T>) {
    && Shaped(s)
    && match p
       case Resting => true
       case AtTail(t) => t == s.tail
       case Filled(t) => t == s.tail && s.tail != s.head
       case Read(t, x) => Fresh(s, t, x)
  }

  ghost predicate AllAccurate<T>(s: Machine<T>) {
    Accurate(s, s.consumer) && (s.feeder.Evicting? ==> Accurate(s, s.feeder.popper))
  }

  predicate NeverOverlap<T>(s: Machine<T>, schedule: seq<Move<T>>)
    requires |s.buffer| > 0
    decreases |schedule|
  {
    !Overlap(s) && (schedule != [] ==> NeverOverlap(Step(s, schedule[0]), schedule[1..]))
  }

  // The push side only adds items behind the oldest.
  lemma FeedKeepsAccurate<T>(s: Machine<T>, item: T, p: Popper<T>)
    requires Inv(s) && Accurate(s, p) && !(s.feeder.Evicting? && s.feeder.popper.Read?)
    ensures Accurate(Step(s, Feed(item)), p)
  {
    hide And, PowerOfTwo, Window, Used;
    NextIsMasked(s.head, |s.buffer|);
    if s.feeder.Room? {
      WriteOutside(s.buffer, s.head, s.tail, s.feeder.item);
    } else if s.feeder.Written? {
      AdvanceHead(s.buffer, s.head, s.tail);
    }
    assert p.Read? && !s.feeder.Room? && !s.feeder.Written? ==> Queue(Step(s, Feed(item))) == Queue(s);
  }

  // A thread's own next place.
  lemma PopKeepsAccurate<T>(s: Machine<T>, p: Popper<T>)
    requires Shaped(s) && Accurate(s, p)
    ensures Accurate(s, PopStep(s, p))
  {
    hide And, PowerOfTwo, Window, Used;
    if p.Filled? {
      AdvanceTail(s.buffer, s.head, s.tail);
    }
  }

  lemma AccurateAs<T>(s: Machine<T>, s': Machine<T>, p: Popper<T>)
    requires Accurate(s, p) && s'.buffer == s.buffer && s'.head == s.head && s'.tail == s.tail
    ensures Accurate(s', p)
  {
    hide Window, PowerOfTwo;
  }

  lemma ConsumeKeepsAllAccurate<T>(s: Machine<T>)
    requires Inv(s) && AllAccurate(s) && !Overlap(s)
    ensures AllAccurate(Step(s, Consume))
  {
    hide And, PowerOfTwo, Window, Used, Fresh;
    var s' := Step(s, Consume);
    if s.consumer.Read? {
      NextIsMasked(s.consumer.tail, |s.buffer|);
    } else {
      PopKeepsAccurate(s, s.consumer);
      AccurateAs(s, s', s'.consumer);
      if s.feeder.Evicting? {
        AccurateAs(s, s', s.feeder.popper);
      }
    }
  }

  lemma FeedKeepsAllAccurate<T>(s: Machine<T>, item: T)
    requires Inv(s) && AllAccurate(s) && !Overlap(s)
    ensures AllAccurate(Step(s, Feed(item)))
  {
    hide And, PowerOfTwo, Window, Used, Fresh;
    var s' := Step(s, Feed(item));
    if s.feeder.Evicting? && s.feeder.popper.Read? {
      NextIsMasked(s.feeder.popper.tail, |s.buffer|);
    } else {
      FeedKeepsAccurate(s, item, s.consumer);
      if s.feeder.Evicting? {
        PopKeepsAccurate(s, s.feeder.popper);
        AccurateAs(s, s', PopStep(s, s.feeder.popper));
      }
    }
  }

  lemma AccurateStoresFresh<T>(s: Machine<T>, m: Move<T>)
    requires AllAccurate(s)
    ensures StoresFresh(s, m)
  {}

  /** So it is enough that the two threads are never inside pop at once, as under a lock. */
  lemma {:induction false} NoOverlapIsExact<T>(s: Machine<T>, schedule: seq<Move<T>>)
    requires Inv(s) && AllAccurate(s) && NeverOverlap(s, schedule)
    ensures ExactThroughout(s, schedule)
    decreases |schedule|
  {
    InvIsExact(s);
    if schedule != [] {
      hide Exact, AllAccurate, Overlap, Step;
      AccurateStoresFresh(s, schedule[0]);
      StepKeepsInv(s, schedule[0]);
      if schedule[0].Consume? {
        ConsumeKeepsAllAccurate(s);
      } else {
        FeedKeepsAllAccurate(s, schedule[0].item);
      }
      NoOverlapIsExact(Step(s, schedule[0]), schedule[1..]);
    }
  }

  lemma InitOk<T>(buffer: seq<T>)
    requires PowerOfTwo(|buffer|)
    ensures Inv(Init(buffer)) && AllAccurate(Init(buffer))
  {}

  // ---------------------------------------------------------------- one event leaves twice

  function Times<T>(m: Move<T>, n: nat): seq<Move<T>> {
    if n == 0 then [] else [m] + Times(m, n - 1)
  }

  function Again<T>(s: Machine<T>, m: Move<T>, n: nat): (s': Machine<T>)
    requires |s.buffer| > 0
    ensures |s'.buffer| == |s.buffer|
    decreases n
  {
    if n == 0 then s else Again(Step(s, m), m, n - 1)
  }

  lemma {:induction false} RunTimes<T>(s: Machine<T>, m: Move<T>, n: nat, rest: seq<Move<T>>)
    requires |s.buffer| > 0
    ensures Run(s, Times(m, n) + rest) == Run(Again(s, m, n), rest)
    decreases n
  {
    hide Step;
    if n == 0 {
      assert Times(m, 0) + rest == rest;
    } else {
      assert Times(m, n) + rest == [m] + (Times(m, n - 1) + rest);
      assert ([m] + (Times(m, n - 1) + rest))[1..] == Times(m, n - 1) + rest;
      RunTimes(Step(s, m), m, n - 1, rest);
    }
  }

  predicate Quiet<T>(s: Machine<T>) {
    s.feeder.Idle? && s.consumer.Resting?
  }

  /** A push to a ring with room. */
  lemma PushFits<T>(s: Machine<T>, x: T)
    requires Inv(s) && Quiet(s) && HasRoom(s)
    ensures var s' := Again(s, Feed(x), 4);
            Inv(s') && Quiet(s') && Queue(s') == Queue(s) + [x] && s'.left == s.left && s'.pushed == s.pushed + [x]
  {
    hide And, PowerOfTwo, Window, Used;
    var m := Feed(x);
    NextIsMasked(s.head, |s.buffer|);
    var s1 := Step(s, m);
    var s2 := Step(s1, m);
    var s3 := Step(s2, m);
    var s4 := Step(s3, m);
    assert Again(s, m, 4) == Again(s1, m, 3) == Again(s2, m, 2) == Again(s3, m, 1) == Again(s4, m, 0) == s4;
    assert s2.feeder == Room(x, s.head) && s3.feeder == Written(x, s.head);
    WriteOutside(s.buffer, s.head, s.tail, x);
    AdvanceHead(s3.buffer, s.head, s.tail);
    StepKeepsInv(s, m);
    StepKeepsInv(s1, m);
    StepKeepsInv(s2, m);
    StepKeepsInv(s3, m);
  }

  function FillWith<T>(items: seq<T>): seq<Move<T>> {
    if items == [] then [] else Times(Feed(items[0]), 4) + FillWith(items[1..])
  }

  lemma UsedWithRoom(head: nat, tail: nat, capacity: nat)
    requires head < capacity && tail < capacity
    ensures Next(head, capacity) != tail <==> Used(head, tail, capacity) < capacity - 1
  {}

  function AfterFilling<T>(s: Machine<T>, items: seq<T>): (s': Machine<T>)
    requires |s.buffer| > 0
    ensures |s'.buffer| == |s.buffer|
    decreases |items|
  {
    if items == [] then s else AfterFilling(Again(s, Feed(items[0]), 4), items[1..])
  }

  lemma {:induction false} RunFillWith<T>(s: Machine<T>, items: seq<T>, rest: seq<Move<T>>)
    requires |s.buffer| > 0
    ensures Run(s, FillWith(items) + rest) == Run(AfterFilling(s, items), rest)
    decreases |items|
  {
    hide Again, Times, Run;
    if items == [] {
      assert FillWith(items) + rest == rest;
    } else {
      var x, more := items[0], items[1..];
      assert FillWith(items) + rest == Times(Feed(x), 4) + (FillWith(more) + rest);
      RunTimes(s, Feed(x), 4, FillWith(more) + rest);
      RunFillWith(Again(s, Feed(x), 4), more, rest);
    }
  }

  lemma {:induction false} FillsUp<T>(s: Machine<T>, items: seq<T>)
    requires Inv(s) && Quiet(s) && |Queue(s)| + |items| < |s.buffer|
    ensures var s' := AfterFilling(s, items);
            && Inv(s') && Quiet(s') && Queue(s') == Queue(s) + items
            && s'.left == s.left && s'.pushed == s.pushed + items
    decreases |items|
  {
    hide And, PowerOfTwo, Window, Used, Again;
    if items == [] {
      assert Queue(s) + items == Queue(s) && s.pushed + items == s.pushed;
    } else {
      var x, more := items[0], items[1..];
      UsedWithRoom(s.head, s.tail, |s.buffer|);
      PushFits(s, x);
      FillsUp(Again(s, Feed(x), 4), more);
      assert items == [x] + more;
      Grouped(Queue(s), x, more);
      Grouped(s.pushed, x, more);
    }
  }

  lemma Grouped<T>(q: seq<T>, x: T, more: seq<T>)
    ensures (q + [x]) + more == q + ([x] + more)
  {}

  // The consumer reads the oldest item and is stopped before its store.
  lemma ConsumerReads<T>(s: Machine<T>)
    requires Inv(s) && Quiet(s) && s.tail != s.head
    ensures Queue(s) != []
    ensures Again(s, Consume, 3) == s.(consumer := Read(s.tail, Queue(s)[0]))
  {
    hide And, PowerOfTwo, Window, Used;
    AdvanceTail(s.buffer, s.head, s.tail);
    var s1 := Step(s, Consume);
    var s2 := Step(s1, Consume);
    var s3 := Step(s2, Consume);
    assert Again(s, Consume, 3) == Again(s1, Consume, 2) == Again(s2, Consume, 1) == Again(s3, Consume, 0) == s3;
  }

  // A push to a full ring takes the oldest item out.
  lemma FeederEvicts<T>(s: Machine<T>, x: T)
    requires Inv(s) && s.feeder.Idle? && s.tail != s.head && !HasRoom(s)
    ensures Queue(s) != []
    ensures var s' := Again(s, Feed(x), 6);
            s' == s.(feeder := AtHead(x, s.head, true), tail := Next(s.tail, |s.buffer|),
                     left := s.left + [Queue(s)[0]])
  {
    hide And, PowerOfTwo, Window, Used;
    AdvanceTail(s.buffer, s.head, s.tail);
    NextIsMasked(s.head, |s.buffer|);
    NextIsMasked(s.tail, |s.buffer|);
    var m := Feed(x);
    var s1 := Step(s, m);
    var s2 := Step(s1, m);
    var s3 := Step(s2, m);
    assert s3.feeder == Evicting(x, AtTail(s.tail));
    var s4 := Step(s3, m);
    var s5 := Step(s4, m);
    var s6 := Step(s5, m);
    assert Again(s, m, 6) == Again(s1, m, 5) == Again(s2, m, 4) == Again(s3, m, 3);
    assert Again(s3, m, 3) == Again(s4, m, 2) == Again(s5, m, 1) == Again(s6, m, 0) == s6;
  }

  function Unlucky<T>(x: T): seq<Move<T>> {
    Times(Consume, 3) + (Times(Feed(x), 6) + (Times(Consume, 1) + []))
  }

  lemma OldestLeavesTwice<T>(s: Machine<T>, x: T)
    requires Inv(s) && Quiet(s) && s.tail != s.head && !HasRoom(s)
    ensures Queue(s) != [] && Run(s, Unlucky(x)).left == s.left + [Queue(s)[0], Queue(s)[0]]
    ensures Run(s, Unlucky(x)).pushed == s.pushed
  {
    hide And, PowerOfTwo, Window, Used, Times, Again;
    ConsumerReads(s);
    var oldest := Queue(s)[0];
    var s1 := Again(s, Consume, 3);
    assert Queue(s1) == Queue(s);
    FeederEvicts(s1, x);
    var s2 := Again(s1, Feed(x), 6);
    AgainOne(s2, Consume);
    RunTimes(s, Consume, 3, Times(Feed(x), 6) + (Times(Consume, 1) + []));
    RunTimes(s1, Feed(x), 6, Times(Consume, 1) + []);
    RunTimes(s2, Consume, 1, []);
    assert (s.left + [oldest]) + [oldest] == s.left + [oldest, oldest];
  }

  lemma AgainOne<T>(s: Machine<T>, m: Move<T>)
    requires |s.buffer| > 0
    ensures Again(s, m, 1) == Step(s, m)
  {
    hide Step;
    assert Again(s, m, 1) == Again(Step(s, m), m, 0);
  }

  /**
    It does happen, for every capacity but one: fill the ring, let the consumer stop before its
    store, and push once more. The oldest event, pushed once, leaves twice: it is dead-lettered
    by the dispatch thread and handed to the consumer too.
   */
  lemma OneEventTwice<T>(buffer: seq<T>, items: seq<T>, x: T)
    requires PowerOfTwo(|buffer|) && |items| == |buffer| - 1 > 0
    ensures var s := Run(Init(buffer), FillWith(items) + Unlucky(x));
            s.pushed == items && s.left == [items[0], items[0]]
  {
    hide And, PowerOfTwo, Window, Used, Run, Unlucky, FillWith, AfterFilling;
    InitOk(buffer);
    var s0 := Init(buffer);
    NothingQueued(buffer);
    FillsUp(s0, items);
    RunFillWith(s0, items, Unlucky(x));
    var s1 := AfterFilling(s0, items);
    assert [] + items == items && [] + [items[0], items[0]] == [items[0], items[0]];
    UsedWithRoom(s1.head, s1.tail, |buffer|);
    NotEmptyApart(s1);
    OldestLeavesTwice(s1, x);
  }

  lemma NothingQueued<T>(buffer: seq<T>)
    requires PowerOfTwo(|buffer|)
    ensures Queue(Init(buffer)) == []
  {}

  lemma NotEmptyApart<T>(s: Machine<T>)
    requires Shaped(s) && Queue(s) != []
    ensures s.tail != s.head
  {}

  /** A push to a full ring left alone: nine steps later the oldest has left and the item is the newest. */
  lemma EvictingPushEnds<T>(s: Machine<T>, x: T)
    requires Inv(s) && Quiet(s) && s.tail != s.head && !HasRoom(s)
    ensures Queue(s) != []
    ensures var s' := Again(s, Feed(x), 9);
            && Inv(s') && Quiet(s') && Queue(s') == Queue(s)[1..] + [x]
            && s'.left == s.left + [Queue(s)[0]] && s'.pushed == s.pushed + [x] && s'.refused == s.refused
  {
    hide And, PowerOfTwo, Window, Used, Again;
    FeederEvicts(s, x);
    AgainSum(s, Feed(x), 6, 3);
    AgainKeepsOwn(s, x);
    var s6 := Again(s, Feed(x), 6);
    AdvanceTail(s.buffer, s.head, s.tail);
    RoomStays(s.head, s.tail, |s.buffer|);
    SecondPushFits(s6, x);
  }

  // The item taken out is the oldest, so the account stays exact.
  lemma AgainKeepsOwn<T>(s: Machine<T>, x: T)
    requires Inv(s) && Quiet(s) && s.tail != s.head && !HasRoom(s)
    ensures Inv(Again(s, Feed(x), 6))
  {
    hide And, PowerOfTwo, Used, Again, Window;
    FeederEvicts(s, x);
    AdvanceTail(s.buffer, s.head, s.tail);
    var s' := Again(s, Feed(x), 6);
    assert Queue(s) == [Queue(s)[0]] + Queue(s)[1..];
    assert s.left + Queue(s) == (s.left + [Queue(s)[0]]) + Queue(s)[1..];
  }

  lemma {:induction false} AgainSum<T>(s: Machine<T>, m: Move<T>, i: nat, j: nat)
    requires |s.buffer| > 0
    ensures Again(s, m, i + j) == Again(Again(s, m, i), m, j)
    decreases i
  {
    hide Step;
    if i > 0 {
      AgainSum(Step(s, m), m, i - 1, j);
    }
  }

  // The second push, which finds room.
  lemma SecondPushFits<T>(s: Machine<T>, x: T)
    requires Inv(s) && s.consumer.Resting? && HasRoom(s) && s.feeder == AtHead(x, s.head, true)
    ensures var s' := Again(s, Feed(x), 3);
            && Inv(s') && Quiet(s') && Queue(s') == Queue(s) + [x]
            && s'.left == s.left && s'.pushed == s.pushed + [x] && s'.refused == s.refused
  {
    hide And, PowerOfTwo, Window, Used;
    var m := Feed(x);
    NextIsMasked(s.head, |s.buffer|);
    var s1 := Step(s, m);
    var s2 := Step(s1, m);
    var s3 := Step(s2, m);
    assert Again(s, m, 3) == Again(s1, m, 2) == Again(s2, m, 1) == Again(s3, m, 0) == s3;
    assert s1.feeder == Room(x, s.head) && s2.feeder == Written(x, s.head);
    WriteOutside(s.buffer, s.head, s.tail, x);
    AdvanceHead(s2.buffer, s.head, s.tail);
    StepKeepsInv(s, m);
    StepKeepsInv(s1, m);
    StepKeepsInv(s2, m);
  }
}
