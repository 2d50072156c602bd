/**
  SpscRingBuffer stepped load by load: one pusher and one popper, each working with a snapshot
  of the other's index that may be out of date, under sequential consistency.
 */
module RingSteps {
  import opened Bitwise
  import opened Ring

  datatype Pusher<T> =
    | Idle
    | AtHead(item: T, head: nat)              // head_ loaded, tail_ not yet
    | Room(item: T, head: nat)                // tail_ was seen away from the next slot
    | Written(item: T, head: nat)             // slot written, head_ not yet stored

  datatype Popper<T> =
    | Resting
    | AtTail(tail: nat)                       // tail_ loaded, head_ not yet
    | Filled(tail: nat)                       // head_ was seen away from tail
    | Read(tail: nat, item: T)                // slot read, tail_ not yet stored

  datatype Machine<T> = Machine(
    buffer: seq<T>, head: nat, tail: nat, pusher: Pusher<T>, popper: Popper<T>,
    // history: items of finished pushes and pops
    pushed: seq<T>, popped: seq<T>)

  /** The next atomic action of the pusher; an idle one starts push(item). */
  function PushStep<T>(s: Machine<T>, item: T): (s': Machine<T>)
    requires |s.buffer| > 0
    ensures |s'.buffer| == |s.buffer|
  {
    var capacity := |s.buffer|;
    match s.pusher
    case Idle => s.(pusher := AtHead(item, s.head))
    case AtHead(x, h) =>
      if And(h + 1, capacity - 1) == s.tail then s.(pusher := Idle) else s.(pusher := Room(x, h))
    case Room(x, h) =>
      if h < capacity then s.(pusher := Written(x, h), buffer := s.buffer[h := x]) else s
    case Written(x, h) =>
      s.(pusher := Idle, head := And(h + 1, capacity - 1), pushed := s.pushed + [x])
  }

  /** The next atomic action of the popper. */
  function PopStep<T>(s: Machine<T>): (s': Machine<T>)
    requires |s.buffer| > 0
    ensures |s'.buffer| == |s.buffer|
  {
    match s.popper
    case Resting => s.(popper := AtTail(s.tail))
    case AtTail(t) => if t == s.head then s.(popper := Resting) else s.(popper := Filled(t))
    case Filled(t) => if t < |s.buffer| then s.(popper := Read(t, s.buffer[t])) else s
    case Read(t, x) =>
      s.(popper := Resting, tail := And(t + 1, |s.buffer| - 1), popped := s.popped + [x])
  }

  datatype Move<T> = Push(item: T) | Pop

  function Step<T>(s: Machine<T>, m: Move<T>): (s': Machine<T>)
    requires |s.buffer| > 0
    ensures |s'.buffer| == |s.buffer|
  {
    match m
    case Push(item) => PushStep(s, item)
    case Pop => PopStep(s)
  }

  function Run<T>(s: Machine<T>, schedule: seq<Move<T>>): (s': Machine<T>)
    requires |s.buffer| > 0
    ensures |s'.buffer| == |s.buffer|
    decreases |schedule|
  {
    if schedule == [] then s else Run(Step(s, schedule[0]), schedule[1..])
  }

  // ---------------------------------------------------------------- the bounded queue it refines

  predicate Shaped<T>(s: Machine<T>) {
    PowerOfTwo(|s.buffer|) && s.head < |s.buffer| && s.tail < |s.buffer|
  }

  /** The abstract queue: the slots the two indices enclose. */
  function Queue<T>(s: Machine<T>): seq<T>
    requires Shaped(s)
  {
    Window(s.buffer, s.head, s.tail)
  }

  predicate HasRoom<T>(s: Machine<T>)
    requires Shaped(s)
  {
    Next(s.head, |s.buffer|) != s.tail
  }

  ghost predicate Inv<T>(s: Machine<T>) {
    && Shaped(s)
    && (match s.pusher
        case Idle => true
        case AtHead(_, h) => h == s.head
        case Room(_, h) => h == s.head && HasRoom(s)
        case Written(x, h) => h == s.head && HasRoom(s) && s.buffer[h] == x)
    && (match s.popper
        case Resting => true
        case AtTail(t) => t == s.tail
        case Filled(t) => t == s.tail && s.tail != s.head
        case Read(t, x) => t == s.tail && s.tail != s.head && s.buffer[t] == x)
    && s.pushed == s.popped + Queue(s)
  }

  // A queue with room for one item less than the ring has slots.
  ghost predicate Enqueues<T>(q: seq<T>, q': seq<T>, capacity: nat, x: T) {
    |q| < capacity - 1 && q' == q + [x]
  }

  ghost predicate Dequeues<T>(q: seq<T>, q': seq<T>, x: T) {
    q == [x] + q'
  }

  /**
    Every step of the pusher is a step of the bounded queue: storing head_ appends the item,
    a push is refused exactly when at its load of tail_ the queue is full, and the rest is silent.
   */
  lemma PushRefines<T>(s: Machine<T>, item: T)
    requires Inv(s)
    ensures var s' := PushStep(s, item);
            && Inv(s')
            && (s.pusher.Written? ==> Enqueues(Queue(s), Queue(s'), |s.buffer|, s.pusher.item))
            && (!s.pusher.Written? ==> Queue(s') == Queue(s))
            && (s.pusher.AtHead? ==> (s'.pusher.Idle? <==> |Queue(s)| == |s.buffer| - 1))
  {
    hide And, Window, PowerOfTwo;
    NextIsMasked(s.head, |s.buffer|);
    match s.pusher
    case Idle =>
    case AtHead(_, _) =>
    case Room(x, h) => WriteOutside(s.buffer, s.head, s.tail, x);
    case Written(x, h) =>
      AdvanceHead(s.buffer, s.head, s.tail);
      assert s.popped + (Queue(s) + [x]) == (s.popped + Queue(s)) + [x];
  }

  /** The same for the popper: it answers nullopt exactly when at its load of head_ the queue is empty. */
  lemma PopRefines<T>(s: Machine<T>)
    requires Inv(s)
    ensures var s' := PopStep(s);
            && Inv(s')
            && (s.popper.Read? ==> Dequeues(Queue(s), Queue(s'), s.popper.item))
            && (!s.popper.Read? ==> Queue(s') == Queue(s))
            && (s.popper.AtTail? ==> (s'.popper.Resting? <==> Queue(s) == []))
  {
    NextIsMasked(s.tail, |s.buffer|);
    if s.popper.Read? {
      AdvanceTail(s.buffer, s.head, s.tail);
      assert Queue(s) == [Queue(s)[0]] + Queue(s)[1..];
      assert s.popped + Queue(s) == (s.popped + [s.popper.item]) + Queue(s)[1..];
    }
  }

  lemma {:induction false} RunKeepsInv<T>(s: Machine<T>, schedule: seq<Move<T>>)
    requires Inv(s)
    ensures Inv(Run(s, schedule))
    decreases |schedule|
  {
    if schedule != [] {
      match schedule[0] {
        case Push(item) => PushRefines(s, item);
        case Pop => PopRefines(s);
      }
      RunKeepsInv(Step(s, schedule[0]), schedule[1..]);
    }
  }

  function Init<T>(buffer: seq<T>): Machine<T> {
    Machine(buffer, 0, 0, Idle, Resting, [], [])
  }

  /** In every interleaving the items popped and those queued are the items pushed, in order. */
  lemma RingIsBoundedFifo<T>(buffer: seq<T>, schedule: seq<Move<T>>)
    requires PowerOfTwo(|buffer|)
    ensures var s := Run(Init(buffer), schedule);
            Shaped(s) && s.pushed == s.popped + Queue(s) && |Queue(s)| <= |buffer| - 1
  {
    RunKeepsInv(Init(buffer), schedule);
  }

  /** The slot being written is never the one being read, nor any other slot in use. */
  lemma NoSharedSlot<T>(buffer: seq<T>, schedule: seq<Move<T>>, i: nat)
    requires PowerOfTwo(|buffer|)
    ensures var s := Run(Init(buffer), schedule);
            Shaped(s) &&
            (s.pusher.Room? ==>
               && (s.popper.Filled? ==> s.pusher.head != s.popper.tail)
               && (i < |Queue(s)| ==> Slot(s.tail, i, |s.buffer|) != s.pusher.head))
  {
    RunKeepsInv(Init(buffer), schedule);
  }

  // ---------------------------------------------------------------- calls left alone

  // Four moves one after the other.
  lemma RunFour<T>(s: Machine<T>, m: Move<T>)
    requires |s.buffer| > 0
    ensures Run(s, [m, m, m, m]) == Step(Step(Step(Step(s, m), m), m), m)
  {
    hide Step;
    assert [m, m, m, m][1..] == [m, m, m] && [m, m, m][1..] == [m, m] && [m, m][1..] == [m] && [m][1..] == [];
    var s2 := Step(Step(s, m), m);
    assert Run(s, [m, m, m, m]) == Run(Step(s, m), [m, m, m]) == Run(s2, [m, m]);
    assert Run(s2, [m, m]) == Run(Step(s2, m), [m]) == Run(Step(Step(s2, m), m), []);
  }

  lemma RunTwo<T>(s: Machine<T>, m: Move<T>)
    requires |s.buffer| > 0
    ensures Run(s, [m, m]) == Step(Step(s, m), m)
  {
    hide Step;
    assert [m, m][1..] == [m] && [m][1..] == [];
    assert Run(s, [m, m]) == Run(Step(s, m), [m]) == Run(Step(Step(s, m), m), []);
  }

  /** A push that starts below capacity - 1 items has appended its item four steps later; a full ring refuses in two. */
  lemma PushEnds<T>(s: Machine<T>, x: T)
    requires Inv(s) && s.pusher.Idle?
    ensures |Queue(s)| < |s.buffer| - 1 ==>
              var s' := Run(s, [Push(x), Push(x), Push(x), Push(x)]);
              && Shaped(s') && s'.pusher.Idle? && Queue(s') == Queue(s) + [x]
              && s'.pushed == s.pushed + [x] && s'.popped == s.popped && s'.tail == s.tail
    ensures |Queue(s)| == |s.buffer| - 1 ==> Run(s, [Push(x), Push(x)]) == s
  {
    hide And, Window, PowerOfTwo;
    NextIsMasked(s.head, |s.buffer|);
    RunFour(s, Push(x));
    RunTwo(s, Push(x));
    PushRefines(s, x);
    var s1 := Step(s, Push(x));
    PushRefines(s1, x);
    var s2 := Step(s1, Push(x));
    if |Queue(s)| < |s.buffer| - 1 {
      PushRefines(s2, x);
      PushRefines(Step(s2, Push(x)), x);
    }
  }

  /** A pop of a ring that holds items has taken the oldest four steps later; of an empty one it ends in two. */
  lemma PopEnds<T>(s: Machine<T>)
    requires Inv(s) && s.popper.Resting?
    ensures Queue(s) != [] ==>
              var s' := Run(s, [Pop, Pop, Pop, Pop]);
              && Shaped(s') && s'.popper.Resting? && Queue(s') == Queue(s)[1..]
              && s'.popped == s.popped + [Queue(s)[0]] && s'.pushed == s.pushed && s'.head == s.head
    ensures Queue(s) == [] ==> Run(s, [Pop, Pop]) == s
  {
    hide And, Window, PowerOfTwo;
    RunFour(s, Pop);
    RunTwo(s, Pop);
    PopRefines(s);
    var s1 := Step(s, Pop);
    PopRefines(s1);
    var s2 := Step(s1, Pop);
    if Queue(s) != [] {
      PopRefines(s2);
      PopRefines(Step(s2, Pop));
    }
  }
}
