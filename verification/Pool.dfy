/**
  EventPool of event_pool.hpp: the free list and the events clients hold, for disciplined
  clients and for one that releases what it does not hold.
 */
module Pool {
  import opened Wrappers

  /** A heap fallback carries no index; the source marks it with SIZE_MAX. */
  type Index = Option<nat>

  /** The free slots, the next one to hand out last. */
  datatype Slots = Slots(capacity: nat, free: seq<nat>)

  function TakeSlot(p: Slots): (Slots, Index) {
    if p.free == [] then (p, None) else (p.(free := p.free[..|p.free| - 1]), Some(p.free[|p.free| - 1]))
  }

  /** The second answer: was the object deleted instead of kept? */
  function GiveSlot(p: Slots, index: Index): (Slots, bool) {
    if |p.free| >= p.capacity then (p, true)
    else if index.None? || index.value >= p.capacity then (p, true)
    else (p.(free := p.free + [index.value]), false)
  }

  function UpTo(n: nat): (s: seq<nat>)
    ensures |s| == n && forall i :: 0 <= i < n ==> s[i] == i
  {
    if n == 0 then [] else UpTo(n - 1) + [n - 1]
  }

  // ---------------------------------------------------------------- clients

  /** Pool and clients: the slots handed out, the fallbacks alive, and the slots ever deleted. */
  datatype State = State(pool: Slots, held: multiset<nat>, fallbacks: nat, deleted: multiset<nat>)

  datatype Op = Get | Put(slot: nat) | PutFallback | PutNull | Reset

  function GetStep(s: State): State {
    var (p, index) := TakeSlot(s.pool);
    match index
    case None => s.(fallbacks := s.fallbacks + 1)
    case Some(i) => s.(pool := p, held := s.held + multiset{i})
  }

  function PutStep(s: State, i: nat): State {
    var (p, gone) := GiveSlot(s.pool, Some(i));
    s.(pool := p, held := s.held - multiset{i}, deleted := if gone then s.deleted + multiset{i} else s.deleted)
  }

  /** A disciplined client: an operation it must not ask for is not done. */
  function Step(s: State, op: Op): State {
    match op
    case Get => GetStep(s)
    case Put(i) => if i in s.held then PutStep(s, i) else s
    case PutFallback =>
      if s.fallbacks == 0 then s
      else
        var (p, gone) := GiveSlot(s.pool, None);
        if gone then s.(pool := p, fallbacks := s.fallbacks - 1) else s.(pool := p)
    case PutNull => s
    case Reset => if s.held == multiset{} then s.(pool := s.pool.(free := UpTo(s.pool.capacity))) else s
  }

  function Run(s: State, ops: seq<Op>): State
    decreases |ops|
  {
    if ops == [] then s else Run(Step(s, ops[0]), ops[1..])
  }

  function Init(capacity: nat): State {
    State(Slots(capacity, UpTo(capacity)), multiset{}, 0, multiset{})
  }

  /** Each slot is free once or handed out once, never both, and none was deleted. */
  ghost predicate Partition(s: State) {
    && (forall i :: multiset(s.pool.free)[i] + s.held[i] == if 0 <= i < s.pool.capacity then 1 else 0)
    && s.deleted == multiset{}
  }

  lemma {:induction false} UpToOnce(n: nat)
    ensures forall i :: multiset(UpTo(n))[i] == if 0 <= i < n then 1 else 0
  {
    if n > 0 {
      UpToOnce(n - 1);
    }
  }

  /** Free slots and slots handed out always number the capacity. */
  lemma Counted(s: State)
    requires Partition(s)
    ensures |s.pool.free| + |s.held| == s.pool.capacity
  {
    UpToOnce(s.pool.capacity);
    assert multiset(s.pool.free) + s.held == multiset(UpTo(s.pool.capacity));
    assert |multiset(s.pool.free) + s.held| == |multiset(s.pool.free)| + |s.held|;
  }

  /** While a slot is handed out the pool is not full, so releasing it never meets the delete branch. */
  lemma HeldMeansRoom(s: State, i: nat)
    requires Partition(s) && i in s.held
    ensures |s.pool.free| < s.pool.capacity && i < s.pool.capacity
  {
    Counted(s);
  }

  lemma GetKeeps(s: State)
    requires Partition(s)
    ensures Partition(GetStep(s))
  {
    var free := s.pool.free;
    if free != [] {
      var last := |free| - 1;
      assert free == free[..last] + [free[last]];
      assert multiset(free) == multiset(free[..last]) + multiset{free[last]};
    }
  }

  /** Giving an index back keeps the partition exactly when that slot was handed out. */
  lemma PutKeepsIff(s: State, i: nat)
    requires Partition(s)
    ensures Partition(PutStep(s, i)) <==> i in s.held
  {
    var free, s' := s.pool.free, PutStep(s, i);
    if i in s.held {
      HeldMeansRoom(s, i);
      assert multiset(free + [i]) == multiset(free) + multiset{i};
    } else if |free| >= s.pool.capacity || i >= s.pool.capacity {
      assert s'.deleted[i] > 0;
    } else {
      assert multiset(s'.pool.free) == multiset(free) + multiset{i};
      assert multiset(s'.pool.free)[i] == 2;
    }
  }

  lemma StepKeeps(s: State, op: Op)
    requires Partition(s)
    ensures Partition(Step(s, op))
  {
    match op
    case Get => GetKeeps(s);
    case Put(i) => PutKeepsIff(s, i);
    case PutFallback =>
    case PutNull =>
    case Reset => UpToOnce(s.pool.capacity);
  }

  lemma {:induction false} RunKeeps(s: State, ops: seq<Op>)
    requires Partition(s)
    ensures Partition(Run(s, ops))
    decreases |ops|
  {
    if ops != [] {
      hide Partition, Step;
      StepKeeps(s, ops[0]);
      RunKeeps(Step(s, ops[0]), ops[1..]);
    }
  }

  lemma FreeIffNotHeld(s: State, i: nat)
    requires Partition(s)
    ensures i in s.pool.free <==> i < s.pool.capacity && i !in s.held
    ensures s.held[i] <= 1
  {
    assert i in s.pool.free <==> multiset(s.pool.free)[i] > 0;
  }

  /**
    For disciplined clients, whatever they ask for and in what order: free slots and slots handed
    out partition the pool, the next slot handed out is held by nobody, and no slot is deleted.
   */
  lemma SlotsAreNeverShared(capacity: nat, ops: seq<Op>)
    ensures var s := Run(Init(capacity), ops);
            && (forall i: nat :: i in s.pool.free <==> i < s.pool.capacity && i !in s.held)
            && (forall i: nat :: s.held[i] <= 1)
            && (var index := TakeSlot(s.pool).1; index.Some? ==> index.value !in s.held)
            && (forall i: nat :: i in s.held ==> !GiveSlot(s.pool, Some(i)).1)
            && s.deleted == multiset{}
  {
    UpToOnce(capacity);
    RunKeeps(Init(capacity), ops);
    hide Run, Step, UpTo, Init;
    var s := Run(Init(capacity), ops);
    assert s.deleted == multiset{};
    hide Partition;
    forall i: nat ensures (i in s.pool.free <==> i < s.pool.capacity && i !in s.held) && s.held[i] <= 1 {
      FreeIffNotHeld(s, i);
    }
    forall i: nat | i in s.held ensures !GiveSlot(s.pool, Some(i)).1 {
      HeldMeansRoom(s, i);
    }
  }

  /** What n acquires in a row hand out, with no release between. */
  function Handed(p: Slots, n: nat): (r: seq<Index>)
    ensures |r| == n
    decreases n
  {
    if n == 0 then [] else [TakeSlot(p).1] + Handed(TakeSlot(p).0, n - 1)
  }

  lemma {:induction false} HandedIs(p: Slots, n: nat, k: nat)
    requires k < n
    ensures Handed(p, n)[k] == if k < |p.free| then Some(p.free[|p.free| - 1 - k]) else None
    decreases n
  {
    if k > 0 {
      HandedIs(TakeSlot(p).0, n - 1, k - 1);
    }
  }

  /** A slot that is held and released is the next one handed out, and a null release does nothing. */
  lemma ReleasedComesNext(s: State, i: nat)
    requires Partition(s) && i in s.held
    ensures Step(Step(s, Put(i)), Get) == s && Step(s, PutNull) == s
  {
    HeldMeansRoom(s, i);
    var s' := Step(s, Put(i));
    assert s'.pool.free == s.pool.free + [i] && s'.pool.free[..|s.pool.free|] == s.pool.free;
    assert s'.held + multiset{i} == s.held;
  }

  /** A fallback made when no slot is free is deleted when it is released, whatever the pool holds then. */
  lemma FallbacksAreDeleted(s: State)
    ensures s.pool.free == [] ==> Step(s, Get) == s.(fallbacks := s.fallbacks + 1)
    ensures s.fallbacks > 0 ==> Step(s, PutFallback) == s.(fallbacks := s.fallbacks - 1)
  {}

  /**
    What goes wrong otherwise: a free slot given back to a pool with room is handed out twice by
    the acquires that follow, and given back to a full pool it is deleted under the pool.
   */
  lemma DoubleRelease(p: Slots, j: nat)
    requires j < |p.free| && p.free[j] < p.capacity
    ensures var i := p.free[j];
            && (|p.free| >= p.capacity ==> GiveSlot(p, Some(i)) == (p, true))
            && (|p.free| < p.capacity ==>
                  var handed := Handed(GiveSlot(p, Some(i)).0, |p.free| + 1);
                  handed[0] == Some(i) == handed[|p.free| - j])
  {
    hide Handed, TakeSlot;
    if |p.free| < p.capacity {
      var q, n := GiveSlot(p, Some(p.free[j])).0, |p.free| + 1;
      HandedIs(q, n, 0);
      HandedIs(q, n, |p.free| - j);
    }
  }

  // ---------------------------------------------------------------- the pool updated in place

  class PooledEvent {
    var poolIndex: Index

    constructor (poolIndex: Index)
      ensures this.poolIndex == poolIndex
    {
      this.poolIndex := poolIndex;
    }
  }

  class EventPool {
    const capacity: nat
    const intrusive: bool       // do the events carry their index, or are they looked up?
    const pool: array<PooledEvent?>
    const freeList: array<nat>
    var available: nat
    var ptrToIndex: map<PooledEvent, nat>

    // The index of an event, None for a heap fallback.
    function IndexOf(obj: PooledEvent): Index
      reads this, obj
    {
      if intrusive then obj.poolIndex else if obj in ptrToIndex then Some(ptrToIndex[obj]) else None
    }

    // The first n slots have an event of their own each, found under its index.
    ghost predicate Filled(n: nat)
      reads this, pool, set i | 0 <= i < n && i < pool.Length :: pool[i]
    {
      && n <= pool.Length
      && (forall i :: 0 <= i < n ==> pool[i] != null && IndexOf(pool[i]) == Some(i))
    }

    ghost predicate Valid()
      reads this, pool, freeList, set i | 0 <= i < capacity && i < pool.Length :: pool[i]
    {
      pool.Length == capacity == freeList.Length && Filled(capacity) && available <= capacity
      && (forall k :: 0 <= k < available ==> freeList[k] < capacity)
    }

    ghost function View(): Slots
      reads this, freeList
      requires available <= freeList.Length
    {
      Slots(capacity, freeList[..available])
    }

    constructor (capacity: nat, intrusive: bool)
      ensures Valid() && View() == Init(capacity).pool && this.intrusive == intrusive
      ensures fresh(pool) && fresh(freeList) && forall i :: 0 <= i < capacity ==> fresh(pool[i])
    {
      this.capacity, this.intrusive := capacity, intrusive;
      pool := new PooledEvent?[capacity](_ => null);
      freeList := new nat[capacity](_ => 0);
      available, ptrToIndex := capacity, map[];
      new;
      FillSlots();
    }

    // The loop of constructor and reset: a new event for every slot, and every slot free.
    method FillSlots()
      requires pool.Length == capacity == freeList.Length && available == capacity
      modifies this`ptrToIndex, pool, freeList
      ensures Valid() && View() == Init(capacity).pool
      ensures forall i :: 0 <= i < capacity ==> fresh(pool[i])
    {
      var i := 0;
      while i < capacity
        invariant 0 <= i <= capacity && Filled(i)
        invariant forall k :: 0 <= k < i ==> freeList[k] == k && fresh(pool[k])
      {
        var obj := new PooledEvent(if intrusive then Some(i) else None);
        pool[i] := obj;
        freeList[i] := i;
        if !intrusive {
          ptrToIndex := ptrToIndex[obj := i];
        }
        i := i + 1;
      }
      assert freeList[..capacity] == UpTo(capacity);
    }

    /** The event of the last free slot; a new one outside the pool when none is free. */
    method Acquire() returns (obj: PooledEvent)
      requires Valid()
      modifies this`available
      ensures Valid() && View() == TakeSlot(old(View())).0
      ensures IndexOf(obj) == TakeSlot(old(View())).1
      ensures var index := IndexOf(obj);
              if index.Some? then index.value < capacity && obj == pool[index.value] else fresh(obj)
    {
      if available == 0 {
        obj := new PooledEvent(None);
        return;
      }
      available := available - 1;
      obj := pool[freeList[available]];
    }

    method Release(obj: PooledEvent?) returns (deleted: bool)
      requires Valid()
      modifies this`available, freeList
      ensures Valid()
      ensures obj != null ==> (View(), deleted) == GiveSlot(old(View()), IndexOf(obj))
      ensures obj == null ==> View() == old(View()) && !deleted
    {
      if obj == null {
        return false;
      }
      if available >= capacity {
        return true;
      }
      var index;
      if intrusive {
        if obj.poolIndex.None? {
          return true;
        }
        index := obj.poolIndex.value;
      } else {
        if obj !in ptrToIndex {
          return true;
        }
        index := ptrToIndex[obj];
      }
      if index >= capacity {
        return true;
      }
      freeList[available] := index;
      available := available + 1;
      assert freeList[..available] == old(freeList[..available]) + [index];
      deleted := false;
    }

    method Reset()
      requires Valid()
      modifies this, pool, freeList
      ensures Valid() && View() == Init(capacity).pool
      ensures forall i :: 0 <= i < capacity ==> fresh(pool[i])
    {
      available := capacity;
      FillSlots();
    }
  }
}
