/**
  EventPool for events that do not carry their index: objects have addresses, the allocator may
  use those of deleted objects again, and release() finds the slot of an object by its address.
  reset() deletes the events of all slots and leaves their addresses in the lookup table.
 */
module PoolLookup {
  import opened Wrappers
  import opened Pool

  type Addr = nat

  /** The lookup table after the slots were given events at these addresses: nothing is taken out. */
  function Entered(lookup: map<Addr, nat>, slots: seq<Addr>): map<Addr, nat> {
    if slots == [] then lookup
    else
      var last := |slots| - 1;
      Entered(lookup, slots[..last])[slots[last] := last]
  }

  /**
    The pool and its clients: the address of each slot's event, the heap fallbacks clients hold,
    and those that were released but never deleted.
   */
  datatype Heap = Heap(
    pool: Slots, held: multiset<nat>, deleted: multiset<nat>,
    slots: seq<Addr>, lookup: map<Addr, nat>, strays: set<Addr>, leaked: set<Addr>)

  datatype Op =
    | GetEvent(spot: Addr)              // `spot` is the allocator's choice, should a fallback be needed
    | PutSlot(slot: nat)           // release the event of a slot
    | PutStray(addr: Addr)         // release a fallback
    | ResetPool(after: seq<Addr>)      // `after` are the allocator's choices for the new events

  predicate Apart(slots: seq<Addr>) {
    forall i, j :: 0 <= i < j < |slots| ==> slots[i] != slots[j]
  }

  predicate InUse(s: Heap, a: Addr) {
    a in s.slots || a in s.strays || a in s.leaked
  }

  function IndexAt(s: Heap, a: Addr): Index {
    if a in s.lookup then Some(s.lookup[a]) else None
  }

  function GetAt(s: Heap, spot: Addr): Heap {
    var (p, index) := TakeSlot(s.pool);
    match index
    case Some(i) => s.(pool := p, held := s.held + multiset{i})
    case None => if InUse(s, spot) then s else s.(strays := s.strays + {spot})
  }

  /** The branches of release() for an object at address a, found by that address. */
  function PutSlotAt(s: Heap, i: nat, a: Addr): Heap {
    var (p, gone) := GiveSlot(s.pool, IndexAt(s, a));
    s.(pool := p, held := s.held - multiset{i}, deleted := if gone then s.deleted + multiset{i} else s.deleted)
  }

  function PutStrayAt(s: Heap, a: Addr): Heap {
    var (p, gone) := GiveSlot(s.pool, IndexAt(s, a));
    s.(pool := p, strays := s.strays - {a}, leaked := if gone then s.leaked else s.leaked + {a})
  }

  predicate Usable(s: Heap, after: seq<Addr>) {
    && |after| == s.pool.capacity && Apart(after)
    && (forall a :: a in after ==> a !in s.strays && a !in s.leaked)
  }

  /** A disciplined client: an operation it must not ask for is not done. */
  function Step(s: Heap, op: Op): Heap {
    match op
    case GetEvent(spot) => GetAt(s, spot)
    case PutSlot(i) => if i in s.held && i < |s.slots| then PutSlotAt(s, i, s.slots[i]) else s
    case PutStray(a) => if a in s.strays then PutStrayAt(s, a) else s
    case ResetPool(after) =>
      if s.held == multiset{} && Usable(s, after) then
        s.(pool := s.pool.(free := UpTo(s.pool.capacity)), slots := after, lookup := Entered(s.lookup, after))
      else s
  }

  function Run(s: Heap, ops: seq<Op>): Heap
    decreases |ops|
  {
    if ops == [] then s else Run(Step(s, ops[0]), ops[1..])
  }

  function Init(slots: seq<Addr>): Heap {
    Heap(Slots(|slots|, UpTo(|slots|)), multiset{}, multiset{}, slots, Entered(map[], slots), {}, {})
  }

  // ---------------------------------------------------------------- what steps keep

  /** The pool without the addresses, for which Partition says that no slot is shared or deleted. */
  function Plain(s: Heap): State {
    State(s.pool, s.held, |s.strays|, s.deleted)
  }

  // The table finds the event of every slot; whatever else it finds is at least a slot.
  ghost predicate Found(lookup: map<Addr, nat>, slots: seq<Addr>) {
    && (forall i :: 0 <= i < |slots| ==> slots[i] in lookup && lookup[slots[i]] == i)
    && (forall a :: a in lookup ==> lookup[a] < |slots|)
  }

  ghost predicate Inv(s: Heap) {
    && Partition(Plain(s))
    && |s.slots| == s.pool.capacity
    && Found(s.lookup, s.slots)
    && (forall a :: a in s.slots ==> a !in s.strays && a !in s.leaked)
  }

  lemma {:induction false} EnteredFinds(lookup: map<Addr, nat>, slots: seq<Addr>)
    requires Apart(slots)
    ensures forall i :: 0 <= i < |slots| ==> slots[i] in Entered(lookup, slots) && Entered(lookup, slots)[slots[i]] == i
  {
    if slots != [] {
      EnteredFinds(lookup, slots[..|slots| - 1]);
    }
  }

  lemma {:induction false} EnteredAt(lookup: map<Addr, nat>, slots: seq<Addr>, a: Addr)
    ensures var m := Entered(lookup, slots);
            && (a in m <==> a in lookup || a in slots)
            && (a in slots ==> m[a] < |slots|)
            && (a in lookup && a !in slots ==> m[a] == lookup[a])
  {
    if slots != [] {
      EnteredAt(lookup, slots[..|slots| - 1], a);
      assert slots == slots[..|slots| - 1] + [slots[|slots| - 1]];
    }
  }

  // New events under their addresses, and a table that found slots before.
  lemma EnteredFound(lookup: map<Addr, nat>, slots: seq<Addr>)
    requires Apart(slots) && forall a :: a in lookup ==> lookup[a] < |slots|
    ensures Found(Entered(lookup, slots), slots)
  {
    hide Entered;
    EnteredFinds(lookup, slots);
    forall a | a in Entered(lookup, slots) ensures Entered(lookup, slots)[a] < |slots| {
      EnteredAt(lookup, slots, a);
    }
  }

  /** A fallback whose address the table still has from an earlier slot, released to a pool with room. */
  predicate Misled(s: Heap, op: Op) {
    op.PutStray? && op.addr in s.strays && op.addr in s.lookup && |s.pool.free| < s.pool.capacity
  }

  /**
    Releasing a fallback leaves every slot free once or handed out once if and only if the table
    does not have its address or the pool is full. The holder of the slot found, if there is one,
    keeps it all the same.
   */
  lemma StaleAddressMisleads(s: Heap, a: Addr)
    requires Inv(s) && a in s.strays
    ensures Partition(Plain(PutStrayAt(s, a))) <==> a !in s.lookup || |s.pool.free| == s.pool.capacity
  {
    Counted(Plain(s));
    var s' := PutStrayAt(s, a);
    if a in s.lookup && |s.pool.free| < s.pool.capacity {
      var i := s.lookup[a];
      assert multiset(s'.pool.free) == multiset(s.pool.free) + multiset{i};
      assert multiset(s.pool.free)[i] + s.held[i] == 1;
      assert multiset(s'.pool.free)[i] + s'.held[i] == 2;
    }
  }

  lemma GetKeeps(s: Heap, spot: Addr)
    requires Inv(s)
    ensures Inv(GetAt(s, spot))
  {
    var free, s' := s.pool.free, GetAt(s, spot);
    if free != [] {
      var last := |free| - 1;
      assert free == free[..last] + [free[last]];
      assert multiset(free) == multiset(free[..last]) + multiset{free[last]};
    }
  }

  lemma PutSlotKeeps(s: Heap, i: nat)
    requires Inv(s) && i in s.held
    ensures i < |s.slots| && Inv(PutSlotAt(s, i, s.slots[i]))
  {
    HeldMeansRoom(Plain(s), i);
    assert multiset(s.pool.free + [i]) == multiset(s.pool.free) + multiset{i};
  }

  lemma PutStrayKeeps(s: Heap, a: Addr)
    requires Inv(s) && a in s.strays && !Misled(s, PutStray(a))
    ensures Inv(PutStrayAt(s, a))
  {
    Counted(Plain(s));
    StaleAddressMisleads(s, a);
  }

  lemma ResetKeeps(s: Heap, after: seq<Addr>)
    requires Inv(s) && s.held == multiset{} && Usable(s, after)
    ensures Inv(Step(s, ResetPool(after)))
  {
    UpToOnce(s.pool.capacity);
    EnteredFound(s.lookup, after);
  }

  lemma StepKeeps(s: Heap, op: Op)
    requires Inv(s) && !Misled(s, op)
    ensures Inv(Step(s, op))
  {
    hide Inv, GetAt, PutSlotAt, PutStrayAt;
    match op
    case GetEvent(spot) => GetKeeps(s, spot);
    case PutSlot(i) =>
      if i in s.held {
        PutSlotKeeps(s, i);
      }
    case PutStray(a) =>
      if a in s.strays {
        PutStrayKeeps(s, a);
      }
    case ResetPool(after) =>
      if s.held == multiset{} && Usable(s, after) {
        ResetKeeps(s, after);
      }
  }

  // ---------------------------------------------------------------- whole runs

  ghost predicate SharedNever(s: Heap, ops: seq<Op>)
    decreases |ops|
  {
    Partition(Plain(s)) && (ops != [] ==> SharedNever(Step(s, ops[0]), ops[1..]))
  }

  predicate MisledNever(s: Heap, ops: seq<Op>)
    decreases |ops|
  {
    ops != [] ==> !Misled(s, ops[0]) && MisledNever(Step(s, ops[0]), ops[1..])
  }

  lemma InvShares(s: Heap)
    requires Inv(s)
    ensures Partition(Plain(s))
  {}

  lemma MisledShares(s: Heap, op: Op)
    requires Inv(s) && Misled(s, op)
    ensures !Partition(Plain(Step(s, op)))
  {
    hide Inv, Partition, PutStrayAt;
    StaleAddressMisleads(s, op.addr);
  }

  /**
    Through a whole run of disciplined clients, resets included, every slot stays free once or
    handed out once if and only if no fallback at an address of an earlier event is ever released
    while a slot is handed out.
   */
  lemma {:induction false} SharedIffMisled(s: Heap, ops: seq<Op>)
    requires Inv(s)
    ensures SharedNever(s, ops) <==> MisledNever(s, ops)
    decreases |ops|
  {
    hide Inv, Partition, Misled, Step;
    InvShares(s);
    if ops != [] {
      if Misled(s, ops[0]) {
        MisledShares(s, ops[0]);
      } else {
        StepKeeps(s, ops[0]);
        SharedIffMisled(Step(s, ops[0]), ops[1..]);
      }
    }
  }

  lemma InitInv(slots: seq<Addr>)
    requires Apart(slots)
    ensures Inv(Init(slots))
  {
    UpToOnce(|slots|);
    EnteredFound(map[], slots);
  }

  /** The table holds the slots' own addresses and no others. */
  ghost predicate NoneStale(s: Heap) {
    forall a :: a in s.lookup ==> a in s.slots
  }

  lemma {:induction false} NeverMisled(s: Heap, ops: seq<Op>)
    requires Inv(s) && NoneStale(s) && forall i :: 0 <= i < |ops| ==> !ops[i].ResetPool?
    ensures MisledNever(s, ops)
    decreases |ops|
  {
    if ops != [] {
      assert !Misled(s, ops[0]);
      StepKeeps(s, ops[0]);
      assert NoneStale(Step(s, ops[0]));
      hide Inv, NoneStale, Misled, Step;
      NeverMisled(Step(s, ops[0]), ops[1..]);
    }
  }

  /** Without reset() it cannot happen, whatever addresses the allocator picks. */
  lemma NoResetNoSharing(slots: seq<Addr>, ops: seq<Op>)
    requires Apart(slots) && forall i :: 0 <= i < |ops| ==> !ops[i].ResetPool?
    ensures SharedNever(Init(slots), ops)
  {
    hide Inv, SharedNever, MisledNever;
    InitInv(slots);
    assert NoneStale(Init(slots)) by {
      forall a | a in Init(slots).lookup ensures a in slots {
        EnteredAt(map[], slots, a);
      }
    }
    NeverMisled(Init(slots), ops);
    SharedIffMisled(Init(slots), ops);
  }

  // ---------------------------------------------------------------- a run that shares a slot

  function Times(op: Op, n: nat): seq<Op> {
    if n == 0 then [] else [op] + Times(op, n - 1)
  }

  /** Once every slot is handed out, one more event comes from the heap. */
  lemma {:induction false} Exhausts(s: Heap, spot: Addr, rest: seq<Op>)
    requires !InUse(s, spot)
    ensures Run(s, Times(GetEvent(spot), |s.pool.free|) + rest) ==
              Run(s.(pool := s.pool.(free := []), held := s.held + multiset(s.pool.free)), rest)
    decreases |s.pool.free|
  {
    var n, m := |s.pool.free|, GetEvent(spot);
    if n == 0 {
      assert Times(m, 0) + rest == rest;
      assert s.held + multiset([]) == s.held;
    } else {
      var last := s.pool.free[n - 1];
      var s1 := Step(s, m);
      assert s.pool.free == s.pool.free[..n - 1] + [last];
      assert multiset(s.pool.free) == multiset(s.pool.free[..n - 1]) + multiset{last};
      assert s.held + multiset(s.pool.free) == s1.held + multiset(s1.pool.free);
      assert Times(m, n) + rest == [m] + (Times(m, n - 1) + rest);
      assert ([m] + (Times(m, n - 1) + rest))[1..] == Times(m, n - 1) + rest;
      Exhausts(s1, spot, rest);
    }
  }

  // Reset, exhaust the pool, get one more and release it, get once more.
  function Unlucky(after: seq<Addr>, spot: Addr): seq<Op> {
    [ResetPool(after)] + (Times(GetEvent(spot), |after|) + [GetEvent(spot), PutStray(spot)])
  }

  /**
    It does happen, for every capacity above zero: reset, exhaust the pool, and let the next event
    come from the heap at the address that slot 0 had before. Released, it puts slot 0 on the free
    list while its holder still has it, so the next acquire hands slot 0 out a second time.
   */
  lemma SlotSharedAfterReset(first: seq<Addr>, after: seq<Addr>)
    requires Apart(first) && Apart(after) && |first| == |after| > 0 && first[0] !in after
    ensures var s := Run(Init(first), Unlucky(after, first[0]));
            && s.pool.free == [0] && s.held[0] == 1
            && Step(s, GetEvent(first[0])).held[0] == 2
  {
    hide Entered, Step, UpTo, Times;
    var n, spot, s0 := |first|, first[0], Init(first);
    EnteredFinds(map[], first);
    EnteredAt(s0.lookup, after, spot);
    UpToOnce(n);
    ResetFresh(s0, after);
    var s1 := Step(s0, ResetPool(after));
    var two := [GetEvent(spot), PutStray(spot)];
    assert Unlucky(after, spot)[1..] == Times(GetEvent(spot), n) + two;
    Exhausts(s1, spot, two);
    StrayReturns(s1.(pool := s1.pool.(free := []), held := s1.held + multiset(s1.pool.free)), spot);
  }

  lemma ResetFresh(s: Heap, after: seq<Addr>)
    requires s.held == multiset{} && Usable(s, after)
    ensures Step(s, ResetPool(after)) ==
              s.(pool := s.pool.(free := UpTo(s.pool.capacity)), slots := after, lookup := Entered(s.lookup, after))
  {}

  // The pool exhausted and slot 0 handed out, an event from the heap at a stale address of slot 0.
  lemma StrayReturns(s: Heap, spot: Addr)
    requires s.pool.free == [] && s.pool.capacity > 0 && !InUse(s, spot)
    requires spot in s.lookup && s.lookup[spot] == 0
    ensures var s' := Run(s, [GetEvent(spot), PutStray(spot)]);
            && s'.pool.free == [0] && s'.held == s.held
            && Step(s', GetEvent(spot)).held == s.held + multiset{0}
  {
    var two := [GetEvent(spot), PutStray(spot)];
    assert two[1..] == [PutStray(spot)] && two[1..][1..] == [];
    var s1 := Step(s, GetEvent(spot));
    var s2 := Step(s1, PutStray(spot));
    assert s1 == s.(strays := s.strays + {spot});
    assert s2.pool.free == [] + [0];
    assert Run(s, two) == Run(s1, two[1..]) == Run(s2, []);
  }
}
