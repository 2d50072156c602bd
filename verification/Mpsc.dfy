/**
  MpscQueue with its fields updated in place, one atomic action of one thread per call. Under
  Valid() every node a step dereferences is live, so no step needs the fault of the machine.
 */
module Mpsc {
  import opened Wrappers
  import opened Bytes
  import opened MpscSteps

  class MpscQueue<T> {
    const capacity: nat
    var head: Addr
    var tail: Addr
    var size: nat
    var heap: map<Addr, Node<T>>
    var producers: seq<Producer<T>>
    var consumer: Consumer<T>
    var history: History<T>   // a record only: it decides nothing

    ghost function View(): Machine<T>
      reads this
    {
      Machine(capacity, head, tail, size, heap, producers, consumer, false, history)
    }

    ghost predicate Valid()
      reads this
    {
      Inv(View())
    }

    constructor (capacity: nat, threads: nat, dummy: Addr)
      requires capacity + threads < WORD
      ensures Valid() && View() == Init(capacity, threads, dummy)
    {
      this.capacity := capacity;
      head, tail, size := dummy, dummy, 0;
      heap := map[dummy := Node(None, None)];
      producers := seq(threads, _ => Idle);
      consumer := Resting;
      history := History([dummy], 0, [], [], []);
      new;
      InitInv<T>(capacity, threads, dummy);
    }

    /** One atomic action of producer p inside push(item); `spot` is the allocator's choice. */
    method StepPush(p: nat, item: T, spot: Addr)
      requires Valid() && p < |producers|
      modifies this
      ensures Valid() && View() == PushStep(old(View()), p, item, spot)
    {
      PushIsSafe(View(), p);
      PushKeepsInv(View(), p, item, spot);
      hide Inv;
      ActPush(p, item, spot);
    }

    // The action itself, which needs no more than that its nodes are live.
    method ActPush(p: nat, item: T, spot: Addr)
      requires p < |producers| && PushSafe(View(), p)
      modifies this
      ensures View() == PushStep(old(View()), p, item, spot)
    {
      match producers[p]
      case Idle =>
        if size < capacity {
          producers := producers[p := Admitted(item)];
        }
      case Admitted(x) =>
        if spot !in heap {
          heap := heap[spot := Node(Some(x), None)];
          producers := producers[p := Created(spot)];
        }
      case Created(n) =>
        producers := producers[p := Exchanged(n, tail, history.advances + |history.chain|)];
        tail := n;
        history := history.(chain := history.chain + [n], pushed := history.pushed + [heap[n].data.value]);
      case Exchanged(n, prev, _) =>
        heap := heap[prev := heap[prev].(next := Some(n))];
        producers := producers[p := Linked];
      case Linked =>
        size := Wrap(size + 1);
        producers := producers[p := Idle];
    }

    /** One atomic action of the consumer inside pop; `item` is what a finished pop returns. */
    method StepPop() returns (item: Option<T>)
      requires Valid()
      modifies this
      ensures Valid() && View() == PopStep(old(View()))
      ensures item.Some? <==> old(consumer).Deleted?
      ensures item.Some? ==> item.value == old(consumer).item
    {
      PopIsSafe(View());
      PopKeepsInv(View());
      item := ActPop();
    }

    // The action itself, which needs no more than that its node is live.
    method ActPop() returns (item: Option<T>)
      requires PopSafe(View())
      modifies this
      ensures View() == PopStep(old(View()))
      ensures item.Some? <==> old(consumer).Deleted?
      ensures item.Some? ==> item.value == old(consumer).item
    {
      item := None;
      match consumer
      case Resting => consumer := AtHead(head);
      case AtHead(h) =>
        consumer := if heap[h].next.None? then Resting else AtNext(h, heap[h].next.value);
      case AtNext(h, n) =>
        var x := heap[n].data.value;
        heap := heap[n := heap[n].(data := None)];
        consumer := Moved(h, n, x);
        history := history.(taken := history.taken + [x]);
      case Moved(h, n, x) =>
        head := n;
        consumer := Advanced(h, x);
        history := history.(chain := history.chain[1..], advances := history.advances + 1);
      case Advanced(gone, x) =>
        heap := heap - {gone};
        consumer := Deleted(x);
      case Deleted(x) =>
        size := Wrap(size - 1);
        consumer := Resting;
        item := Some(x);
        history := history.(returned := history.returned + [x]);
    }

    /** Any interleaving at all: the queue ends where the machine's run ends. */
    method Play(schedule: seq<Move<T>>)
      requires Valid()
      modifies this
      ensures Valid() && View() == Run(old(View()), schedule)
    {
      var i := 0;
      while i < |schedule|
        invariant 0 <= i <= |schedule| && Valid()
        invariant Run(View(), schedule[i..]) == Run(old(View()), schedule)
      {
        RunOne(View(), schedule[i..]);
        match schedule[i] {
          case Push(p, item, spot) =>
            if p < |producers| {
              StepPush(p, item, spot);
            }
          case Pop =>
            var _ := StepPop();
        }
        i := i + 1;
      }
    }
  }
}
