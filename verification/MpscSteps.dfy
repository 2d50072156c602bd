/**
  The Vyukov queue of mpsc.hpp as a machine of atomic steps, sequentially consistent.
  Any number of producers and one consumer hold a program counter each; one step is one
  atomic load, store, exchange or fetch of the source, or one access to a node it owns.
  `history` is never read by a step: it only remembers what happened.
 */
module MpscSteps {
  import opened Wrappers
  import opened Bytes

  type Addr = nat

  datatype Node<T> = Node(data: Option<T>, next: Option<Addr>)

  // Where a producer stands inside `push`.
  datatype Producer<T> =
    | Idle
    | Admitted(item: T)                           // the size check let the item in
    | Created(node: Addr)                         // node allocated, not yet published
    | Exchanged(node: Addr, prev: Addr, ticket: nat) // tail moved, prev->next still owed
    | Linked                                      // linked, size_ not yet incremented

  // Where the consumer stands inside `pop`.
  datatype Consumer<T> =
    | Resting
    | AtHead(head: Addr)
    | AtNext(head: Addr, next: Addr)
    | Moved(head: Addr, next: Addr, item: T)
    | Advanced(gone: Addr, item: T)                // head_ stored, old dummy not yet deleted
    | Deleted(item: T)                            // size_ not yet decremented

  datatype History<T> = History(
    chain: seq<Addr>,   // nodes from head_ to tail_ in the order of the exchanges
    advances: nat,      // how often head_ moved
    pushed: seq<T>,     // items in the order of the exchanges
    taken: seq<T>,      // items the consumer moved out of nodes
    returned: seq<T>)   // items `pop` returned

  datatype Machine<T> = Machine(
    capacity: nat,
    head: Addr,
    tail: Addr,
    size: nat,
    heap: map<Addr, Node<T>>,
    producers: seq<Producer<T>>,
    consumer: Consumer<T>,
    faulted: bool,      // some step touched a freed node or an item already moved out
    history: History<T>)

  /** size_t arithmetic: the value of an integer modulo 2^64. */
  function Wrap(v: int): nat {
    v % WORD
  }

  function Init<T>(capacity: nat, producers: nat, dummy: Addr): Machine<T> {
    Machine(capacity, dummy, dummy, 0, map[dummy := Node(None, None)],
            seq(producers, _ => Idle), Resting, false, History([dummy], 0, [], [], []))
  }

  function Fault<T>(s: Machine<T>): Machine<T> {
    s.(faulted := true)
  }

  function SetProducer<T>(s: Machine<T>, p: nat, x: Producer<T>): Machine<T>
    requires p < |s.producers|
  {
    s.(producers := s.producers[p := x])
  }

  /**
    The next atomic action of producer `p`. An idle producer calls push(item); `spot` is the
    address the allocator picks, which may be one that was freed before but never a live one.
   */
  function PushStep<T>(s: Machine<T>, p: nat, item: T, spot: Addr): Machine<T>
    requires p < |s.producers|
  {
    match s.producers[p]
    case Idle =>
      if s.size >= s.capacity then s else SetProducer(s, p, Admitted(item))
    case Admitted(x) =>
      if spot in s.heap then s
      else SetProducer(s, p, Created(spot)).(heap := s.heap[spot := Node(Some(x), None)])
    case Created(n) =>
      if n !in s.heap || s.heap[n].data.None? then Fault(s)
      else
        var h := s.history;
        SetProducer(s, p, Exchanged(n, s.tail, h.advances + |h.chain|))
          .(tail := n,
            history := h.(chain := h.chain + [n], pushed := h.pushed + [s.heap[n].data.value]))
    case Exchanged(n, prev, _) =>
      if prev !in s.heap then Fault(s)
      else SetProducer(s, p, Linked).(heap := s.heap[prev := s.heap[prev].(next := Some(n))])
    case Linked =>
      SetProducer(s, p, Idle).(size := Wrap(s.size + 1))
  }

  /** The next atomic action of the consumer. */
  function PopStep<T>(s: Machine<T>): Machine<T> {
    match s.consumer
    case Resting => s.(consumer := AtHead(s.head))
    case AtHead(h) =>
      if h !in s.heap then Fault(s)
      else if s.heap[h].next.None? then s.(consumer := Resting)   // std::nullopt
      else s.(consumer := AtNext(h, s.heap[h].next.value))
    case AtNext(h, n) =>
      if n !in s.heap || s.heap[n].data.None? then Fault(s)
      else
        var item := s.heap[n].data.value;
        s.(consumer := Moved(h, n, item), heap := s.heap[n := s.heap[n].(data := None)],
           history := s.history.(taken := s.history.taken + [item]))
    case Moved(h, n, item) =>
      s.(consumer := Advanced(h, item), head := n,
         history := s.history.(chain := s.history.chain[if s.history.chain == [] then 0 else 1..],
                               advances := s.history.advances + 1))
    case Advanced(gone, item) =>
      if gone !in s.heap then Fault(s)
      else s.(consumer := Deleted(item), heap := s.heap - {gone})
    case Deleted(item) =>
      s.(consumer := Resting, size := Wrap(s.size - 1),
         history := s.history.(returned := s.history.returned + [item]))
  }

  // A schedule names who moves next; moves of unknown producers are skipped.
  datatype Move<T> = Push(p: nat, item: T, spot: Addr) | Pop

  function Step<T>(s: Machine<T>, m: Move<T>): Machine<T> {
    match m
    case Push(p, item, spot) => if p < |s.producers| then PushStep(s, p, item, spot) else s
    case Pop => PopStep(s)
  }

  function Run<T>(s: Machine<T>, schedule: seq<Move<T>>): Machine<T>
    decreases |schedule|
  {
    if schedule == [] then s else Run(Step(s, schedule[0]), schedule[1..])
  }

  // ---------------------------------------------------------------- counting producers

  predicate IsExchanged<T>(x: Producer<T>) { x.Exchanged? }
  predicate IsLinked<T>(x: Producer<T>) { x.Linked? }
  predicate InFlight<T>(x: Producer<T>) { !x.Idle? }

  function Count<T>(xs: seq<Producer<T>>, f: Producer<T> -> bool): (n: nat)
    ensures n <= |xs|
  {
    if xs == [] then 0 else (if f(xs[0]) then 1 else 0) + Count(xs[1..], f)
  }

  lemma {:induction false} CountUpdate<T>(xs: seq<Producer<T>>, p: nat, x: Producer<T>, f: Producer<T> -> bool)
    requires p < |xs|
    ensures Count(xs[p := x], f) == Count(xs, f) - (if f(xs[p]) then 1 else 0) + (if f(x) then 1 else 0)
  {
    if p == 0 {
      assert xs[0 := x][1..] == xs[1..];
    } else {
      assert xs[p := x][1..] == xs[1..][p - 1 := x];
      CountUpdate(xs[1..], p - 1, x, f);
    }
  }

  lemma {:induction false} CountZero<T>(xs: seq<Producer<T>>, f: Producer<T> -> bool)
    requires forall i :: 0 <= i < |xs| ==> !f(xs[i])
    ensures Count(xs, f) == 0
  {
    if xs != [] {
      CountZero(xs[1..], f);
    }
  }

  lemma {:induction false} InFlightCovers<T>(xs: seq<Producer<T>>)
    ensures Count(xs, IsExchanged) + Count(xs, IsLinked) <= Count(xs, InFlight)
  {
    if xs != [] {
      InFlightCovers(xs[1..]);
    }
  }

  // ---------------------------------------------------------------- the invariant

  predicate Distinct(c: seq<Addr>) {
    forall i, j :: 0 <= i < j < |c| ==> c[i] != c[j]
  }

  /** Producer p still has to store the link into the node at position k of the chain. */
  predicate Owes<T>(s: Machine<T>, p: nat, k: nat) {
    && p < |s.producers|
    && s.producers[p].Exchanged?
    && s.producers[p].ticket == s.history.advances + k + 1
  }

  /** The link from position k is either in place or owed by some producer. */
  ghost predicate LinkOk<T>(s: Machine<T>, k: nat)
    requires k + 1 < |s.history.chain|
  {
    var c := s.history.chain;
    && c[k] in s.heap
    && (s.heap[c[k]].next == Some(c[k + 1]) || (s.heap[c[k]].next == None && exists p :: Owes(s, p, k)))
  }

  ghost predicate Chained<T>(s: Machine<T>) {
    var c := s.history.chain;
    && |c| >= 1 && c[0] == s.head && c[|c| - 1] == s.tail
    && Distinct(c)
    && (forall i :: 0 <= i < |c| ==> c[i] in s.heap)
    && (forall k :: 0 <= k < |c| - 1 ==> LinkOk(s, k))
    && s.heap[s.tail].next == None
  }

  /** What holds of producer p: its private node is its own, its pending link is really a gap. */
  ghost predicate ProducerOk<T>(s: Machine<T>, p: nat)
    requires p < |s.producers|
  {
    var c := s.history.chain;
    match s.producers[p]
    case Created(n) => n in s.heap && n !in c && s.heap[n].next == None && s.heap[n].data.Some?
    case Exchanged(n, prev, t) =>
      var k := t - s.history.advances - 1;
      && 0 <= k < |c| - 1 && c[k] == prev && c[k + 1] == n
      && prev in s.heap && s.heap[prev].next == None
    case _ => true
  }

  predicate Apart<T>(x: Producer<T>, y: Producer<T>) {
    && (x.Created? && y.Created? ==> x.node != y.node)
    && (x.Exchanged? && y.Exchanged? ==> x.ticket != y.ticket)
  }

  ghost predicate ProducersApart<T>(s: Machine<T>) {
    forall p, q :: 0 <= p < |s.producers| && 0 <= q < |s.producers| && p != q ==> Apart(s.producers[p], s.producers[q])
  }

  /** Every producer is well placed, and no two share a private node or a pending link. */
  ghost predicate ProducersOk<T>(s: Machine<T>) {
    && (forall p :: 0 <= p < |s.producers| ==> ProducerOk(s, p))
    && ProducersApart(s)
  }

  ghost predicate ConsumerOk<T>(s: Machine<T>) {
    var c := s.history.chain;
    match s.consumer
    case Resting => true
    case AtHead(h) => h == s.head
    case AtNext(h, n) => |c| >= 2 && h == c[0] && n == c[1] && h in s.heap && s.heap[h].next == Some(n)
    case Moved(h, n, _) => |c| >= 2 && h == c[0] && n == c[1] && h in s.heap && s.heap[h].next == Some(n)
    case Advanced(gone, _) =>
      && gone in s.heap && gone !in c
      && (forall p :: 0 <= p < |s.producers| && s.producers[p].Created? ==> s.producers[p].node != gone)
    case Deleted(_) => true
  }

  /** The node at position i of the chain still holds the item of its exchange. */
  ghost predicate Holds<T>(s: Machine<T>, i: nat)
    requires 1 <= i < |s.history.chain|
  {
    var h := s.history;
    && h.chain[i] in s.heap
    && h.advances + i - 1 < |h.pushed|
    && s.heap[h.chain[i]].data == Some(h.pushed[h.advances + i - 1])
  }

  ghost predicate DataOk<T>(s: Machine<T>) {
    && |s.history.pushed| == s.history.advances + |s.history.chain| - 1
    && (forall i :: (if s.consumer.Moved? then 2 else 1) <= i < |s.history.chain| ==> Holds(s, i))
  }

  /** The consumer took, and returned, a prefix of the pushed items. */
  ghost predicate PrefixOk<T>(s: Machine<T>) {
    var h := s.history;
    && |h.taken| == h.advances + (if s.consumer.Moved? then 1 else 0)
    && h.taken <= h.pushed
    && |h.returned| == h.advances - Uncounted(s)
    && h.returned <= h.pushed
    && (s.consumer.Moved? ==> h.advances < |h.pushed| && s.consumer.item == h.pushed[h.advances])
    && (s.consumer.Advanced? || s.consumer.Deleted? ==>
          1 <= h.advances && s.consumer.item == h.pushed[h.advances - 1])
  }

  /** Nothing is leaked: a live node is in the chain, private to a producer, or being deleted. */
  ghost predicate NoLeak<T>(s: Machine<T>) {
    forall a :: a in s.heap ==>
      || a in s.history.chain
      || (s.consumer.Advanced? && a == s.consumer.gone)
      || exists p :: 0 <= p < |s.producers| && s.producers[p].Created? && s.producers[p].node == a
  }

  // Pops that moved head_ but have not decremented size_ yet.
  function Uncounted<T>(s: Machine<T>): nat {
    if s.consumer.Advanced? || s.consumer.Deleted? then 1 else 0
  }

  /** The integer the counter stands for: linked items, less uncounted pushes, plus uncounted pops. */
  function Counter<T>(s: Machine<T>): int {
    |s.history.chain| - 1 - Count(s.producers, IsExchanged) - Count(s.producers, IsLinked) + Uncounted(s)
  }

  ghost predicate SizeOk<T>(s: Machine<T>) {
    && s.capacity + |s.producers| < WORD
    && s.size == Wrap(Counter(s))
    && (|s.producers| > 0 ==> Counter(s) + Count(s.producers, InFlight) <= s.capacity + |s.producers| - 1)
    && (|s.producers| == 0 ==> Counter(s) <= 0)
  }

  ghost predicate Inv<T>(s: Machine<T>) {
    && !s.faulted
    && Chained(s)
    && ProducersOk(s)
    && ConsumerOk(s)
    && DataOk(s)
    && PrefixOk(s)
    && NoLeak(s)
    && SizeOk(s)
  }

  // ---------------------------------------------------------------- preservation

  lemma InitInv<T>(capacity: nat, producers: nat, dummy: Addr)
    requires capacity + producers < WORD
    ensures Inv(Init<T>(capacity, producers, dummy))
  {
    var s := Init<T>(capacity, producers, dummy);
    CountZero(s.producers, IsExchanged);
    CountZero(s.producers, IsLinked);
    CountZero(s.producers, InFlight);
  }

  lemma WrapSmall(v: int)
    requires 0 < v + WORD && v < WORD
    ensures Wrap(v) == if v < 0 then v + WORD else v
  {}

  lemma WrapStep(v: int, d: int)
    ensures Wrap(Wrap(v) + d) == Wrap(v + d)
  {
    var q := v / WORD;
    assert Wrap(v) + d == (v + d) - WORD * q;
    WrapShift(v + d, -q);
  }

  lemma {:induction false} WrapShift(v: int, q: int)
    ensures Wrap(v + WORD * q) == Wrap(v)
    decreases if q < 0 then -q else q
  {
    if q > 0 {
      WrapShift(v, q - 1);
      assert v + WORD * q == (v + WORD * (q - 1)) + WORD;
    } else if q < 0 {
      WrapShift(v, q + 1);
      assert v + WORD * q == (v + WORD * (q + 1)) - WORD;
    }
  }

  /** How the three counts move when producer p goes from one place to another. */
  lemma CountsMove<T>(xs: seq<Producer<T>>, p: nat, x: Producer<T>)
    requires p < |xs|
    ensures Count(xs[p := x], IsExchanged) ==
              Count(xs, IsExchanged) - (if xs[p].Exchanged? then 1 else 0) + (if x.Exchanged? then 1 else 0)
    ensures Count(xs[p := x], IsLinked) ==
              Count(xs, IsLinked) - (if xs[p].Linked? then 1 else 0) + (if x.Linked? then 1 else 0)
    ensures Count(xs[p := x], InFlight) ==
              Count(xs, InFlight) - (if xs[p].Idle? then 0 else 1) + (if x.Idle? then 0 else 1)
    ensures Count(xs, IsExchanged) + Count(xs, IsLinked) <= Count(xs, InFlight) <= |xs|
  {
    CountUpdate(xs, p, x, IsExchanged);
    CountUpdate(xs, p, x, IsLinked);
    CountUpdate(xs, p, x, InFlight);
    InFlightCovers(xs);
  }

  /** An idle producer is let in only while the integer behind the counter is below capacity. */
  lemma AdmittedBelowCapacity<T>(s: Machine<T>)
    requires SizeOk(s) && |s.history.chain| >= 1 && |s.producers| > 0
    ensures s.size < s.capacity <==> 0 <= Counter(s) < s.capacity
  {
    InFlightCovers(s.producers);
    WrapSmall(Counter(s));
  }

  // The counter follows every producer step, and never exceeds its bound.

  lemma StartKeepsSize<T>(s: Machine<T>, p: nat, item: T, spot: Addr)
    requires SizeOk(s) && |s.history.chain| >= 1 && p < |s.producers|
    requires s.producers[p].Idle? || s.producers[p].Admitted?
    ensures SizeOk(PushStep(s, p, item, spot))
  {
    AdmittedBelowCapacity(s);
    hide Wrap, Count;
    CountsMove(s.producers, p, PushStep(s, p, item, spot).producers[p]);
  }

  lemma PublishKeepsSize<T>(s: Machine<T>, p: nat, item: T, spot: Addr)
    requires SizeOk(s) && |s.history.chain| >= 1 && p < |s.producers|
    requires s.producers[p].Created? || s.producers[p].Exchanged?
    ensures SizeOk(PushStep(s, p, item, spot))
  {
    hide Wrap, Count;
    var s' := PushStep(s, p, item, spot);
    CountsMove(s.producers, p, s'.producers[p]);
    assert Counter(s') == Counter(s);
  }

  lemma CountKeepsSize<T>(s: Machine<T>, p: nat, item: T, spot: Addr)
    requires SizeOk(s) && |s.history.chain| >= 1 && p < |s.producers|
    requires s.producers[p].Linked?
    ensures SizeOk(PushStep(s, p, item, spot))
  {
    hide Wrap, Count;
    CountsMove(s.producers, p, Idle);
    WrapStep(Counter(s), 1);
  }

  lemma PopKeepsSize<T>(s: Machine<T>)
    requires SizeOk(s) && |s.history.chain| >= 1
    requires s.consumer.Moved? ==> |s.history.chain| >= 2
    ensures SizeOk(PopStep(s))
  {
    hide Wrap, Count;
    WrapStep(Counter(s), -1);
  }

  // A gap stays owed while its owner does not move.
  lemma LinkStays<T>(s: Machine<T>, s': Machine<T>, k: nat, k': nat)
    requires k + 1 < |s.history.chain| && k' + 1 < |s'.history.chain|
    requires s'.history.chain[k'] == s.history.chain[k] && s'.history.chain[k' + 1] == s.history.chain[k + 1]
    requires s'.history.advances + k' == s.history.advances + k
    requires LinkOk(s, k)
    requires forall q: nat :: Owes(s, q, k) ==> q < |s'.producers| && s'.producers[q] == s.producers[q]
    requires s.history.chain[k] in s'.heap
    requires s'.heap[s.history.chain[k]].next == s.heap[s.history.chain[k]].next
    ensures LinkOk(s', k')
  {
    if s.heap[s.history.chain[k]].next == None {
      var q :| Owes(s, q, k);
      assert Owes(s', q, k');
    }
  }

  // The ends of the chain, and what every link of it starts from.
  ghost predicate EndsOk<T>(s: Machine<T>) {
    var c := s.history.chain;
    && |c| >= 1 && c[0] == s.head && c[|c| - 1] == s.tail
    && Distinct(c)
    && (forall i :: 0 <= i < |c| ==> c[i] in s.heap)
    && s.heap[s.tail].next == None
  }

  lemma PushKeepsEnds<T>(s: Machine<T>, p: nat, item: T, spot: Addr)
    requires EndsOk(s) && p < |s.producers| && ProducerOk(s, p)
    ensures EndsOk(PushStep(s, p, item, spot))
  {}

  lemma PushKeepsLinks<T>(s: Machine<T>, p: nat, item: T, spot: Addr, k: nat)
    requires Chained(s) && p < |s.producers| && ProducerOk(s, p)
    requires k + 1 < |PushStep(s, p, item, spot).history.chain|
    ensures LinkOk(PushStep(s, p, item, spot), k)
  {
    hide Distinct;
    var s', c := PushStep(s, p, item, spot), s.history.chain;
    if k == |c| - 1 {
      assert Owes(s', p, |c| - 1);
    } else if !Owes(s, p, k) {
      assert LinkOk(s, k);
      PushLeavesLink(s, p, item, spot, k);
      LinkStays(s, s', k, k);
    }
  }

  // A producer that owes another link, or none, does not touch the node at position k.
  lemma PushLeavesLink<T>(s: Machine<T>, p: nat, item: T, spot: Addr, k: nat)
    requires EndsOk(s) && p < |s.producers| && ProducerOk(s, p)
    requires k + 1 < |s.history.chain| && !Owes(s, p, k)
    ensures var s', a := PushStep(s, p, item, spot), s.history.chain[k];
            && a in s'.heap && s'.heap[a].next == s.heap[a].next
            && s'.history.chain[..k + 2] == s.history.chain[..k + 2] && s'.history.advances == s.history.advances
            && |s'.producers| == |s.producers|
            && (forall q: nat :: q < |s.producers| && q != p ==> s'.producers[q] == s.producers[q])
  {}

  lemma PushKeepsChain<T>(s: Machine<T>, p: nat, item: T, spot: Addr)
    requires Chained(s) && p < |s.producers| && ProducerOk(s, p)
    ensures Chained(PushStep(s, p, item, spot))
  {
    var s' := PushStep(s, p, item, spot);
    PushKeepsEnds(s, p, item, spot);
    hide PushStep, ProducerOk, LinkOk, Distinct;
    forall k | 0 <= k < |s'.history.chain| - 1 ensures LinkOk(s', k) {
      PushKeepsLinks(s, p, item, spot, k);
    }
  }

  lemma PushKeepsProducers<T>(s: Machine<T>, p: nat, item: T, spot: Addr)
    requires EndsOk(s) && ProducersOk(s) && p < |s.producers|
    ensures ProducersOk(PushStep(s, p, item, spot))
  {
    var s' := PushStep(s, p, item, spot);
    PushMovesOne(s, p, item, spot);
    assert ProducerOk(s, p);
    PushKeepsOwn(s, p, item, spot);
    forall q | 0 <= q < |s.producers| && q != p ensures ProducerOk(s', q) && Apart(s'.producers[p], s.producers[q]) {
      assert ProducerOk(s, q) && Apart(s.producers[p], s.producers[q]);
      PushKeepsOther(s, p, q, item, spot);
      PushKeepsApart(s, p, q, item, spot);
    }
    hide PushStep, ProducerOk, Apart, EndsOk;
    forall q, r | 0 <= q < |s'.producers| && 0 <= r < |s'.producers| && q != r
      ensures Apart(s'.producers[q], s'.producers[r])
    {
      if q == p || r == p {
        ApartBothWays(s'.producers[q], s'.producers[r]);
      } else {
        assert Apart(s.producers[q], s.producers[r]);
      }
    }
  }

  lemma ApartBothWays<T>(x: Producer<T>, y: Producer<T>)
    ensures Apart(x, y) == Apart(y, x)
  {}

  lemma PushMovesOne<T>(s: Machine<T>, p: nat, item: T, spot: Addr)
    requires p < |s.producers|
    ensures var s' := PushStep(s, p, item, spot); s'.producers == s.producers[p := s'.producers[p]]
  {}

  lemma PushKeepsOwn<T>(s: Machine<T>, p: nat, item: T, spot: Addr)
    requires EndsOk(s) && p < |s.producers| && ProducerOk(s, p)
    ensures ProducerOk(PushStep(s, p, item, spot), p)
  {}

  // A new node is no one's, and a new ticket is the highest.
  lemma PushKeepsApart<T>(s: Machine<T>, p: nat, q: nat, item: T, spot: Addr)
    requires EndsOk(s) && p < |s.producers| && q < |s.producers| && p != q
    requires ProducerOk(s, p) && ProducerOk(s, q) && Apart(s.producers[p], s.producers[q])
    ensures Apart(PushStep(s, p, item, spot).producers[p], s.producers[q])
  {
    hide Distinct;
  }

  // Producer p's step leaves producer q's node and link alone.
  lemma PushKeepsOther<T>(s: Machine<T>, p: nat, q: nat, item: T, spot: Addr)
    requires EndsOk(s) && p < |s.producers| && q < |s.producers| && p != q
    requires ProducerOk(s, p) && ProducerOk(s, q) && Apart(s.producers[p], s.producers[q])
    ensures ProducerOk(PushStep(s, p, item, spot), q)
  {
    if s.producers[p].Exchanged? {
      LinkKeepsOther(s, p, q, item, spot);
    } else if s.producers[p].Created? {
      ExchangeKeepsOther(s, p, q, item, spot);
    }
  }

  lemma LinkKeepsOther<T>(s: Machine<T>, p: nat, q: nat, item: T, spot: Addr)
    requires EndsOk(s) && p < |s.producers| && q < |s.producers| && p != q && s.producers[p].Exchanged?
    requires ProducerOk(s, p) && ProducerOk(s, q) && Apart(s.producers[p], s.producers[q])
    ensures ProducerOk(PushStep(s, p, item, spot), q)
  {}

  lemma ExchangeKeepsOther<T>(s: Machine<T>, p: nat, q: nat, item: T, spot: Addr)
    requires EndsOk(s) && p < |s.producers| && q < |s.producers| && p != q && s.producers[p].Created?
    requires ProducerOk(s, p) && ProducerOk(s, q) && Apart(s.producers[p], s.producers[q])
    ensures ProducerOk(PushStep(s, p, item, spot), q)
  {
    hide Distinct;
  }

  lemma PushKeepsConsumer<T>(s: Machine<T>, p: nat, item: T, spot: Addr)
    requires EndsOk(s) && ConsumerOk(s) && p < |s.producers| && ProducerOk(s, p)
    ensures ConsumerOk(PushStep(s, p, item, spot))
  {}

  lemma PushKeepsData<T>(s: Machine<T>, p: nat, item: T, spot: Addr)
    requires EndsOk(s) && DataOk(s) && p < |s.producers| && ProducerOk(s, p)
    ensures DataOk(PushStep(s, p, item, spot))
  {
    var s' := PushStep(s, p, item, spot);
    forall i | (if s.consumer.Moved? then 2 else 1) <= i < |s'.history.chain| ensures Holds(s', i) {
      if i < |s.history.chain| {
        assert Holds(s, i);
      }
    }
  }

  lemma PushKeepsPrefix<T>(s: Machine<T>, p: nat, item: T, spot: Addr)
    requires PrefixOk(s) && p < |s.producers| && ProducerOk(s, p)
    ensures PrefixOk(PushStep(s, p, item, spot)) && PushStep(s, p, item, spot).faulted == s.faulted
  {
    PushKeepsTakes(s, p, item, spot);
    hide PushStep, ProducerOk;
  }

  // A producer's step leaves the consumer alone and at most adds to the items pushed.
  lemma PushKeepsTakes<T>(s: Machine<T>, p: nat, item: T, spot: Addr)
    requires p < |s.producers| && ProducerOk(s, p)
    ensures var s' := PushStep(s, p, item, spot);
            && s'.consumer == s.consumer && s'.faulted == s.faulted
            && s'.history.taken == s.history.taken && s'.history.returned == s.history.returned
            && s'.history.advances == s.history.advances && s.history.pushed <= s'.history.pushed
  {}

  lemma PushKeepsNoLeak<T>(s: Machine<T>, p: nat, item: T, spot: Addr)
    requires EndsOk(s) && NoLeak(s) && p < |s.producers| && ProducerOk(s, p)
    ensures NoLeak(PushStep(s, p, item, spot))
  {
    var s' := PushStep(s, p, item, spot);
    forall a | a in s'.heap && a !in s'.history.chain && !(s.consumer.Advanced? && a == s.consumer.gone)
      ensures exists q :: 0 <= q < |s'.producers| && s'.producers[q].Created? && s'.producers[q].node == a
    {
      if a in s.heap {
        var q :| 0 <= q < |s.producers| && s.producers[q].Created? && s.producers[q].node == a;
        assert s'.producers[q] == s.producers[q];
      } else {
        assert s'.producers[p] == Created(a);
      }
    }
  }

  /** What a producer is about to touch is live, and the item it publishes is still there. */
  predicate PushSafe<T>(s: Machine<T>, p: nat)
    requires p < |s.producers|
  {
    match s.producers[p]
    case Created(n) => n in s.heap && s.heap[n].data.Some?
    case Exchanged(_, prev, _) => prev in s.heap
    case _ => true
  }

  lemma PushIsSafe<T>(s: Machine<T>, p: nat)
    requires ProducersOk(s) && p < |s.producers|
    ensures PushSafe(s, p)
  {
    assert ProducerOk(s, p);
  }

  lemma PushKeepsInv<T>(s: Machine<T>, p: nat, item: T, spot: Addr)
    requires Inv(s) && p < |s.producers|
    ensures Inv(PushStep(s, p, item, spot))
  {
    assert EndsOk(s) && ProducerOk(s, p);
    hide Chained, EndsOk, ProducersOk, ProducerOk, ConsumerOk, DataOk, PrefixOk, NoLeak, SizeOk, PushStep;
    match s.producers[p] {
      case Idle => StartKeepsSize(s, p, item, spot);
      case Admitted(_) => StartKeepsSize(s, p, item, spot);
      case Created(_) => PublishKeepsSize(s, p, item, spot);
      case Exchanged(_, _, _) => PublishKeepsSize(s, p, item, spot);
      case Linked => CountKeepsSize(s, p, item, spot);
    }
    PushKeepsChain(s, p, item, spot);
    PushKeepsProducers(s, p, item, spot);
    PushKeepsConsumer(s, p, item, spot);
    PushKeepsData(s, p, item, spot);
    PushKeepsPrefix(s, p, item, spot);
    PushKeepsNoLeak(s, p, item, spot);
  }

  lemma PopKeepsEnds<T>(s: Machine<T>)
    requires EndsOk(s) && ConsumerOk(s)
    ensures EndsOk(PopStep(s))
  {}

  // Where position k of the chain was before the consumer's step.
  function Before<T>(s: Machine<T>, k: nat): nat {
    if s.consumer.Moved? then k + 1 else k
  }

  // Its node keeps its link.
  lemma PopLeavesLink<T>(s: Machine<T>, k: nat)
    requires EndsOk(s) && ConsumerOk(s) && k + 1 < |PopStep(s).history.chain|
    ensures Before(s, k) + 1 < |s.history.chain|
    ensures PopStep(s).history.advances + k == s.history.advances + Before(s, k)
    ensures PopStep(s).history.chain[k] == s.history.chain[Before(s, k)]
    ensures PopStep(s).history.chain[k + 1] == s.history.chain[Before(s, k) + 1]
    ensures s.history.chain[Before(s, k)] in PopStep(s).heap
    ensures PopStep(s).heap[s.history.chain[Before(s, k)]].next == s.heap[s.history.chain[Before(s, k)]].next
  {}

  lemma PopKeepsChain<T>(s: Machine<T>)
    requires Chained(s) && ConsumerOk(s)
    ensures Chained(PopStep(s))
  {
    var s' := PopStep(s);
    PopKeepsEnds(s);
    assert s'.producers == s.producers;
    hide Distinct, PopStep, ConsumerOk;
    forall k | 0 <= k < |s'.history.chain| - 1 ensures LinkOk(s', k) {
      PopLeavesLink(s, k);
      assert LinkOk(s, Before(s, k));
      LinkStays(s, s', Before(s, k), k);
    }
  }

  lemma PopKeepsProducers<T>(s: Machine<T>)
    requires Chained(s) && ProducersOk(s) && ConsumerOk(s)
    ensures ProducersOk(PopStep(s))
  {
    forall q | 0 <= q < |s.producers| ensures ProducerOk(PopStep(s), q) {
      assert ProducerOk(s, q);
      PopKeepsProducer(s, q);
    }
  }

  lemma PopKeepsProducer<T>(s: Machine<T>, q: nat)
    requires EndsOk(s) && ConsumerOk(s) && q < |s.producers| && ProducerOk(s, q)
    ensures ProducerOk(PopStep(s), q)
  {
    if s.consumer.Moved? {
      AdvanceKeepsProducer(s, q);
    }
  }

  // head_ moves on: positions shift by one, and the consumer's link was no gap.
  lemma AdvanceKeepsProducer<T>(s: Machine<T>, q: nat)
    requires EndsOk(s) && ConsumerOk(s) && q < |s.producers| && ProducerOk(s, q) && s.consumer.Moved?
    ensures ProducerOk(PopStep(s), q)
  {
    hide Distinct;
  }

  lemma PopKeepsConsumer<T>(s: Machine<T>)
    requires Chained(s) && ProducersOk(s) && ConsumerOk(s)
    ensures ConsumerOk(PopStep(s))
  {
    if s.consumer.AtHead? && |s.history.chain| >= 2 {
      assert LinkOk(s, 0);
    }
    forall q | 0 <= q < |s.producers| && s.producers[q].Created? ensures s.producers[q].node !in s.history.chain {
      assert ProducerOk(s, q);
    }
  }

  lemma PopKeepsData<T>(s: Machine<T>)
    requires EndsOk(s) && ConsumerOk(s) && DataOk(s)
    ensures DataOk(PopStep(s))
  {
    var s' := PopStep(s);
    var shift := if s.consumer.Moved? then 1 else 0;
    forall i | (if s'.consumer.Moved? then 2 else 1) <= i < |s'.history.chain| ensures Holds(s', i) {
      assert Holds(s, i + shift);
    }
  }

  lemma PopKeepsPrefix<T>(s: Machine<T>)
    requires Chained(s) && ConsumerOk(s) && DataOk(s) && PrefixOk(s)
    ensures PrefixOk(PopStep(s)) && PopStep(s).faulted == s.faulted
  {
    if s.consumer.AtNext? {
      assert Holds(s, 1);
    }
  }

  /** What the consumer is about to touch is live, and an item it takes is still there. */
  predicate PopSafe<T>(s: Machine<T>) {
    match s.consumer
    case AtHead(h) => h in s.heap
    case AtNext(_, n) => n in s.heap && s.heap[n].data.Some?
    case Moved(_, _, _) => s.history.chain != []
    case Advanced(gone, _) => gone in s.heap
    case _ => true
  }

  lemma PopIsSafe<T>(s: Machine<T>)
    requires Chained(s) && ConsumerOk(s) && DataOk(s)
    ensures PopSafe(s)
  {
    if s.consumer.AtNext? {
      assert Holds(s, 1);
    }
  }

  lemma PopKeepsNoLeak<T>(s: Machine<T>)
    requires EndsOk(s) && ConsumerOk(s) && NoLeak(s)
    ensures NoLeak(PopStep(s))
  {}

  lemma PopKeepsInv<T>(s: Machine<T>)
    requires Inv(s)
    ensures Inv(PopStep(s))
  {
    assert EndsOk(s) && (s.consumer.Moved? ==> |s.history.chain| >= 2);
    hide Chained, EndsOk, ProducersOk, ConsumerOk, DataOk, PrefixOk, NoLeak, PopStep;
    PopKeepsSize(s);
    PopKeepsChain(s);
    PopKeepsProducers(s);
    PopKeepsConsumer(s);
    PopKeepsData(s);
    PopKeepsPrefix(s);
    PopKeepsNoLeak(s);
  }

  /** Every state of every run, under any interleaving, satisfies the invariant. */
  lemma {:induction false} RunKeepsInv<T>(s: Machine<T>, schedule: seq<Move<T>>)
    requires Inv(s)
    ensures Inv(Run(s, schedule))
    decreases |schedule|
  {
    if schedule != [] {
      hide Inv, PushStep, PopStep;
      match schedule[0] {
        case Push(p, item, spot) =>
          if p < |s.producers| {
            PushKeepsInv(s, p, item, spot);
          }
        case Pop => PopKeepsInv(s);
      }
      RunKeepsInv(Step(s, schedule[0]), schedule[1..]);
    }
  }

  lemma RunOne<T>(s: Machine<T>, schedule: seq<Move<T>>)
    requires schedule != []
    ensures Run(s, schedule) == Run(Step(s, schedule[0]), schedule[1..])
  {}
}
