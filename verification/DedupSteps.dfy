/**
  LockFreeDeduplicator as a machine of atomic steps, sequentially consistent: any number of
  threads inside `insert` and `is_duplicate`, and one cleaner inside `cleanup_bucket_count`.
  Unlinked nodes are never reused, as under a garbage collector; the source itself says that
  freeing them at once is not safe for readers.
 */
module DedupSteps {
  import opened Wrappers

  type Addr = nat

  datatype Entry = Entry(id: nat, stamp: nat, next: Option<Addr>)

  const WINDOW_MS: nat := 3600000
  const MAX_RETRIES: nat := 3
  const MAX_HEAD_RETRIES: nat := 10

  /** Age above the window, where an entry from the future has age 0. */
  predicate Expired(now: nat, stamp: nat) {
    (if now >= stamp then now - stamp else 0) > WINDOW_MS
  }

  /** What expiry leaves of a table of ids and their times. */
  function Unexpired(table: map<nat, nat>, now: nat): map<nat, nat> {
    map id | id in table && !Expired(now, table[id]) :: table[id]
  }

  datatype Verdict = New | Duplicate | GaveUp

  // Where a thread stands inside `insert`. `since` remembers the length of the log at the load
  // of the bucket head, `start` at the call, `end` at the step that decided the answer, and
  // `seen` the entries in the bucket at the load.
  datatype Inserter =
    | Idle
    | Loading(id: nat, now: nat, mine: Addr, retries: nat, start: nat)
    | Scanning(id: nat, now: nat, mine: Addr, retries: nat, start: nat, head: Option<Addr>, curr: Option<Addr>,
               since: nat, seen: set<Addr>)
    | Linking(id: nat, now: nat, mine: Addr, retries: nat, start: nat, head: Option<Addr>, since: nat)
    | Swapping(id: nat, now: nat, mine: Addr, retries: nat, start: nat, head: Option<Addr>, since: nat)
    | Returned(id: nat, now: nat, verdict: Verdict, start: nat, since: nat, end: nat)

  // Where a thread stands inside `is_duplicate`.
  datatype Reader =
    | Away
    | Walking(id: nat, curr: Option<Addr>, since: nat, seen: set<Addr>)
    | Answered(id: nat, found: bool, since: nat, end: nat)

  // Where the cleaner stands inside `cleanup_bucket_count`.
  datatype Cleaner =
    | Resting
    | HeadCheck(bucket: nat, now: nat, top: Option<Addr>, retries: nat)
    | HeadSwap(bucket: nat, now: nat, at: Addr, next: Option<Addr>, retries: nat)
    | TailCheck(bucket: nat, now: nat, prev: Addr, curr: Option<Addr>)
    | Unlinking(bucket: nat, now: nat, prev: Addr, at: Addr, next: Option<Addr>)

  datatype Change = Inserted(id: nat, stamp: nat) | Removed(id: nat, stamp: nat, now: nat)

  datatype Table = Table(
    buckets: seq<Option<Addr>>,
    heap: map<Addr, Entry>,
    inserters: seq<Inserter>,
    readers: seq<Reader>,
    cleaner: Cleaner,
    // history: when a node was published, which nodes are in the table, what changed
    born: map<Addr, nat>,
    live: set<Addr>,
    log: seq<Change>)

  function Init(buckets: nat, threads: nat, readers: nat): (t: Table)
    ensures |t.buckets| == buckets
  {
    Table(seq(buckets, _ => None), map[], seq(threads, _ => Idle), seq(readers, _ => Away), Resting, map[], {}, [])
  }

  function Home(t: Table, id: nat): nat
    requires |t.buckets| > 0
  {
    id % |t.buckets|
  }

  function SetInserter(t: Table, p: nat, x: Inserter): Table
    requires p < |t.inserters|
  {
    t.(inserters := t.inserters[p := x])
  }

  function InBucket(t: Table, b: nat): set<Addr>
    requires |t.buckets| > 0
  {
    set a | a in t.live && a in t.heap && Home(t, t.heap[a].id) == b
  }

  /** The next atomic action of thread p; an idle thread calls insert(id, now) with node `spot`. */
  function InsertStep(t: Table, p: nat, id: nat, now: nat, spot: Addr): Table
    requires |t.buckets| > 0 && p < |t.inserters|
  {
    match t.inserters[p]
    case Idle =>
      if spot in t.heap then t
      else SetInserter(t, p, Loading(id, now, spot, 0, |t.log|)).(heap := t.heap[spot := Entry(id, now, None)])
    case Loading(i, n, m, r, start) =>
      var b := Home(t, i);
      SetInserter(t, p, Scanning(i, n, m, r, start, t.buckets[b], t.buckets[b], |t.log|, InBucket(t, b)))
    case Scanning(i, n, m, r, start, h, None, since, _) =>
      SetInserter(t, p, Linking(i, n, m, r, start, h, since))
    case Scanning(i, n, m, r, start, h, Some(c), since, seen) =>
      if c !in t.heap then t
      else if t.heap[c].id == i then SetInserter(t, p, Returned(i, n, Duplicate, start, since, |t.log|))
      else SetInserter(t, p, Scanning(i, n, m, r, start, h, t.heap[c].next, since, seen))
    case Linking(i, n, m, r, start, h, since) =>
      if m !in t.heap then t
      else SetInserter(t, p, Swapping(i, n, m, r, start, h, since)).(heap := t.heap[m := t.heap[m].(next := h)])
    case Swapping(i, n, m, r, start, h, since) =>
      if t.buckets[Home(t, i)] == h then
        SetInserter(t, p, Returned(i, n, New, start, since, |t.log|))
          .(buckets := t.buckets[Home(t, i) := Some(m)],
            born := t.born[m := |t.log|], live := t.live + {m}, log := t.log + [Inserted(i, n)])
      else if r + 1 < MAX_RETRIES then SetInserter(t, p, Loading(i, n, m, r + 1, start))
      else SetInserter(t, p, Returned(i, n, GaveUp, start, since, |t.log|))
    case Returned(_, _, _, _, _, _) => SetInserter(t, p, Idle)
  }

  /** The next atomic action of reader q; an idle one calls is_duplicate(id) and loads the head. */
  function ReadStep(t: Table, q: nat, id: nat): Table
    requires |t.buckets| > 0 && q < |t.readers|
  {
    var x := match t.readers[q]
      case Away => Walking(id, t.buckets[Home(t, id)], |t.log|, InBucket(t, Home(t, id)))
      case Walking(i, None, since, _) => Answered(i, false, since, |t.log|)
      case Walking(i, Some(c), since, seen) =>
        if c !in t.heap then t.readers[q]
        else if t.heap[c].id == i then Answered(i, true, since, |t.log|)
        else Walking(i, t.heap[c].next, since, seen)
      case Answered(_, _, _, _) => Away;
    t.(readers := t.readers[q := x])
  }

  // After phase 1 the cleaner goes on behind the head it stopped at.
  function TailFrom(t: Table, b: nat, now: nat, top: Option<Addr>): Cleaner {
    if top.None? || top.value !in t.heap then Resting
    else TailCheck(b, now, top.value, t.heap[top.value].next)
  }

  /** The next atomic action of the cleaner; a resting cleaner starts on bucket b at time now. */
  function CleanStep(t: Table, b: nat, now: nat): Table {
    match t.cleaner
    case Resting =>
      if b < |t.buckets| then t.(cleaner := HeadCheck(b, now, t.buckets[b], 0)) else t
    case HeadCheck(bk, n, top, r) =>
      if top.Some? && top.value in t.heap && r < MAX_HEAD_RETRIES && Expired(n, t.heap[top.value].stamp)
      then t.(cleaner := HeadSwap(bk, n, top.value, t.heap[top.value].next, r))
      else t.(cleaner := TailFrom(t, bk, n, top))
    case HeadSwap(bk, n, at, next, r) =>
      if bk < |t.buckets| && at in t.heap && t.buckets[bk] == Some(at) then
        t.(cleaner := HeadCheck(bk, n, next, 0), buckets := t.buckets[bk := next], live := t.live - {at},
           log := t.log + [Removed(t.heap[at].id, t.heap[at].stamp, n)])
      else
        t.(cleaner := HeadCheck(bk, n, if bk < |t.buckets| then t.buckets[bk] else None, r + 1))
    case TailCheck(bk, n, prev, curr) =>
      if curr.None? || curr.value !in t.heap then t.(cleaner := Resting)
      else if Expired(n, t.heap[curr.value].stamp) then
        t.(cleaner := Unlinking(bk, n, prev, curr.value, t.heap[curr.value].next))
      else t.(cleaner := TailCheck(bk, n, curr.value, t.heap[curr.value].next))
    case Unlinking(bk, n, prev, at, next) =>
      if prev !in t.heap || at !in t.heap then t
      else
        t.(cleaner := TailCheck(bk, n, prev, next), heap := t.heap[prev := t.heap[prev].(next := next)],
           live := t.live - {at}, log := t.log + [Removed(t.heap[at].id, t.heap[at].stamp, n)])
  }

  datatype Move =
    | Insert(p: nat, id: nat, now: nat, spot: Addr)
    | Read(q: nat, id: nat)
    | Clean(bucket: nat, now: nat)

  function Step(t: Table, m: Move): Table
    requires |t.buckets| > 0
  {
    match m
    case Insert(p, id, now, spot) => if p < |t.inserters| then InsertStep(t, p, id, now, spot) else t
    case Read(q, id) => if q < |t.readers| then ReadStep(t, q, id) else t
    case Clean(b, now) => CleanStep(t, b, now)
  }

  function Run(t: Table, schedule: seq<Move>): Table
    requires |t.buckets| > 0
    decreases |schedule|
  {
    if schedule == [] then t else Run(Step(t, schedule[0]), schedule[1..])
  }

  // ---------------------------------------------------------------- the chains

  // Published nodes hang in their bucket, later ones before earlier ones.
  ghost predicate NodesOk(t: Table) {
    && |t.buckets| > 0
    && t.live <= t.born.Keys <= t.heap.Keys
    && (forall a :: a in t.born ==> t.born[a] < |t.log|)
    && (forall a, b :: a in t.born && b in t.born && a != b ==> t.born[a] != t.born[b])
  }

  predicate Together(t: Table, a: Addr, b: Addr)
    requires |t.buckets| > 0 && a in t.heap && b in t.heap
  {
    Home(t, t.heap[a].id) == Home(t, t.heap[b].id)
  }

  /** The next pointer of a published node leads to an earlier one of its bucket. */
  predicate LeadsDown(t: Table, a: Addr)
    requires |t.buckets| > 0 && t.born.Keys <= t.heap.Keys && a in t.born
  {
    t.heap[a].next.Some? ==>
      var n := t.heap[a].next.value;
      n in t.born && t.born[n] < t.born[a] && Together(t, a, n) && (a in t.live ==> n in t.live)
  }

  /** It jumps over no live node: this holds even of nodes that were themselves removed. */
  predicate SkipsNone(t: Table, a: Addr, y: Addr)
    requires |t.buckets| > 0 && t.born.Keys <= t.heap.Keys && a in t.born && y in t.born
  {
    y in t.live && Together(t, a, y) && t.born[y] < t.born[a] ==>
      t.heap[a].next.Some? && t.heap[a].next.value in t.born && t.born[y] <= t.born[t.heap[a].next.value]
  }

  ghost predicate LinksOk(t: Table)
    requires NodesOk(t)
  {
    && (forall a :: a in t.born ==> LeadsDown(t, a))
    && (forall a, y :: a in t.born && y in t.born ==> SkipsNone(t, a, y))
  }

  /** The bucket head is the latest live node of the bucket. */
  ghost predicate HeadOk(t: Table, b: nat)
    requires NodesOk(t) && b < |t.buckets|
  {
    && (t.buckets[b].Some? ==> t.buckets[b].value in t.live && Home(t, t.heap[t.buckets[b].value].id) == b)
    && (forall y :: y in t.live && Home(t, t.heap[y].id) == b ==> Below(t, y, t.buckets[b]))
  }

  /** Node y was published no later than the node `top` points to. */
  predicate Below(t: Table, y: Addr, top: Option<Addr>) {
    top.Some? && top.value in t.born && y in t.born && t.born[y] <= t.born[top.value]
  }

  ghost predicate ChainsOk(t: Table) {
    && NodesOk(t)
    && LinksOk(t)
    && (forall b :: 0 <= b < |t.buckets| ==> HeadOk(t, b))
    && (forall a, b :: a in t.live && b in t.live && a != b ==> t.heap[a].id != t.heap[b].id)
  }

  // ---------------------------------------------------------------- the threads

  /** Whether the log so far leaves `id` in the table. */
  predicate LiveIn(log: seq<Change>, id: nat)
    decreases |log|
  {
    log != [] &&
    var last := log[|log| - 1];
    if last.id == id then last.Inserted? else LiveIn(log[..|log| - 1], id)
  }

  predicate Private(t: Table, m: Addr, id: nat, now: nat) {
    m in t.heap && m !in t.born && t.heap[m].id == id && t.heap[m].stamp == now
  }

  predicate HeadSeen(t: Table, id: nat, head: Option<Addr>, since: nat)
    requires |t.buckets| > 0
  {
    && since <= |t.log|
    && (head.Some? ==> head.value in t.born && head.value in t.heap && Home(t, t.heap[head.value].id) == Home(t, id))
  }

  /** A live node with the id that hung below `head` has still to be met by the scan. */
  ghost predicate AheadOf(t: Table, id: nat, head: Option<Addr>, curr: Option<Addr>)
    requires NodesOk(t)
  {
    forall y :: y in t.live && t.heap[y].id == id && Below(t, y, head) ==> Below(t, y, curr)
  }

  ghost predicate SeenOk(t: Table, seen: set<Addr>, since: nat)
    requires NodesOk(t)
  {
    && seen <= t.born.Keys
    && since <= |t.log|
    && (forall x :: x in seen ==> LiveIn(t.log[..since], t.heap[x].id))
    && (forall x :: x in seen && t.heap[x].next.Some? ==> t.heap[x].next.value in seen)
  }

  ghost predicate InserterOk(t: Table, x: Inserter)
    requires NodesOk(t)
  {
    match x
    case Idle => true
    case Loading(i, n, m, _, _) => Private(t, m, i, n)
    case Scanning(i, n, m, _, _, h, c, since, seen) =>
      && Private(t, m, i, n) && HeadSeen(t, i, h, since) && AheadOf(t, i, h, c) && SeenOk(t, seen, since)
      && (c.Some? ==> c.value in seen && Home(t, t.heap[c.value].id) == Home(t, i))
    case Linking(i, n, m, _, _, h, since) =>
      && Private(t, m, i, n) && HeadSeen(t, i, h, since) && AheadOf(t, i, h, None)
    case Swapping(i, n, m, _, _, h, since) =>
      && Private(t, m, i, n) && HeadSeen(t, i, h, since) && AheadOf(t, i, h, None) && t.heap[m].next == h
    case Returned(i, _, v, _, since, _) => since <= |t.log| && (v.Duplicate? ==> LiveIn(t.log[..since], i))
  }

  predicate Busy(x: Inserter) {
    !x.Idle? && !x.Returned?
  }

  ghost predicate InsertersOk(t: Table)
    requires NodesOk(t)
  {
    && (forall p :: 0 <= p < |t.inserters| ==> InserterOk(t, t.inserters[p]))
    && (forall p, q :: 0 <= p < |t.inserters| && 0 <= q < |t.inserters| && p != q ==>
          Apart(t.inserters[p], t.inserters[q]))
  }

  predicate Apart(x: Inserter, y: Inserter) {
    Busy(x) && Busy(y) ==> x.mine != y.mine
  }

  /** The cleaner's nodes are live, since nobody else removes, and their links are as it read them. */
  predicate CleanerOk(t: Table)
    requires |t.buckets| > 0
  {
    match t.cleaner
    case Resting => true
    case HeadCheck(b, _, top, _) => b < |t.buckets| && (top.Some? ==> Held(t, b, top.value))
    case HeadSwap(b, n, at, next, _) =>
      b < |t.buckets| && Held(t, b, at) && t.heap[at].next == next && Expired(n, t.heap[at].stamp)
    case TailCheck(b, _, prev, curr) => b < |t.buckets| && Held(t, b, prev) && t.heap[prev].next == curr
    case Unlinking(b, n, prev, at, next) =>
      && b < |t.buckets| && Held(t, b, prev) && Held(t, b, at)
      && t.heap[prev].next == Some(at) && t.heap[at].next == next && Expired(n, t.heap[at].stamp)
  }

  predicate Held(t: Table, b: nat, a: Addr)
    requires |t.buckets| > 0
  {
    a in t.live && a in t.born && a in t.heap && Home(t, t.heap[a].id) == b
  }

  // ---------------------------------------------------------------- the log

  /** An id goes in only when it is out, and comes out only when it is in and expired. */
  ghost predicate LogOk(log: seq<Change>) {
    forall i :: 0 <= i < |log| ==> ChangeOk(log, i)
  }

  predicate ChangeOk(log: seq<Change>, i: nat)
    requires i < |log|
  {
    match log[i]
    case Inserted(id, _) => !LiveIn(log[..i], id)
    case Removed(id, stamp, now) => LiveIn(log[..i], id) && Expired(now, stamp)
  }

  /** The log and the chains agree on what is in the table. */
  ghost predicate Agrees(t: Table)
    requires NodesOk(t)
  {
    && (forall y :: y in t.live ==> LiveIn(t.log, t.heap[y].id))
    && (forall id :: LiveIn(t.log, id) ==> exists y :: y in t.live && t.heap[y].id == id)
  }

  ghost predicate Inv(t: Table) {
    && ChainsOk(t)
    && InsertersOk(t)
    && CleanerOk(t)
    && LogOk(t.log)
    && Agrees(t)
  }

  // ---------------------------------------------------------------- steps that publish nothing

  /** Published nodes, heads and history are untouched. */
  ghost predicate Frame(t: Table, t': Table) {
    && t'.buckets == t.buckets && t'.born == t.born && t'.live == t.live && t'.log == t.log
    && t.heap.Keys <= t'.heap.Keys
    && forall a :: a in t.born && a in t.heap ==> t'.heap[a] == t.heap[a]
  }

  lemma FrameChains(t: Table, t': Table)
    requires ChainsOk(t) && Frame(t, t')
    ensures ChainsOk(t')
  {
    forall a | a in t'.born ensures LeadsDown(t', a) {
      assert LeadsDown(t, a);
    }
    forall a, y | a in t'.born && y in t'.born ensures SkipsNone(t', a, y) {
      assert SkipsNone(t, a, y);
    }
    forall b | 0 <= b < |t'.buckets| ensures HeadOk(t', b) {
      assert HeadOk(t, b);
      forall y | y in t'.live && Home(t', t'.heap[y].id) == b ensures Below(t', y, t'.buckets[b]) {
        assert Below(t, y, t.buckets[b]);
      }
    }
  }

  lemma FrameInserter(t: Table, t': Table, x: Inserter)
    requires NodesOk(t) && Frame(t, t') && NodesOk(t') && InserterOk(t, x)
    requires Busy(x) ==> t'.heap[x.mine] == t.heap[x.mine]
    ensures InserterOk(t', x)
  {
    if x.Scanning? {
      FrameAhead(t, t', x.id, x.head, x.curr);
    } else if x.Linking? || x.Swapping? {
      FrameAhead(t, t', x.id, x.head, None);
    }
  }

  lemma FrameAhead(t: Table, t': Table, id: nat, head: Option<Addr>, curr: Option<Addr>)
    requires NodesOk(t) && Frame(t, t') && NodesOk(t') && AheadOf(t, id, head, curr)
    ensures AheadOf(t', id, head, curr)
  {
    forall y | y in t'.live && t'.heap[y].id == id && Below(t', y, head) ensures Below(t', y, curr) {
      assert Below(t, y, head);
    }
  }

  lemma FrameAgrees(t: Table, t': Table)
    requires NodesOk(t) && Frame(t, t') && NodesOk(t') && Agrees(t)
    ensures Agrees(t')
  {
    forall id | LiveIn(t'.log, id) ensures exists y :: y in t'.live && t'.heap[y].id == id {
      var y :| y in t.live && t.heap[y].id == id;
      assert t'.heap[y].id == id;
    }
  }

  // ---------------------------------------------------------------- one more change in the log

  lemma LiveAppend(log: seq<Change>, c: Change, id: nat)
    ensures LiveIn(log + [c], id) == if c.id == id then c.Inserted? else LiveIn(log, id)
  {
    assert (log + [c])[..|log|] == log;
  }

  lemma LogAppend(log: seq<Change>, c: Change)
    requires LogOk(log) && ChangeOk(log + [c], |log|)
    ensures LogOk(log + [c])
  {
    forall i | 0 <= i < |log| ensures ChangeOk(log + [c], i) {
      assert ChangeOk(log, i);
      assert (log + [c])[..i] == log[..i];
    }
  }

  // ---------------------------------------------------------------- publishing a node

  /** The successful exchange of an insert: node m becomes the head of bucket b. */
  ghost predicate Publishes(t: Table, t': Table, m: Addr, b: nat) {
    && ChainsOk(t) && b < |t.buckets|
    && m in t.heap && m !in t.born && Home(t, t.heap[m].id) == b && t.heap[m].next == t.buckets[b]
    && (forall y :: y in t.live ==> t.heap[y].id != t.heap[m].id)
    && t' == t.(buckets := t.buckets[b := Some(m)], born := t.born[m := |t.log|], live := t.live + {m},
                log := t.log + [Inserted(t.heap[m].id, t.heap[m].stamp)], inserters := t'.inserters)
  }

  lemma PublishNodes(t: Table, t': Table, m: Addr, b: nat)
    requires Publishes(t, t', m, b)
    ensures NodesOk(t')
  {}

  lemma PublishLinks(t: Table, t': Table, m: Addr, b: nat)
    requires Publishes(t, t', m, b) && NodesOk(t')
    ensures LinksOk(t')
  {
    assert HeadOk(t, b);
    forall a | a in t'.born ensures LeadsDown(t', a) {
      if a != m { assert LeadsDown(t, a); }
    }
    forall a, y | a in t'.born && y in t'.born ensures SkipsNone(t', a, y) {
      if a == m {
        assert y != m && y in t.live && Together(t, m, y) ==> Below(t, y, t.buckets[b]);
      } else if y != m {
        assert SkipsNone(t, a, y);
        assert LeadsDown(t, a);
      }
    }
  }

  lemma PublishHead(t: Table, t': Table, m: Addr, b: nat, k: nat)
    requires Publishes(t, t', m, b) && NodesOk(t') && k < |t.buckets|
    ensures HeadOk(t', k)
  {
    assert HeadOk(t, k);
    forall y | y in t'.live && Home(t', t'.heap[y].id) == k ensures Below(t', y, t'.buckets[k]) {
      if y != m { assert Below(t, y, t.buckets[k]); }
    }
  }

  lemma PublishChains(t: Table, t': Table, m: Addr, b: nat)
    requires Publishes(t, t', m, b)
    ensures ChainsOk(t')
  {
    PublishNodes(t, t', m, b);
    PublishLinks(t, t', m, b);
    forall k | 0 <= k < |t'.buckets| ensures HeadOk(t', k) {
      PublishHead(t, t', m, b, k);
    }
  }

  lemma PublishInserter(t: Table, t': Table, m: Addr, b: nat, x: Inserter)
    requires Publishes(t, t', m, b) && NodesOk(t') && InserterOk(t, x)
    requires Busy(x) ==> x.mine != m
    ensures InserterOk(t', x)
  {
    PublishPrefix(t, t', m, b);
    if x.Scanning? {
      PublishAhead(t, t', m, b, x.id, x.head, x.curr);
    } else if x.Linking? || x.Swapping? {
      PublishAhead(t, t', m, b, x.id, x.head, None);
    }
  }

  lemma PublishPrefix(t: Table, t': Table, m: Addr, b: nat)
    requires Publishes(t, t', m, b)
    ensures forall n :: 0 <= n <= |t.log| ==> t'.log[..n] == t.log[..n]
  {}

  lemma PublishAhead(t: Table, t': Table, m: Addr, b: nat, id: nat, head: Option<Addr>, curr: Option<Addr>)
    requires Publishes(t, t', m, b) && NodesOk(t')
    requires AheadOf(t, id, head, curr) && (head.Some? ==> head.value in t.born)
    ensures AheadOf(t', id, head, curr)
  {
    forall y | y in t'.live && t'.heap[y].id == id && Below(t', y, head) ensures Below(t', y, curr) {
      assert y != m && Below(t, y, head);
    }
  }

  lemma PublishAgrees(t: Table, t': Table, m: Addr, b: nat)
    requires Publishes(t, t', m, b) && NodesOk(t') && Agrees(t) && LogOk(t.log)
    ensures Agrees(t') && LogOk(t'.log)
  {
    var c := Inserted(t.heap[m].id, t.heap[m].stamp);
    assert t'.log[..|t.log|] == t.log;
    LogAppend(t.log, c);
    forall y | y in t'.live ensures LiveIn(t'.log, t'.heap[y].id) {
      LiveAppend(t.log, c, t.heap[y].id);
    }
    forall id | LiveIn(t'.log, id) ensures exists y :: y in t'.live && t'.heap[y].id == id {
      LiveAppend(t.log, c, id);
      if id == c.id {
        assert t'.heap[m].id == id;
      } else {
        var y :| y in t.live && t.heap[y].id == id;
        assert y in t'.live;
      }
    }
  }

  // ---------------------------------------------------------------- removing a node

  /** Node `at` leaves the table; ids and stamps stay, and the links of all nodes but `prev`. */
  ghost predicate Removes(t: Table, t': Table, at: Addr, now: nat) {
    && ChainsOk(t)
    && at in t.live && Expired(now, t.heap[at].stamp)
    && |t'.buckets| == |t.buckets| && t'.born == t.born && t'.live == t.live - {at}
    && t'.inserters == t.inserters
    && t'.log == t.log + [Removed(t.heap[at].id, t.heap[at].stamp, now)]
    && t'.heap.Keys == t.heap.Keys
    && (forall a :: a in t.heap ==> t'.heap[a].id == t.heap[a].id && t'.heap[a].stamp == t.heap[a].stamp)
    && (forall a :: a in t.heap && a !in t.born ==> t'.heap[a] == t.heap[a])
  }

  /** Phase 1: the head of the bucket goes, no link changes. */
  ghost predicate RemovesHead(t: Table, t': Table, b: nat, at: Addr, now: nat) {
    && Removes(t, t', at, now) && t'.heap == t.heap
    && b < |t.buckets| && t.buckets[b] == Some(at) && t'.buckets == t.buckets[b := t.heap[at].next]
  }

  /** Phase 2: the live predecessor of `at` in its bucket is linked past it. */
  ghost predicate RemovesInner(t: Table, t': Table, prev: Addr, at: Addr, now: nat) {
    && Removes(t, t', at, now) && t'.buckets == t.buckets
    && prev in t.live && t.heap[prev].next == Some(at)
    && t'.heap == t.heap[prev := t.heap[prev].(next := t.heap[at].next)]
  }

  lemma RemoveHeadLinks(t: Table, t': Table, b: nat, at: Addr, now: nat)
    requires RemovesHead(t, t', b, at, now)
    ensures NodesOk(t') && LinksOk(t')
  {
    assert HeadOk(t, b);
    forall a | a in t'.born ensures LeadsDown(t', a) {
      assert LeadsDown(t, a);
      assert a in t.live && Home(t, t.heap[a].id) == b ==> Below(t, a, t.buckets[b]);
    }
    hide HeadOk, LeadsDown, Below;
    forall a, y | a in t'.born && y in t'.born ensures SkipsNone(t', a, y) {
      assert SkipsNone(t, a, y);
    }
  }

  lemma RemoveHeadHead(t: Table, t': Table, b: nat, at: Addr, now: nat, k: nat)
    requires RemovesHead(t, t', b, at, now) && NodesOk(t') && k < |t.buckets|
    ensures HeadOk(t', k)
  {
    hide Expired, LiveIn;
    assert HeadOk(t, k) && HeadOk(t, b) && LeadsDown(t, at);
    forall y | y in t'.live && Home(t', t'.heap[y].id) == k ensures Below(t', y, t'.buckets[k]) {
      assert Below(t, y, t.buckets[k]) && SkipsNone(t, at, y);
    }
  }

  lemma RemoveHeadChains(t: Table, t': Table, b: nat, at: Addr, now: nat)
    requires RemovesHead(t, t', b, at, now)
    ensures ChainsOk(t')
  {
    RemoveHeadLinks(t, t', b, at, now);
    hide LinksOk, HeadOk;
    forall k | 0 <= k < |t'.buckets| ensures HeadOk(t', k) {
      RemoveHeadHead(t, t', b, at, now, k);
    }
  }

  // Two live nodes never point to the same one.
  lemma OnePredecessor(t: Table, a: Addr, b: Addr, n: Addr)
    requires ChainsOk(t) && a in t.live && b in t.live && t.heap[a].next == Some(n) && t.heap[b].next == Some(n)
    ensures a == b
  {
    assert LeadsDown(t, a) && LeadsDown(t, b);
    assert SkipsNone(t, a, b) && SkipsNone(t, b, a);
  }

  lemma RemoveInnerLinks(t: Table, t': Table, prev: Addr, at: Addr, now: nat)
    requires RemovesInner(t, t', prev, at, now)
    ensures NodesOk(t') && LinksOk(t')
  {
    assert LeadsDown(t, prev) && LeadsDown(t, at);
    forall a | a in t'.born ensures LeadsDown(t', a) {
      assert LeadsDown(t, a);
      if a in t'.live && t.heap[a].next == Some(at) {
        OnePredecessor(t, a, prev, at);
      }
    }
    forall a, y | a in t'.born && y in t'.born ensures SkipsNone(t', a, y) {
      assert SkipsNone(t, a, y) && SkipsNone(t, at, y);
    }
  }

  lemma RemoveInnerChains(t: Table, t': Table, prev: Addr, at: Addr, now: nat)
    requires RemovesInner(t, t', prev, at, now)
    ensures ChainsOk(t')
  {
    RemoveInnerLinks(t, t', prev, at, now);
    assert LeadsDown(t, prev);
    forall k | 0 <= k < |t'.buckets| ensures HeadOk(t', k) {
      assert HeadOk(t, k);
      forall y | y in t'.live && Home(t', t'.heap[y].id) == k ensures Below(t', y, t'.buckets[k]) {
        assert Below(t, y, t.buckets[k]);
      }
      assert Home(t, t.heap[prev].id) == k ==> Below(t, prev, t.buckets[k]);
    }
  }

  lemma RemoveAhead(t: Table, t': Table, at: Addr, now: nat, id: nat, head: Option<Addr>, curr: Option<Addr>)
    requires Removes(t, t', at, now) && NodesOk(t') && AheadOf(t, id, head, curr)
    ensures AheadOf(t', id, head, curr)
  {
    forall y | y in t'.live && t'.heap[y].id == id && Below(t', y, head) ensures Below(t', y, curr) {
      assert Below(t, y, head);
    }
  }

  lemma RemoveSeen(t: Table, t': Table, at: Addr, now: nat, seen: set<Addr>, since: nat)
    requires Removes(t, t', at, now) && NodesOk(t') && SeenOk(t, seen, since)
    requires forall a :: a in seen && t'.heap[a].next.Some? ==> t'.heap[a].next.value in seen
    ensures SeenOk(t', seen, since)
  {
    hide LinksOk, HeadOk, LiveIn;
    assert t'.log[..since] == t.log[..since];
  }

  lemma RemoveInserter(t: Table, t': Table, at: Addr, now: nat, x: Inserter)
    requires Removes(t, t', at, now) && NodesOk(t') && InserterOk(t, x)
    requires x.Scanning? ==> forall a :: a in x.seen && t'.heap[a].next.Some? ==> t'.heap[a].next.value in x.seen
    ensures InserterOk(t', x)
  {
    hide LinksOk, HeadOk, LiveIn, AheadOf;
    match x
    case Scanning(i, _, _, _, _, head, curr, since, seen) =>
      RemoveAhead(t, t', at, now, i, head, curr);
      RemoveSeen(t, t', at, now, seen, since);
    case Linking(i, _, _, _, _, head, _) => RemoveAhead(t, t', at, now, i, head, None);
    case Swapping(i, _, _, _, _, head, _) => RemoveAhead(t, t', at, now, i, head, None);
    case Returned(_, _, _, _, since, _) => assert t'.log[..since] == t.log[..since];
    case _ =>
  }

  lemma RemoveAgrees(t: Table, t': Table, at: Addr, now: nat)
    requires Removes(t, t', at, now) && NodesOk(t') && Agrees(t) && LogOk(t.log)
    ensures Agrees(t') && LogOk(t'.log)
  {
    var c := Removed(t.heap[at].id, t.heap[at].stamp, now);
    assert t'.log[..|t.log|] == t.log;
    LogAppend(t.log, c);
    forall y | y in t'.live ensures LiveIn(t'.log, t'.heap[y].id) {
      LiveAppend(t.log, c, t.heap[y].id);
    }
    forall id | LiveIn(t'.log, id) ensures exists y :: y in t'.live && t'.heap[y].id == id {
      LiveAppend(t.log, c, id);
      var y :| y in t.live && t.heap[y].id == id;
      assert y in t'.live;
    }
  }

  // ---------------------------------------------------------------- every step keeps the invariant

  // A step of thread p that only frames the table, given that its new place is fine.
  lemma FrameKeepsInv(t: Table, t': Table, p: nat)
    requires Inv(t) && Frame(t, t') && t'.cleaner == t.cleaner && p < |t.inserters|
    requires |t'.inserters| == |t.inserters| && t'.inserters == t.inserters[p := t'.inserters[p]]
    requires forall q :: 0 <= q < |t.inserters| && q != p && Busy(t.inserters[q]) ==>
               t'.heap[t.inserters[q].mine] == t.heap[t.inserters[q].mine]
    requires NodesOk(t') ==> InserterOk(t', t'.inserters[p])
    requires Busy(t'.inserters[p]) ==>
               || (Busy(t.inserters[p]) && t'.inserters[p].mine == t.inserters[p].mine)
               || t'.inserters[p].mine !in t.heap
    ensures Inv(t')
  {
    FrameChains(t, t');
    FrameAgrees(t, t');
    forall q | 0 <= q < |t'.inserters| ensures InserterOk(t', t'.inserters[q]) {
      if q != p { FrameInserter(t, t', t.inserters[q]); }
    }
    forall q, r | 0 <= q < |t'.inserters| && 0 <= r < |t'.inserters| && q != r
      ensures Apart(t'.inserters[q], t'.inserters[r])
    {
      assert Apart(t.inserters[q], t.inserters[r]);
      assert InserterOk(t, t.inserters[q]) && InserterOk(t, t.inserters[r]);
    }
  }

  // The nodes in a bucket at a load of its head lead only to each other.
  lemma SeenAtLoad(t: Table, b: nat)
    requires Inv(t) && b < |t.buckets|
    ensures SeenOk(t, InBucket(t, b), |t.log|)
    ensures t.buckets[b].Some? ==> t.buckets[b].value in InBucket(t, b)
  {
    hide InsertersOk, CleanerOk, LogOk, LiveIn;
    assert HeadOk(t, b);
    assert t.log[..|t.log|] == t.log;
    var seen := InBucket(t, b);
    forall a | a in seen && t.heap[a].next.Some? ensures t.heap[a].next.value in seen {
      assert LeadsDown(t, a);
    }
  }

  lemma LoadKeepsInv(t: Table, p: nat, id: nat, now: nat, spot: Addr)
    requires Inv(t) && p < |t.inserters| && t.inserters[p].Loading?
    ensures Inv(InsertStep(t, p, id, now, spot))
  {
    var t' := InsertStep(t, p, id, now, spot);
    var x := t.inserters[p];
    assert InserterOk(t, x);
    var b := Home(t, x.id);
    assert HeadOk(t, b);
    SeenAtLoad(t, b);
    FrameChains(t, t');
    FrameKeepsInv(t, t', p);
  }

  lemma ScanKeepsInv(t: Table, p: nat, id: nat, now: nat, spot: Addr)
    requires Inv(t) && p < |t.inserters| && t.inserters[p].Scanning?
    ensures Inv(InsertStep(t, p, id, now, spot))
  {
    var t' := InsertStep(t, p, id, now, spot);
    var x := t.inserters[p];
    assert InserterOk(t, x);
    if x.curr.Some? {
      var c := x.curr.value;
      assert LeadsDown(t, c);
      if t.heap[c].id != x.id {
        forall y | y in t.live && t.heap[y].id == x.id && Below(t, y, x.head) ensures Below(t, y, t.heap[c].next) {
          assert Below(t, y, x.curr) && SkipsNone(t, c, y);
        }
        assert AheadOf(t, x.id, x.head, t.heap[c].next);
        FrameAhead(t, t', x.id, x.head, t.heap[c].next);
      }
    } else {
      FrameAhead(t, t', x.id, x.head, None);
    }
    FrameKeepsInv(t, t', p);
  }

  lemma LinkKeepsInv(t: Table, p: nat, id: nat, now: nat, spot: Addr)
    requires Inv(t) && p < |t.inserters| && t.inserters[p].Linking?
    ensures Inv(InsertStep(t, p, id, now, spot))
  {
    var t' := InsertStep(t, p, id, now, spot);
    var x := t.inserters[p];
    assert InserterOk(t, x);
    FrameAhead(t, t', x.id, x.head, None);
    forall q | 0 <= q < |t.inserters| && q != p && Busy(t.inserters[q])
      ensures t'.heap[t.inserters[q].mine] == t.heap[t.inserters[q].mine]
    {
      assert Apart(t.inserters[p], t.inserters[q]) && InserterOk(t, t.inserters[q]);
    }
    FrameKeepsInv(t, t', p);
  }

  // The exchange that succeeds.
  lemma PublishKeepsInv(t: Table, t': Table, p: nat, m: Addr, b: nat)
    requires Inv(t) && p < |t.inserters| && Busy(t.inserters[p]) && t.inserters[p].mine == m
    requires Publishes(t, t', m, b) && |t'.inserters| == |t.inserters|
    requires t'.inserters == t.inserters[p := t'.inserters[p]] && t'.inserters[p].Returned?
    requires t'.inserters[p].verdict.New? && t'.inserters[p].since <= |t.log|
    ensures Inv(t')
  {
    hide ChainsOk, LiveIn, LogOk, Agrees;
    PublishChains(t, t', m, b);
    ChainsHaveNodes(t');
    PublishAgrees(t, t', m, b);
    forall q | 0 <= q < |t'.inserters| ensures InserterOk(t', t'.inserters[q]) {
      if q != p {
        assert Apart(t.inserters[p], t.inserters[q]);
        PublishInserter(t, t', m, b, t.inserters[q]);
      }
    }
    forall q, r | 0 <= q < |t'.inserters| && 0 <= r < |t'.inserters| && q != r
      ensures Apart(t'.inserters[q], t'.inserters[r])
    {
      assert Apart(t.inserters[q], t.inserters[r]);
    }
  }

  lemma ChainsHaveNodes(t: Table)
    requires ChainsOk(t)
    ensures NodesOk(t)
  {}

  lemma SwapKeepsInv(t: Table, p: nat, id: nat, now: nat, spot: Addr)
    requires Inv(t) && p < |t.inserters| && t.inserters[p].Swapping?
    ensures Inv(InsertStep(t, p, id, now, spot))
  {
    var t' := InsertStep(t, p, id, now, spot);
    var x := t.inserters[p];
    assert InserterOk(t, x);
    var b := Home(t, x.id);
    if t.buckets[b] != x.head {
      FrameKeepsInv(t, t', p);
    } else {
      SwapPublishes(t, p, id, now, spot);
      PublishKeepsInv(t, t', p, x.mine, b);
    }
  }

  // Whatever is live in the bucket hangs below its head, and the scan found the id nowhere there.
  lemma SwapPublishes(t: Table, p: nat, id: nat, now: nat, spot: Addr)
    requires ChainsOk(t) && InsertersOk(t) && p < |t.inserters| && t.inserters[p].Swapping?
    requires t.buckets[Home(t, t.inserters[p].id)] == t.inserters[p].head
    ensures Publishes(t, InsertStep(t, p, id, now, spot), t.inserters[p].mine, Home(t, t.inserters[p].id))
  {
    hide LinksOk, LiveIn, SeenOk;
    var x := t.inserters[p];
    assert InserterOk(t, x);
    var b := Home(t, x.id);
    assert HeadOk(t, b);
    forall y | y in t.live ensures t.heap[y].id != x.id {
      assert Home(t, t.heap[y].id) == b ==> Below(t, y, x.head);
    }
  }

  lemma InsertKeepsInv(t: Table, p: nat, id: nat, now: nat, spot: Addr)
    requires Inv(t) && p < |t.inserters|
    ensures Inv(InsertStep(t, p, id, now, spot))
  {
    hide LiveIn, LinksOk, HeadOk, LogOk, Agrees, InBucket;
    var t' := InsertStep(t, p, id, now, spot);
    match t.inserters[p]
    case Idle =>
      forall q | 0 <= q < |t.inserters| && Busy(t.inserters[q])
        ensures t.inserters[q].mine in t.heap
      {
        assert InserterOk(t, t.inserters[q]);
      }
      FrameKeepsInv(t, t', p);
    case Loading(_, _, _, _, _) => LoadKeepsInv(t, p, id, now, spot);
    case Scanning(_, _, _, _, _, _, _, _, _) => ScanKeepsInv(t, p, id, now, spot);
    case Linking(_, _, _, _, _, _, _) => LinkKeepsInv(t, p, id, now, spot);
    case Swapping(_, _, _, _, _, _, _) => SwapKeepsInv(t, p, id, now, spot);
    case Returned(_, _, _, _, _, _) => FrameKeepsInv(t, t', p);
  }

  // Removal steps change the log, so every thread has to be looked at again.
  lemma RemoveKeepsInserters(t: Table, t': Table, at: Addr, now: nat)
    requires Inv(t) && Removes(t, t', at, now) && ChainsOk(t')
    requires t'.heap == t.heap || exists prev :: RemovesInner(t, t', prev, at, now)
    ensures InsertersOk(t') && LogOk(t'.log) && Agrees(t')
  {
    hide LinksOk, HeadOk, LiveIn, LogOk, Agrees;
    RemoveAgrees(t, t', at, now);
    forall q | 0 <= q < |t.inserters| ensures InserterOk(t', t.inserters[q]) {
      var x := t.inserters[q];
      assert InserterOk(t, x);
      if x.Scanning? {
        forall a | a in x.seen && t'.heap[a].next.Some? ensures t'.heap[a].next.value in x.seen {
          if t'.heap[a] != t.heap[a] {
            assert t.heap[a].next == Some(at);
          }
        }
      }
      RemoveInserter(t, t', at, now, x);
    }
  }

  // Only the places of the cleaner and of readers change.
  lemma CleanQuietly(t: Table, t': Table)
    requires Inv(t) && t' == t.(cleaner := t'.cleaner, readers := t'.readers) && CleanerOk(t')
    ensures Inv(t')
  {
    FrameChains(t, t');
    FrameAgrees(t, t');
    forall q | 0 <= q < |t.inserters| ensures InserterOk(t', t.inserters[q]) {
      FrameInserter(t, t', t.inserters[q]);
    }
  }

  lemma HeadSwapKeepsInv(t: Table, b: nat, now: nat)
    requires Inv(t) && t.cleaner.HeadSwap?
    ensures Inv(CleanStep(t, b, now))
  {
    var t' := CleanStep(t, b, now);
    hide InsertersOk, LogOk, Agrees, SkipsNone, LiveIn, Expired;
    var k, at, n := t.cleaner.bucket, t.cleaner.at, t.cleaner.now;
    assert HeadOk(t, k) && LeadsDown(t, at);
    if t.buckets[k] == Some(at) {
      assert RemovesHead(t, t', k, at, n);
      RemoveHeadChains(t, t', k, at, n);
      RemoveKeepsInserters(t, t', at, n);
    } else {
      CleanQuietly(t, t');
    }
  }

  lemma UnlinkRemoves(t: Table, b: nat, now: nat)
    requires ChainsOk(t) && CleanerOk(t) && t.cleaner.Unlinking?
    ensures RemovesInner(t, CleanStep(t, b, now), t.cleaner.prev, t.cleaner.at, t.cleaner.now)
  {
    hide LinksOk, HeadOk, LiveIn, Expired;
  }

  lemma UnlinkKeepsCleaner(t: Table, b: nat, now: nat)
    requires NodesOk(t) && CleanerOk(t) && t.cleaner.Unlinking? && t.cleaner.prev != t.cleaner.at
    ensures CleanerOk(CleanStep(t, b, now))
  {
    hide Expired;
  }

  lemma UnlinkKeepsInv(t: Table, b: nat, now: nat)
    requires Inv(t) && t.cleaner.Unlinking?
    ensures Inv(CleanStep(t, b, now))
  {
    hide InsertersOk, LogOk, Agrees, HeadOk, SkipsNone, LiveIn, Expired, RemovesInner, Removes, CleanStep;
    var t' := CleanStep(t, b, now);
    var prev, at, n := t.cleaner.prev, t.cleaner.at, t.cleaner.now;
    assert LeadsDown(t, prev);
    UnlinkKeepsCleaner(t, b, now);
    UnlinkRemoves(t, b, now);
    hide ChainsOk, CleanerOk;
    RemoveInnerChains(t, t', prev, at, n);
    RemovesInnerIs(t, t', prev, at, n);
    RemoveKeepsInserters(t, t', at, n);
  }

  lemma RemovesInnerIs(t: Table, t': Table, prev: Addr, at: Addr, now: nat)
    requires RemovesInner(t, t', prev, at, now)
    ensures Removes(t, t', at, now)
  {}

  lemma CleanKeepsInv(t: Table, b: nat, now: nat)
    requires Inv(t)
    ensures Inv(CleanStep(t, b, now))
  {
    match t.cleaner
    case Resting =>
      assert b < |t.buckets| ==> HeadOk(t, b);
      CleanQuietly(t, CleanStep(t, b, now));
    case HeadCheck(_, _, _, _) => CleanQuietly(t, CleanStep(t, b, now));
    case HeadSwap(_, _, _, _, _) => HeadSwapKeepsInv(t, b, now);
    case TailCheck(_, _, prev, _) =>
      assert LeadsDown(t, prev);
      CleanQuietly(t, CleanStep(t, b, now));
    case Unlinking(_, _, _, _, _) => UnlinkKeepsInv(t, b, now);
  }

  lemma InitInv(buckets: nat, threads: nat, readers: nat)
    requires buckets > 0
    ensures Inv(Init(buckets, threads, readers))
  {}

  lemma StepKeepsInv(t: Table, m: Move)
    requires Inv(t)
    ensures Inv(Step(t, m))
  {
    match m
    case Insert(p, id, now, spot) =>
      if p < |t.inserters| {
        InsertKeepsInv(t, p, id, now, spot);
      }
    case Read(q, id) => CleanQuietly(t, Step(t, m));
    case Clean(b, now) => CleanKeepsInv(t, b, now);
  }

  /** Every state of every run, under any interleaving, satisfies the invariant. */
  lemma {:induction false} RunKeepsInv(t: Table, schedule: seq<Move>)
    requires Inv(t)
    ensures Inv(Run(t, schedule))
    decreases |schedule|
  {
    if schedule != [] {
      StepKeepsInv(t, schedule[0]);
      BucketsStay(Step(t, schedule[0]));
      hide Inv, Step;
      RunKeepsInv(Step(t, schedule[0]), schedule[1..]);
    }
  }

  lemma BucketsStay(t: Table)
    requires Inv(t)
    ensures |t.buckets| > 0
  {}

  // ---------------------------------------------------------------- what the table promises

  function Reached(buckets: nat, threads: nat, readers: nat, schedule: seq<Move>): Table
    requires buckets > 0
  {
    Run(Init(buckets, threads, readers), schedule)
  }

  lemma ReachedInv(buckets: nat, threads: nat, readers: nat, schedule: seq<Move>)
    requires buckets > 0
    ensures Inv(Reached(buckets, threads, readers, schedule))
  {
    InitInv(buckets, threads, readers);
    RunKeepsInv(Init(buckets, threads, readers), schedule);
  }

  /** The nodes a walk along the next pointers meets. */
  ghost function Chain(t: Table, top: Option<Addr>): seq<Addr>
    requires ChainsOk(t) && (top.Some? ==> top.value in t.born)
    decreases if top.None? then 0 else 1 + t.born[top.value]
  {
    if top.None? then []
    else
      assert LeadsDown(t, top.value);
      [top.value] + Chain(t, t.heap[top.value].next)
  }

  predicate NewestFirst(t: Table, c: seq<Addr>) {
    && (forall i :: 0 <= i < |c| ==> c[i] in t.born)
    && (forall i, j :: 0 <= i < j < |c| ==> t.born[c[j]] < t.born[c[i]])
  }

  // c is, newest first, what is live in bucket b from the node `top` down.
  ghost predicate WalkExact(t: Table, b: nat, top: Option<Addr>, c: seq<Addr>)
    requires NodesOk(t)
  {
    && (forall y :: y in c <==> Held(t, b, y) && Below(t, y, top))
    && NewestFirst(t, c)
  }

  lemma WalkMore(t: Table, b: nat, a: Addr, rest: seq<Addr>)
    requires ChainsOk(t) && Held(t, b, a) && WalkExact(t, b, t.heap[a].next, rest)
    ensures WalkExact(t, b, Some(a), [a] + rest)
  {
    hide HeadOk;
    var c := [a] + rest;
    assert LeadsDown(t, a);
    forall y ensures y in c <==> Held(t, b, y) && Below(t, y, Some(a)) {
      if Held(t, b, y) && Below(t, y, Some(a)) && y != a {
        assert SkipsNone(t, a, y);
      }
    }
    forall i | 0 <= i < |rest| ensures t.born[rest[i]] < t.born[a] {
      assert rest[i] in rest;
    }
    assert NewestFirst(t, c);
  }

  /** A walk from a live node meets, newest first, exactly the live nodes of its bucket below it. */
  lemma {:induction false} ChainExact(t: Table, b: nat, top: Option<Addr>)
    requires ChainsOk(t) && b < |t.buckets| && (top.Some? ==> Held(t, b, top.value))
    ensures forall y :: y in Chain(t, top) <==> Held(t, b, y) && Below(t, y, top)
    ensures NewestFirst(t, Chain(t, top))
    decreases if top.None? then 0 else 1 + t.born[top.value]
  {
    hide HeadOk, SkipsNone, NewestFirst;
    if top.Some? {
      assert LeadsDown(t, top.value);
      var next := t.heap[top.value].next;
      ChainExact(t, b, next);
      WalkMore(t, b, top.value, Chain(t, next));
      assert Chain(t, top) == [top.value] + Chain(t, next);
    } else {
      assert NewestFirst(t, []) by { NoneIsNewestFirst(t); }
    }
  }

  lemma NoneIsNewestFirst(t: Table)
    ensures NewestFirst(t, [])
  {}

  /** The chain of bucket b: the nodes in the table that hash to b, newest first, no id twice. */
  ghost predicate BucketExact(t: Table, b: nat) {
    && ChainsOk(t) && b < |t.buckets| && (t.buckets[b].Some? ==> t.buckets[b].value in t.born)
    && var c := Chain(t, t.buckets[b]);
       && NewestFirst(t, c)
       && (forall y :: y in c <==> y in t.live && Home(t, t.heap[y].id) == b)
       && (forall i, j :: 0 <= i < j < |c| ==> c[i] != c[j] && t.heap[c[i]].id != t.heap[c[j]].id)
  }

  /** In every run every chain ends, holds only ids of its bucket, and holds none twice. */
  lemma ChainsStayExact(buckets: nat, threads: nat, readers: nat, schedule: seq<Move>, b: nat)
    requires buckets > 0 && b < |Reached(buckets, threads, readers, schedule).buckets|
    ensures BucketExact(Reached(buckets, threads, readers, schedule), b)
  {
    ReachedInv(buckets, threads, readers, schedule);
    var t := Reached(buckets, threads, readers, schedule);
    assert HeadOk(t, b);
    ChainExact(t, b, t.buckets[b]);
    forall y | y in t.live && Home(t, t.heap[y].id) == b ensures y in Chain(t, t.buckets[b]) {
      assert Below(t, y, t.buckets[b]);
    }
  }

  /** Exactly the insert whose exchange succeeds returns true, and it enters the log then. */
  lemma TrueIsLogged(t: Table, p: nat, id: nat, now: nat, spot: Addr)
    requires Inv(t) && p < |t.inserters|
    ensures var t' := InsertStep(t, p, id, now, spot);
            var won := !t.inserters[p].Returned? && t'.inserters[p].Returned? && t'.inserters[p].verdict.New?;
            && t'.log == t.log + (if won then [Inserted(t'.inserters[p].id, t'.inserters[p].now)] else [])
            && (won ==> !LiveIn(t.log, t'.inserters[p].id) && t'.inserters[p].end == |t.log|)
  {
    BucketsStay(t);
    hide ChainsOk, InsertersOk, CleanerOk, LogOk, LiveIn, InBucket;
    var x := t.inserters[p];
    if x.Swapping? && t.buckets[Home(t, x.id)] == x.head {
      SwapPublishes(t, p, id, now, spot);
      PublishedIsNew(t, InsertStep(t, p, id, now, spot), x.mine, Home(t, x.id));
      MineHasId(t, p);
    }
  }

  lemma PublishedIsNew(t: Table, t': Table, m: Addr, b: nat)
    requires Publishes(t, t', m, b) && Agrees(t)
    ensures !LiveIn(t.log, t.heap[m].id)
  {}

  lemma MineHasId(t: Table, p: nat)
    requires Inv(t) && p < |t.inserters| && Busy(t.inserters[p])
    ensures var x := t.inserters[p];
            x.mine in t.heap && t.heap[x.mine].id == x.id && t.heap[x.mine].stamp == x.now
  {
    assert InserterOk(t, t.inserters[p]);
  }
}
