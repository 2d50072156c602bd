/**
  Each call of the duplicate table left alone: that it ends, and what it does. A thread is left
  alone from any state the others, stopped wherever they are, can have brought the table to.
 */
module DedupAlone {
  import opened Wrappers
  import opened DedupSteps
  import opened DedupAnswers

  lemma AgainMore(t: Table, m: Move, n: nat)
    requires |t.buckets| > 0
    ensures |Step(t, m).buckets| > 0 && Again(t, m, n + 1) == Again(Step(t, m), m, n)
  {
    hide Step;
    BucketCount(t, m);
  }

  lemma AgainNone(t: Table, m: Move)
    requires |t.buckets| > 0
    ensures Again(t, m, 0) == t
  {}

  // ---------------------------------------------------------------- insert

  // What a thread inside insert leaves alone until its exchange.
  ghost predicate Untouched(t: Table, t': Table) {
    t'.buckets == t.buckets && t'.log == t.log && |t'.inserters| == |t.inserters|
  }

  lemma ScanStep(t: Table, p: nat, id: nat, now: nat, spot: Addr)
    requires Inv(t) && p < |t.inserters| && t.inserters[p].Scanning?
    ensures var x, t' := t.inserters[p], InsertStep(t, p, id, now, spot);
            var y := t'.inserters[p];
            && Untouched(t, t')
            && (match x.curr
                case None => y == Linking(x.id, x.now, x.mine, x.retries, x.start, x.head, x.since)
                case Some(c) =>
                  && c in t.born && t'.born == t.born
                  && (y == Returned(x.id, x.now, Duplicate, x.start, x.since, |t.log|)
                      || (&& y == x.(curr := y.curr) && y.curr == t.heap[c].next
                          && (y.curr.Some? ==> y.curr.value in t.born && t.born[y.curr.value] < t.born[c]))))
  {
    hide SkipsNone, HeadOk, LiveIn, CleanerOk, LogOk, Agrees;
    var x := t.inserters[p];
    assert InserterOk(t, x);
    if x.curr.Some? {
      assert LeadsDown(t, x.curr.value);
    }
  }

  // The scan of the chain, to its end or to an entry with the id.
  lemma {:induction false} ScanAlone(t: Table, p: nat, id: nat, now: nat, spot: Addr) returns (n: nat)
    requires Inv(t) && p < |t.inserters| && t.inserters[p].Scanning?
    ensures |t.buckets| > 0
    ensures var x, t' := t.inserters[p], Again(t, Insert(p, id, now, spot), n);
            && Inv(t') && Untouched(t, t')
            && (t'.inserters[p] == Returned(x.id, x.now, Duplicate, x.start, x.since, |t.log|)
                || t'.inserters[p] == Linking(x.id, x.now, x.mine, x.retries, x.start, x.head, x.since))
    decreases if t.inserters[p].curr.Some? && t.inserters[p].curr.value in t.born
              then 1 + t.born[t.inserters[p].curr.value] else 0
  {
    hide Inv, InsertStep, Again;
    var m := Insert(p, id, now, spot);
    BucketsStay(t);
    ScanStep(t, p, id, now, spot);
    StepKeepsInv(t, m);
    var t1 := Step(t, m);
    if t1.inserters[p].Scanning? {
      n := ScanAlone(t1, p, id, now, spot);
    } else {
      n := 0;
      AgainNone(t1, m);
    }
    AgainMore(t, m, n);
    n := n + 1;
  }

  // Linking and the exchange, which succeeds since nobody moved the head.
  lemma SwapAlone(t: Table, p: nat, id: nat, now: nat, spot: Addr)
    requires Inv(t) && p < |t.inserters| && t.inserters[p].Linking?
    requires |t.buckets| > 0 && t.buckets[Home(t, t.inserters[p].id)] == t.inserters[p].head
    ensures var x, t' := t.inserters[p], Again(t, Insert(p, id, now, spot), 2);
            && Inv(t') && |t'.inserters| == |t.inserters|
            && t'.inserters[p] == Returned(x.id, x.now, New, x.start, x.since, |t.log|)
            && t'.log == t.log + [Inserted(x.id, x.now)]
  {
    ChainsHaveNodes(t);
    hide ChainsOk, CleanerOk, LogOk, Agrees, LiveIn, InBucket;
    assert InserterOk(t, t.inserters[p]);
    var m := Insert(p, id, now, spot);
    var t1 := Step(t, m);
    StepKeepsInv(t, m);
    StepKeepsInv(t1, m);
    AgainMore(t, m, 1);
    AgainMore(t1, m, 0);
    AgainNone(Step(t1, m), m);
  }

  /**
    insert left alone ends: true, with the id and the time it was called with entered, exactly when
    the id was not in the table; and false with nothing changed exactly when it was.
   */
  lemma InsertAlone(t: Table, p: nat, id: nat, now: nat, spot: Addr) returns (n: nat)
    requires Inv(t) && p < |t.inserters| && t.inserters[p].Idle? && spot !in t.heap
    ensures |t.buckets| > 0
    ensures var t' := Again(t, Insert(p, id, now, spot), n);
            && Inv(t') && |t'.inserters| == |t.inserters|
            && t'.inserters[p].Returned? && t'.inserters[p].id == id && t'.inserters[p].now == now
            && t'.inserters[p].verdict == (if LiveIn(t.log, id) then Duplicate else New)
            && t'.log == (if LiveIn(t.log, id) then t.log else t.log + [Inserted(id, now)])
  {
    hide Inv, InsertStep, Again, LiveIn;
    var m := Insert(p, id, now, spot);
    BucketsStay(t);
    StartAndLoad(t, p, id, now, spot);
    StepKeepsInv(t, m);
    var t1 := Step(t, m);
    StepKeepsInv(t1, m);
    var t2 := Step(t1, m);
    var k := ScanAlone(t2, p, id, now, spot);
    var t3 := Again(t2, m, k);
    AgainMore(t, m, k + 1);
    AgainMore(t1, m, k);
    if t3.inserters[p].Returned? {
      n := k + 2;
      DuplicateIsLive(t3, p);
    } else {
      SwapAlone(t3, p, id, now, spot);
      AgainSum(t, m, k + 2, 2);
      n := k + 4;
      NewWasNot(t3, p, id, now, spot);
    }
  }

  lemma StartAndLoad(t: Table, p: nat, id: nat, now: nat, spot: Addr)
    requires |t.buckets| > 0 && p < |t.inserters| && t.inserters[p].Idle? && spot !in t.heap
    ensures var t1 := InsertStep(t, p, id, now, spot);
            var t2 := InsertStep(t1, p, id, now, spot);
            && Untouched(t, t1) && Untouched(t, t2) && t2.inserters[p].Scanning?
            && t2.inserters[p].id == id && t2.inserters[p].now == now
            && t2.inserters[p].since == |t.log| && t2.inserters[p].head == t.buckets[Home(t, id)]
  {
    hide InBucket;
  }

  lemma {:induction false} AgainSum(t: Table, m: Move, i: nat, j: nat)
    requires |t.buckets| > 0
    ensures Again(t, m, i + j) == Again(Again(t, m, i), m, j)
    decreases i
  {
    hide Step;
    if i > 0 {
      BucketCount(t, m);
      AgainSum(Step(t, m), m, i - 1, j);
    }
  }

  lemma DuplicateIsLive(t: Table, p: nat)
    requires Inv(t) && p < |t.inserters| && t.inserters[p].Returned? && t.inserters[p].verdict.Duplicate?
    requires t.inserters[p].since == |t.log|
    ensures LiveIn(t.log, t.inserters[p].id)
  {
    assert InserterOk(t, t.inserters[p]);
    assert t.log[..|t.log|] == t.log;
  }

  lemma NewWasNot(t: Table, p: nat, id: nat, now: nat, spot: Addr)
    requires Inv(t) && p < |t.inserters| && t.inserters[p].Linking?
    requires |t.buckets| > 0 && t.buckets[Home(t, t.inserters[p].id)] == t.inserters[p].head
    ensures !LiveIn(t.log, t.inserters[p].id)
  {
    ChainsHaveNodes(t);
    hide ChainsOk, CleanerOk, LogOk, Agrees, LiveIn, InBucket;
    assert InserterOk(t, t.inserters[p]);
    var t1 := InsertStep(t, p, id, now, spot);
    InsertKeepsInv(t, p, id, now, spot);
    TrueIsLogged(t1, p, id, now, spot);
  }

  // ---------------------------------------------------------------- is_duplicate

  lemma ReadWalkStep(t: Table, q: nat, id: nat)
    requires Inv(t) && q < |t.readers| && t.readers[q].Walking? && ReaderOk(t, t.readers[q])
    ensures var x, t' := t.readers[q], ReadStep(t, q, id);
            var y := t'.readers[q];
            && t'.log == t.log && t'.born == t.born && |t'.readers| == |t.readers|
            && (y == Answered(x.id, x.curr.Some?, x.since, |t.log|)
                || (&& y == x.(curr := y.curr) && x.curr.Some? && x.curr.value in t.born
                    && (y.curr.Some? ==> y.curr.value in t.born && t.born[y.curr.value] < t.born[x.curr.value])))
  {
    hide SkipsNone, HeadOk, LiveIn, CleanerOk, LogOk, Agrees, Missed, Ahead;
    var x := t.readers[q];
    SeenBounds(t, x.seen, x.since);
    if x.curr.Some? {
      assert LeadsDown(t, x.curr.value);
    }
  }

  lemma {:induction false} WalkAlone(t: Table, q: nat, id: nat) returns (n: nat)
    requires Inv(t) && q < |t.readers| && t.readers[q].Walking? && ReaderOk(t, t.readers[q])
    ensures |t.buckets| > 0
    ensures var x, t' := t.readers[q], Again(t, Read(q, id), n);
            && Inv(t') && |t'.readers| == |t.readers| && t'.log == t.log
            && t'.readers[q].Answered? && ReaderOk(t', t'.readers[q])
            && t'.readers[q].id == x.id && t'.readers[q].since == x.since && t'.readers[q].end == |t.log|
    decreases if t.readers[q].curr.Some? && t.readers[q].curr.value in t.born
              then 1 + t.born[t.readers[q].curr.value] else 0
  {
    hide Inv, ReadStep, Again, ReaderOk;
    var m := Read(q, id);
    BucketsStay(t);
    ReadWalkStep(t, q, id);
    StepKeepsInv(t, m);
    var t1 := Step(t, m);
    ReadKeepsReaderOk(t, q, id);
    if t1.readers[q].Walking? {
      n := WalkAlone(t1, q, id);
    } else {
      n := 0;
      AgainNone(t1, m);
    }
    AgainMore(t, m, n);
    n := n + 1;
  }

  // After the reader's own step, in the table the step leaves.
  lemma ReadKeepsReaderOk(t: Table, q: nat, id: nat)
    requires Inv(t) && q < |t.readers| && ReaderOk(t, t.readers[q])
    ensures |t.buckets| > 0
    ensures var t' := ReadStep(t, q, id); NodesOk(t') && ReaderOk(t', t'.readers[q])
  {
    hide ReaderOk, Evolves, ReadStep;
    BucketsStay(t);
    ReadKeepsReader(t, q, id);
    StepEvolves(t, Read(q, id));
    EvolvesNodes(t, ReadStep(t, q, id));
    SameReaders(t, q, id);
    ReaderStays(t, ReadStep(t, q, id), ReadStep(t, q, id).readers[q]);
  }

  lemma SameReaders(t: Table, q: nat, id: nat)
    requires |t.buckets| > 0 && q < |t.readers|
    ensures |ReadStep(t, q, id).readers| == |t.readers|
  {}

  /** is_duplicate left alone ends, and answers whether the id is in the table. */
  lemma ReaderAlone(t: Table, q: nat, id: nat) returns (n: nat)
    requires Inv(t) && q < |t.readers| && t.readers[q].Away?
    ensures |t.buckets| > 0
    ensures var t' := Again(t, Read(q, id), n);
            && |t'.readers| == |t.readers| && t'.log == t.log
            && t'.readers[q] == Answered(id, LiveIn(t.log, id), |t.log|, |t.log|)
  {
    hide Inv, Again, LiveIn, ReaderOk;
    var m := Read(q, id);
    BucketsStay(t);
    AwayIsOk(t, q);
    ReadKeepsReaderOk(t, q, id);
    StepKeepsInv(t, m);
    var k := WalkAlone(Step(t, m), q, id);
    AgainMore(t, m, k);
    n := k + 1;
    InvHasNodes(Again(t, m, n));
    AnswerIsNow(Again(t, m, n), Again(t, m, n).readers[q]);
  }

  lemma AwayIsOk(t: Table, q: nat)
    requires Inv(t) && q < |t.readers| && t.readers[q].Away?
    ensures NodesOk(t) && ReaderOk(t, t.readers[q])
  {}

  lemma AnswerIsNow(t: Table, x: Reader)
    requires NodesOk(t) && ReaderOk(t, x) && x.Answered? && x.since == x.end == |t.log|
    ensures x.found == LiveIn(t.log, x.id)
  {
    hide LiveIn;
    assert t.log[..|t.log|] == t.log;
    if !x.found {
      var k :| x.since <= k <= |t.log[..x.end]| && !LiveIn(t.log[..x.end][..k], x.id);
    }
  }

  // ---------------------------------------------------------------- the cleaner

  predicate Due(t: Table, a: Addr, b: nat, now: nat)
    requires |t.buckets| > 0 && a in t.heap
  {
    Home(t, t.heap[a].id) == b && now > t.heap[a].stamp + 3600000
  }

  /** From t on, nothing happened but that due nodes of bucket b left the table. */
  ghost predicate OnlyDueLeft(t: Table, t': Table, b: nat, now: nat) {
    && NodesOk(t) && NodesOk(t') && |t'.buckets| == |t.buckets| && t'.born == t.born
    && t'.live <= t.live
    && (forall a :: a in t.born ==> t'.heap[a].id == t.heap[a].id && t'.heap[a].stamp == t.heap[a].stamp)
    && (forall a :: a in t.live && a !in t'.live ==> Due(t, a, b, now))
  }

  lemma OnlyDueTwice(t: Table, t1: Table, t2: Table, b: nat, now: nat)
    requires OnlyDueLeft(t, t1, b, now) && OnlyDueLeft(t1, t2, b, now)
    ensures OnlyDueLeft(t, t2, b, now)
  {}

  /** Every node of the bucket from `prev` up is not due. */
  ghost predicate ClearDownTo(t: Table, b: nat, now: nat, prev: Addr)
    requires NodesOk(t)
  {
    forall y :: y in t.live && prev in t.born && t.born[prev] <= t.born[y] ==> !Due(t, y, b, now)
  }

  ghost predicate AllClear(t: Table, b: nat, now: nat)
    requires NodesOk(t)
  {
    forall y :: y in t.live ==> !Due(t, y, b, now)
  }

  lemma CleanOnlyDue(t: Table, b: nat, now: nat)
    requires Inv(t) && !t.cleaner.Resting?
    ensures OnlyDueLeft(t, CleanStep(t, b, now), t.cleaner.bucket, t.cleaner.now)
  {
    hide LinksOk, HeadOk, InsertersOk, LogOk, Agrees, LiveIn, LinkFollows;
    var t' := CleanStep(t, b, now);
    CleanKeepsInv(t, b, now);
    if t'.log == t.log {
      CleanFrames(t, b, now);
    } else {
      CleanRemoves(t, b, now);
    }
  }

  // Where the cleaner stands, what is clear already, and how far it still has to go.
  ghost predicate Working(t: Table, b: nat, now: nat)
    requires NodesOk(t)
  {
    match t.cleaner
    case Resting => AllClear(t, b, now)
    case HeadCheck(k, n, top, r) => k == b && n == now && b < |t.buckets| && r == 0 && top == t.buckets[b]
    case HeadSwap(k, n, at, _, r) => k == b && n == now && b < |t.buckets| && r == 0 && t.buckets[b] == Some(at)
    case TailCheck(k, n, prev, _) => k == b && n == now && ClearDownTo(t, b, now, prev)
    case Unlinking(k, n, prev, _, _) => k == b && n == now && ClearDownTo(t, b, now, prev)
  }

  function Ahead2(t: Table, top: Option<Addr>): nat {
    if top.Some? && top.value in t.born then 2 + 2 * t.born[top.value] else 0
  }

  // Bounds the cleaner's steps: positions of the chain still ahead, phase 1 before phase 2.
  function Remaining(t: Table): nat {
    match t.cleaner
    case Resting => 0
    case HeadCheck(_, _, top, _) => 2 + Ahead2(t, top)
    case HeadSwap(_, _, at, _, _) => 1 + Ahead2(t, Some(at))
    case TailCheck(_, _, _, curr) => 1 + Ahead2(t, curr)
    case Unlinking(_, _, _, at, _) => Ahead2(t, Some(at))
  }

  lemma HeadCheckWorks(t: Table, b: nat, now: nat, c: nat, m: nat)
    requires Inv(t) && Working(t, b, now) && t.cleaner.HeadCheck?
    ensures var t' := CleanStep(t, c, m);
            NodesOk(t') && Working(t', b, now) && Remaining(t') < Remaining(t)
  {
    hide InsertersOk, LogOk, Agrees, LiveIn, SkipsNone;
    assert HeadOk(t, b);
    if t.buckets[b].Some? {
      assert LeadsDown(t, t.buckets[b].value);
      forall y | y in t.live && t.born[t.buckets[b].value] <= t.born[y] && Home(t, t.heap[y].id) == b
        ensures y == t.buckets[b].value
      {
        assert Below(t, y, t.buckets[b]);
      }
    } else {
      forall y | y in t.live ensures !Due(t, y, b, now) {
        assert Home(t, t.heap[y].id) == b ==> Below(t, y, t.buckets[b]);
      }
    }
  }

  lemma HeadSwapWorks(t: Table, b: nat, now: nat, c: nat, m: nat)
    requires Inv(t) && Working(t, b, now) && t.cleaner.HeadSwap? && NodesOk(CleanStep(t, c, m))
    ensures var t' := CleanStep(t, c, m); Working(t', b, now) && Remaining(t') < Remaining(t)
  {
    hide InsertersOk, LogOk, Agrees, LiveIn, SkipsNone, HeadOk;
    assert LeadsDown(t, t.cleaner.at);
  }

  lemma TailCheckWorks(t: Table, b: nat, now: nat, c: nat, m: nat)
    requires Inv(t) && Working(t, b, now) && t.cleaner.TailCheck?
    ensures var t' := CleanStep(t, c, m);
            NodesOk(t') && Working(t', b, now) && Remaining(t') < Remaining(t)
  {
    hide InsertersOk, LogOk, Agrees, LiveIn, HeadOk;
    var prev, curr := t.cleaner.prev, t.cleaner.curr;
    assert LeadsDown(t, prev);
    forall y | y in t.live && Home(t, t.heap[y].id) == b && t.born[y] < t.born[prev]
      ensures curr.Some? && t.born[y] <= t.born[curr.value]
    {
      assert SkipsNone(t, prev, y);
    }
    if curr.Some? {
      assert LeadsDown(t, curr.value);
    }
  }

  lemma UnlinkingWorks(t: Table, b: nat, now: nat, c: nat, m: nat)
    requires Inv(t) && Working(t, b, now) && t.cleaner.Unlinking? && NodesOk(CleanStep(t, c, m))
    ensures var t' := CleanStep(t, c, m); Working(t', b, now) && Remaining(t') < Remaining(t)
  {
    hide InsertersOk, LogOk, Agrees, LiveIn, SkipsNone, HeadOk;
    assert LeadsDown(t, t.cleaner.at);
  }

  lemma CleanWorks(t: Table, b: nat, now: nat, c: nat, m: nat)
    requires Inv(t) && NodesOk(t) && Working(t, b, now) && !t.cleaner.Resting?
    ensures var t' := CleanStep(t, c, m);
            && Inv(t') && Working(t', b, now) && Remaining(t') < Remaining(t) && OnlyDueLeft(t, t', b, now)
  {
    hide Inv, CleanStep, Working, OnlyDueLeft;
    CleanKeepsInv(t, c, m);
    InvHasNodes(CleanStep(t, c, m));
    CleanOnlyDue(t, c, m);
    WorkingPlace(t, b, now);
    match t.cleaner
    case HeadCheck(_, _, _, _) => HeadCheckWorks(t, b, now, c, m);
    case HeadSwap(_, _, _, _, _) => HeadSwapWorks(t, b, now, c, m);
    case TailCheck(_, _, _, _) => TailCheckWorks(t, b, now, c, m);
    case Unlinking(_, _, _, _, _) => UnlinkingWorks(t, b, now, c, m);
  }

  lemma InvHasNodes(t: Table)
    requires Inv(t)
    ensures NodesOk(t)
  {}

  lemma WorkingPlace(t: Table, b: nat, now: nat)
    requires NodesOk(t) && Working(t, b, now) && !t.cleaner.Resting?
    ensures t.cleaner.bucket == b && t.cleaner.now == now
  {}

  lemma {:induction false} WorkEnds(t: Table, b: nat, now: nat) returns (n: nat)
    requires Inv(t) && NodesOk(t) && Working(t, b, now)
    ensures var t' := Again(t, Clean(b, now), n);
            Inv(t') && t'.cleaner.Resting? && OnlyDueLeft(t, t', b, now) && AllClear(t', b, now)
    decreases Remaining(t)
  {
    hide Inv, CleanStep, OnlyDueLeft, Again, AllClear;
    var m := Clean(b, now);
    if t.cleaner.Resting? {
      n := 0;
      AgainNone(t, m);
      NothingLeft(t, b, now);
    } else {
      hide Working, Remaining;
      CleanWorks(t, b, now, b, now);
      var t1 := Step(t, m);
      InvHasNodes(t1);
      var k := WorkEnds(t1, b, now);
      AgainMore(t, m, k);
      n := k + 1;
      OnlyDueTwice(t, t1, Again(t1, m, k), b, now);
    }
  }

  lemma NothingLeft(t: Table, b: nat, now: nat)
    requires NodesOk(t)
    ensures OnlyDueLeft(t, t, b, now)
  {}

  /**
    cleanup_bucket_count left alone ends, and takes from the table exactly the nodes of its bucket
    that are more than an hour old, wherever other threads stand inside their calls.
   */
  lemma CleanerAlone(t: Table, b: nat, now: nat) returns (n: nat)
    requires Inv(t) && t.cleaner.Resting? && b < |t.buckets|
    ensures var t' := Again(t, Clean(b, now), n);
            && Inv(t') && t'.cleaner.Resting? && t'.live <= t.live <= t.heap.Keys
            && (forall a :: a in t.live ==>
                  (a in t'.live <==> !(Home(t, t.heap[a].id) == b && now > t.heap[a].stamp + 3600000)))
  {
    hide Inv, OnlyDueLeft, Again, AllClear;
    var m := Clean(b, now);
    InvHasNodes(t);
    StepKeepsInv(t, m);
    var t1 := Step(t, m);
    InvHasNodes(t1);
    var k := WorkEnds(t1, b, now);
    AgainMore(t, m, k);
    n := k + 1;
    StartsQuietly(t, b, now);
    var t' := Again(t1, m, k);
    InvHasNodes(t');
    OnlyDueTwice(t, t1, t', b, now);
    DueIsGone(t, t', b, now);
  }

  lemma StartsQuietly(t: Table, b: nat, now: nat)
    requires NodesOk(t) && t.cleaner.Resting? && b < |t.buckets|
    ensures OnlyDueLeft(t, CleanStep(t, b, now), b, now)
  {}

  lemma DueIsGone(t: Table, t': Table, b: nat, now: nat)
    requires NodesOk(t') && OnlyDueLeft(t, t', b, now) && AllClear(t', b, now)
    ensures t'.live <= t.live <= t.heap.Keys
    ensures forall a :: a in t.live ==> (a in t'.live <==> !Due(t, a, b, now))
  {
    forall a | a in t.live && Due(t, a, b, now) ensures a !in t'.live {
      assert a in t'.live ==> !Due(t', a, b, now);
    }
  }

  /**
    Phase 1 tries to take out the head exactly while it is more than an hour old and fewer than ten
    exchanges in a row were lost; a lost exchange changes nothing in the table, a won one starts the
    count again.
   */
  lemma HeadIsTriedTenTimes(t: Table, b: nat, now: nat)
    requires Inv(t)
    ensures t.cleaner.HeadCheck? && t.cleaner.top.Some? ==>
              var at := t.cleaner.top.value;
              && at in t.heap
              && (CleanStep(t, b, now).cleaner.HeadSwap? <==>
                    t.cleaner.now > t.heap[at].stamp + 3600000 && t.cleaner.retries < 10)
    ensures t.cleaner.HeadSwap? ==>
              var t', x := CleanStep(t, b, now), t.cleaner;
              && t'.cleaner.HeadCheck? && x.bucket < |t.buckets|
              && (t.buckets[x.bucket] == Some(x.at) ==> t'.live == t.live - {x.at} && t'.cleaner.retries == 0)
              && (t.buckets[x.bucket] != Some(x.at) ==>
                    t' == t.(cleaner := t'.cleaner) && t'.cleaner.retries == x.retries + 1)
  {
    CleanerStands(t);
  }

  lemma CleanerStands(t: Table)
    requires Inv(t)
    ensures CleanerOk(t)
  {}
}
