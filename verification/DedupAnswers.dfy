/**
  What the answers of concurrent `insert` and `is_duplicate` calls mean: which exchanges an
  insert lost before it gave up, and at which moment of a call a reader's answer was true.
 */
module DedupAnswers {
  import opened Wrappers
  import opened DedupSteps

  // ---------------------------------------------------------------- counting changes of a bucket

  /** How many of the changes log[from..upto] were to bucket b of n. */
  function Changes(log: seq<Change>, from: nat, upto: nat, b: nat, n: nat): (c: nat)
    requires from <= upto <= |log| && n > 0
    decreases upto
  {
    if from == upto then 0
    else Changes(log, from, upto - 1, b, n) + if log[upto - 1].id % n == b then 1 else 0
  }

  lemma {:induction false} ChangesAppend(log: seq<Change>, c: Change, from: nat, upto: nat, b: nat, n: nat)
    requires from <= upto <= |log| && n > 0
    ensures Changes(log + [c], from, upto, b, n) == Changes(log, from, upto, b, n)
    decreases upto
  {
    if from < upto {
      ChangesAppend(log, c, from, upto - 1, b, n);
    }
  }

  lemma ChangesLast(log: seq<Change>, c: Change, from: nat, b: nat, n: nat)
    requires from <= |log| && n > 0
    ensures Changes(log + [c], from, |log| + 1, b, n) ==
              Changes(log, from, |log|, b, n) + if c.id % n == b then 1 else 0
  {
    ChangesAppend(log, c, from, |log|, b, n);
  }

  lemma NoChanges(log: seq<Change>, from: nat, b: nat, n: nat)
    requires from <= |log| && n > 0
    ensures Changes(log, from, from, b, n) == 0
  {}

  lemma {:induction false} ChangesSplit(log: seq<Change>, from: nat, mid: nat, upto: nat, b: nat, n: nat)
    requires from <= mid <= upto <= |log| && n > 0
    ensures Changes(log, from, upto, b, n) == Changes(log, from, mid, b, n) + Changes(log, mid, upto, b, n)
    decreases upto
  {
    if mid < upto {
      ChangesSplit(log, from, mid, upto - 1, b, n);
    }
  }

  // ---------------------------------------------------------------- lost exchanges

  predicate HeadMoved(t: Table, id: nat, head: Option<Addr>, since: nat)
    requires |t.buckets| > 0 && since <= |t.log|
  {
    t.buckets[Home(t, id)] != head ==> Changes(t.log, since, |t.log|, Home(t, id), |t.buckets|) >= 1
  }

  /** r exchanges lost so far were lost to r changes of the bucket of the id since the call began. */
  predicate Tried(t: Table, id: nat, r: nat, start: nat, head: Option<Addr>, since: nat)
    requires |t.buckets| > 0
  {
    && start <= since <= |t.log| && r < MAX_RETRIES
    && r <= Changes(t.log, start, since, Home(t, id), |t.buckets|)
    && HeadMoved(t, id, head, since)
  }

  predicate Losses(t: Table, x: Inserter)
    requires |t.buckets| > 0
  {
    match x
    case Idle => true
    case Loading(i, _, _, r, start) =>
      start <= |t.log| && r < MAX_RETRIES && r <= Changes(t.log, start, |t.log|, Home(t, i), |t.buckets|)
    case Scanning(i, _, _, r, start, h, _, since, _) => Tried(t, i, r, start, h, since)
    case Linking(i, _, _, r, start, h, since) => Tried(t, i, r, start, h, since)
    case Swapping(i, _, _, r, start, h, since) => Tried(t, i, r, start, h, since)
    case Returned(i, _, v, start, since, end) =>
      && start <= since <= end <= |t.log|
      && (v.GaveUp? ==> Changes(t.log, start, end, Home(t, i), |t.buckets|) >= MAX_RETRIES)
  }

  /** One step's effect on heads and log: at most one change, and only its bucket's head moves. */
  predicate OneChange(t: Table, t': Table) {
    && |t'.buckets| == |t.buckets| > 0
    && if |t'.log| == |t.log| then t'.log == t.log && t'.buckets == t.buckets
       else
         && |t'.log| == |t.log| + 1 && t'.log == t.log + [t'.log[|t.log|]]
         && (forall k :: 0 <= k < |t.buckets| && k != Home(t, t'.log[|t.log|].id) ==> t'.buckets[k] == t.buckets[k])
  }

  lemma InsertIsOneChange(t: Table, p: nat, id: nat, now: nat, spot: Addr)
    requires |t.buckets| > 0 && p < |t.inserters|
    ensures OneChange(t, InsertStep(t, p, id, now, spot))
  {
    hide InBucket;
  }

  lemma CleanIsOneChange(t: Table, b: nat, now: nat)
    requires |t.buckets| > 0 && CleanerOk(t)
    ensures OneChange(t, CleanStep(t, b, now))
  {}

  lemma StepIsOneChange(t: Table, m: Move)
    requires Inv(t)
    ensures OneChange(t, Step(t, m))
  {
    match m
    case Insert(p, id, now, spot) =>
      BucketsStay(t);
      if p < |t.inserters| {
        InsertIsOneChange(t, p, id, now, spot);
      }
    case Read(_, _) => BucketsStay(t);
    case Clean(b, now) => CleanIsOneChange(t, b, now);
  }

  lemma HeadMovedStays(t: Table, t': Table, id: nat, head: Option<Addr>, since: nat)
    requires OneChange(t, t') && since <= |t.log| && HeadMoved(t, id, head, since)
    ensures HeadMoved(t', id, head, since)
  {
    if |t'.log| > |t.log| {
      ChangesLast(t.log, t'.log[|t.log|], since, Home(t, id), |t.buckets|);
    }
  }

  /** What a thread has lost stays lost, whatever others do. */
  lemma LossesStay(t: Table, t': Table, x: Inserter)
    requires OneChange(t, t') && Losses(t, x)
    ensures Losses(t', x)
  {
    hide HeadMoved;
    if |t'.log| > |t.log| && !x.Idle? {
      var c, b, n := t'.log[|t.log|], Home(t, x.id), |t.buckets|;
      if x.Loading? {
        ChangesLast(t.log, c, x.start, b, n);
      } else if x.Returned? {
        ChangesAppend(t.log, c, x.start, x.end, b, n);
      } else {
        ChangesAppend(t.log, c, x.start, x.since, b, n);
      }
    }
    if x.Scanning? || x.Linking? || x.Swapping? {
      HeadMovedStays(t, t', x.id, x.head, x.since);
    }
  }

  lemma OwnStepKeepsLosses(t: Table, p: nat, id: nat, now: nat, spot: Addr)
    requires |t.buckets| > 0 && p < |t.inserters| && Losses(t, t.inserters[p])
    ensures var t' := InsertStep(t, p, id, now, spot); Losses(t', t'.inserters[p])
  {
    hide InBucket, Changes;
    var x := t.inserters[p];
    match x
    case Loading(i, _, _, _, _) => NoChanges(t.log, |t.log|, Home(t, i), |t.buckets|);
    case Swapping(i, _, _, _, start, _, since) =>
      InsertIsOneChange(t, p, id, now, spot);
      ChangesSplit(t.log, start, since, |t.log|, Home(t, i), |t.buckets|);
    case Idle => NoChanges(t.log, |t.log|, Home(t, id), |t.buckets|);
    case _ =>
  }

  ghost predicate AllLosses(t: Table) {
    |t.buckets| > 0 && forall p :: 0 <= p < |t.inserters| ==> Losses(t, t.inserters[p])
  }

  lemma StepKeepsLosses(t: Table, m: Move)
    requires Inv(t) && AllLosses(t)
    ensures AllLosses(Step(t, m))
  {
    hide Losses, InsertStep, CleanStep, ReadStep, OneChange, Inv;
    var t' := Step(t, m);
    StepIsOneChange(t, m);
    ThreadsStay(t, m);
    forall q | 0 <= q < |t'.inserters| ensures Losses(t', t'.inserters[q]) {
      if m.Insert? && m.p == q {
        OwnStepKeepsLosses(t, q, m.id, m.now, m.spot);
      } else {
        LossesStay(t, t', t.inserters[q]);
      }
    }
  }

  // A step moves the threads it names and no others.
  ghost predicate MovesOnly(t: Table, m: Move, t': Table) {
    && |t'.buckets| == |t.buckets|
    && |t'.inserters| == |t.inserters| && |t'.readers| == |t.readers|
    && (forall q :: 0 <= q < |t.inserters| && !(m.Insert? && m.p == q) ==> t'.inserters[q] == t.inserters[q])
    && (forall q :: 0 <= q < |t.readers| && !(m.Read? && m.q == q) ==> t'.readers[q] == t.readers[q])
  }

  lemma InsertMovesOnly(t: Table, m: Move)
    requires |t.buckets| > 0 && m.Insert? && m.p < |t.inserters|
    ensures MovesOnly(t, m, InsertStep(t, m.p, m.id, m.now, m.spot))
  {
    hide InBucket;
  }

  lemma ThreadsStay(t: Table, m: Move)
    requires |t.buckets| > 0
    ensures MovesOnly(t, m, Step(t, m))
  {
    hide InBucket, InsertStep, Expired;
    if m.Insert? && m.p < |t.inserters| {
      InsertMovesOnly(t, m);
    }
  }

  // ---------------------------------------------------------------- readers

  /** The id was out of the table at some moment after `since` changes. */
  ghost predicate Missed(log: seq<Change>, since: nat, id: nat) {
    exists k :: since <= k <= |log| && !LiveIn(log[..k], id)
  }

  ghost predicate Ahead(t: Table, id: nat, curr: Option<Addr>)
    requires NodesOk(t)
  {
    exists y :: y in t.live && t.heap[y].id == id && Below(t, y, curr)
  }

  /** A walking reader has either missed the id for good reason or still has it ahead. */
  ghost predicate ReaderOk(t: Table, x: Reader)
    requires NodesOk(t)
  {
    match x
    case Away => true
    case Walking(i, curr, since, seen) =>
      && SeenOk(t, seen, since)
      && (curr.Some? ==> curr.value in seen && Home(t, t.heap[curr.value].id) == Home(t, i))
      && (Missed(t.log, since, i) || Ahead(t, i, curr))
    case Answered(i, found, since, end) =>
      && since <= end <= |t.log|
      && (if found then LiveIn(t.log[..since], i) else Missed(t.log[..end], since, i))
  }

  ghost predicate AllReaders(t: Table) {
    NodesOk(t) && forall q :: 0 <= q < |t.readers| ==> ReaderOk(t, t.readers[q])
  }

  // A published node keeps its link, or was linked past the node it led to.
  predicate LinkFollows(t: Table, t': Table, a: Addr) {
    && a in t.heap && a in t'.heap
    && (t'.heap[a].next != t.heap[a].next ==>
          && t.heap[a].next.Some? && t.heap[a].next.value in t.heap
          && t'.heap[a].next == t.heap[t.heap[a].next.value].next)
  }

  /** What any step leaves of the published nodes and of the log. */
  ghost predicate Evolves(t: Table, t': Table) {
    && NodesOk(t) && NodesOk(t') && |t'.buckets| == |t.buckets|
    && t.log <= t'.log
    && (forall a :: a in t.born ==> a in t'.born && t'.born[a] == t.born[a] && t'.heap[a].id == t.heap[a].id)
    && (forall a :: a in t.born ==> LinkFollows(t, t', a))
    && (forall y :: y in t.live ==> y in t'.live || !LiveIn(t'.log, t.heap[y].id))
  }

  lemma MineIsPrivate(t: Table, p: nat)
    requires NodesOk(t) && InsertersOk(t) && p < |t.inserters| && Busy(t.inserters[p])
    ensures t.inserters[p].mine in t.heap && t.inserters[p].mine !in t.born
  {
    assert InserterOk(t, t.inserters[p]);
  }

  predicate Publishing(t: Table, p: nat)
    requires |t.buckets| > 0 && p < |t.inserters|
  {
    var x := t.inserters[p];
    x.Swapping? && t.buckets[Home(t, x.id)] == x.head
  }

  // Until its exchange succeeds an insert changes nothing but a private node.
  lemma InsertFrames(t: Table, p: nat, id: nat, now: nat, spot: Addr)
    requires NodesOk(t) && InsertersOk(t) && p < |t.inserters| && !Publishing(t, p)
    ensures Frame(t, InsertStep(t, p, id, now, spot))
  {
    hide InsertersOk, InBucket;
    if Busy(t.inserters[p]) {
      MineIsPrivate(t, p);
    }
  }

  lemma FrameEvolves(t: Table, t': Table)
    requires NodesOk(t) && NodesOk(t') && Frame(t, t')
    ensures Evolves(t, t')
  {
    hide LiveIn;
  }

  lemma PublishEvolves(t: Table, t': Table, m: Addr)
    requires NodesOk(t) && NodesOk(t') && |t'.buckets| == |t.buckets|
    requires m !in t.born && t'.heap == t.heap && t'.born == t.born[m := |t.log|] && t'.live == t.live + {m}
    requires t.log <= t'.log
    ensures Evolves(t, t')
  {
    hide LiveIn;
  }

  lemma InsertEvolves(t: Table, p: nat, id: nat, now: nat, spot: Addr)
    requires NodesOk(t) && InsertersOk(t) && p < |t.inserters|
    requires NodesOk(InsertStep(t, p, id, now, spot))
    ensures Evolves(t, InsertStep(t, p, id, now, spot))
  {
    hide InsertersOk, InBucket, Evolves, Frame;
    if Publishing(t, p) {
      MineIsPrivate(t, p);
      PublishEvolves(t, InsertStep(t, p, id, now, spot), t.inserters[p].mine);
    } else {
      hide InsertStep;
      InsertFrames(t, p, id, now, spot);
      FrameEvolves(t, InsertStep(t, p, id, now, spot));
    }
  }

  lemma UnlinkEvolves(t: Table, t': Table, at: Addr)
    requires NodesOk(t) && NodesOk(t') && |t'.buckets| == |t.buckets| && at in t.heap
    requires t'.born == t.born && t'.live == t.live - {at}
    requires |t'.log| == |t.log| + 1 && t'.log == t.log + [t'.log[|t.log|]]
    requires t'.log[|t.log|].Removed? && t'.log[|t.log|].id == t.heap[at].id
    requires forall a :: a in t.born ==> t'.heap[a].id == t.heap[a].id && LinkFollows(t, t', a)
    ensures Evolves(t, t')
  {
    hide LinkFollows;
    LiveAppend(t.log, t'.log[|t.log|], t.heap[at].id);
    hide LiveIn;
  }

  // Until it takes a node out the cleaner changes nothing but its own place.
  lemma CleanFrames(t: Table, b: nat, now: nat)
    requires CleanStep(t, b, now).log == t.log
    ensures CleanStep(t, b, now) == t.(cleaner := CleanStep(t, b, now).cleaner)
  {
    hide Expired;
  }

  lemma CleanRemoves(t: Table, b: nat, now: nat)
    requires NodesOk(t) && CleanerOk(t) && CleanStep(t, b, now).log != t.log
    ensures t.cleaner.HeadSwap? || t.cleaner.Unlinking?
    ensures var at, t' := t.cleaner.at, CleanStep(t, b, now);
            && at in t.heap && |t'.buckets| == |t.buckets| && t'.born == t.born && t'.live == t.live - {at}
            && |t'.log| == |t.log| + 1 && t'.log == t.log + [t'.log[|t.log|]]
            && at in t.live && t'.log[|t.log|] == Removed(t.heap[at].id, t.heap[at].stamp, t.cleaner.now)
    ensures var t' := CleanStep(t, b, now);
            forall a :: a in t.born ==>
              a in t'.heap && t'.heap[a].id == t.heap[a].id && t'.heap[a].stamp == t.heap[a].stamp &&
              LinkFollows(t, t', a)
  {
    hide Expired;
  }

  lemma CleanEvolves(t: Table, b: nat, now: nat)
    requires NodesOk(t) && CleanerOk(t) && NodesOk(CleanStep(t, b, now))
    ensures Evolves(t, CleanStep(t, b, now))
  {
    hide LiveIn, Evolves, LinkFollows, CleanerOk, CleanStep;
    var t' := CleanStep(t, b, now);
    if t'.log == t.log {
      CleanFrames(t, b, now);
      FrameEvolves(t, t');
    } else {
      CleanRemoves(t, b, now);
      UnlinkEvolves(t, t', t.cleaner.at);
    }
  }

  lemma StepEvolves(t: Table, m: Move)
    requires Inv(t)
    ensures Evolves(t, Step(t, m))
  {
    hide LinksOk, HeadOk, LiveIn, InsertersOk, CleanerOk, InsertStep, CleanStep;
    StepKeepsInv(t, m);
    match m
    case Insert(p, id, now, spot) =>
      if p < |t.inserters| {
        InsertEvolves(t, p, id, now, spot);
      }
    case Read(_, _) =>
    case Clean(b, now) => CleanEvolves(t, b, now);
  }

  lemma MissedStays(log: seq<Change>, log': seq<Change>, since: nat, id: nat)
    requires Missed(log, since, id) && log <= log'
    ensures Missed(log', since, id)
  {
    var k :| since <= k <= |log| && !LiveIn(log[..k], id);
    assert log'[..k] == log[..k];
  }

  lemma SeenStays(t: Table, t': Table, seen: set<Addr>, since: nat)
    requires Evolves(t, t') && SeenOk(t, seen, since)
    ensures SeenOk(t', seen, since)
  {
    hide LiveIn, NodesOk;
    assert t'.log[..since] == t.log[..since];
    forall x | x in seen && t'.heap[x].next.Some? ensures t'.heap[x].next.value in seen {
      assert LinkFollows(t, t', x);
    }
  }

  lemma AheadStays(t: Table, t': Table, id: nat, curr: Option<Addr>, since: nat)
    requires Evolves(t, t') && Ahead(t, id, curr) && since <= |t.log|
    ensures Missed(t'.log, since, id) || Ahead(t', id, curr)
  {
    hide LiveIn;
    var y :| y in t.live && t.heap[y].id == id && Below(t, y, curr);
    if y in t'.live {
      assert Below(t', y, curr);
    } else {
      assert t'.log[..|t'.log|] == t'.log;
    }
  }

  lemma ReaderStays(t: Table, t': Table, x: Reader)
    requires Evolves(t, t') && ReaderOk(t, x)
    ensures ReaderOk(t', x)
  {
    hide LiveIn, Missed, Ahead, SeenOk;
    match x
    case Away =>
    case Walking(i, curr, since, seen) =>
      SeenStays(t, t', seen, since);
      SeenBounds(t, seen, since);
      if Missed(t.log, since, i) {
        MissedStays(t.log, t'.log, since, i);
      } else {
        AheadStays(t, t', i, curr, since);
      }
    case Answered(i, found, since, end) =>
      assert t'.log[..since] == t.log[..since] && t'.log[..end] == t.log[..end];
  }

  lemma SeenBounds(t: Table, seen: set<Addr>, since: nat)
    requires NodesOk(t) && SeenOk(t, seen, since)
    ensures since <= |t.log| && forall a :: a in seen ==> a in t.born
  {}

  // The load of the head: what has the id is in the bucket, so at or below its head.
  lemma LookIsOk(t: Table, id: nat)
    requires Inv(t)
    ensures var b := Home(t, id);
            ReaderOk(t, Walking(id, t.buckets[b], |t.log|, InBucket(t, b)))
  {
    hide InsertersOk, CleanerOk, LogOk, LiveIn, SeenOk, LinksOk;
    var b := Home(t, id);
    SeenAtLoad(t, b);
    assert HeadOk(t, b);
    assert t.log[..|t.log|] == t.log;
    if LiveIn(t.log, id) {
      var y :| y in t.live && t.heap[y].id == id;
      assert Below(t, y, t.buckets[b]);
    }
  }

  // One node further, past one with another id.
  lemma WalkIsOk(t: Table, id: nat, c: Addr, since: nat, seen: set<Addr>)
    requires ChainsOk(t) && ReaderOk(t, Walking(id, Some(c), since, seen))
    requires t.heap[c].id != id
    ensures ReaderOk(t, Walking(id, t.heap[c].next, since, seen))
  {
    hide HeadOk, LiveIn, Missed;
    assert LeadsDown(t, c);
    if !Missed(t.log, since, id) {
      var y :| y in t.live && t.heap[y].id == id && Below(t, y, Some(c));
      assert SkipsNone(t, c, y);
      assert Below(t, y, t.heap[c].next);
    }
  }

  lemma AnswerIsOk(t: Table, id: nat, curr: Option<Addr>, since: nat, seen: set<Addr>)
    requires NodesOk(t) && ReaderOk(t, Walking(id, curr, since, seen))
    requires curr.Some? ==> t.heap[curr.value].id == id
    ensures ReaderOk(t, Answered(id, curr.Some?, since, |t.log|))
  {
    hide LiveIn;
    assert t.log[..|t.log|] == t.log;
  }

  lemma ReadKeepsReader(t: Table, q: nat, id: nat)
    requires Inv(t) && q < |t.readers| && ReaderOk(t, t.readers[q])
    ensures ReaderOk(t, ReadStep(t, q, id).readers[q])
  {
    hide InsertersOk, CleanerOk, LogOk, LiveIn, LinksOk, HeadOk, SeenOk, Missed, Ahead, Agrees;
    match t.readers[q]
    case Away => LookIsOk(t, id);
    case Walking(i, curr, since, seen) =>
      SeenBounds(t, seen, since);
      if curr.Some? && t.heap[curr.value].id != i {
        WalkIsOk(t, i, curr.value, since, seen);
      } else {
        AnswerIsOk(t, i, curr, since, seen);
      }
    case Answered(_, _, _, _) =>
  }

  lemma StepKeepsReaders(t: Table, m: Move)
    requires Inv(t) && AllReaders(t)
    ensures AllReaders(Step(t, m))
  {
    hide ReaderOk, InsertStep, CleanStep, ReadStep, Inv, Evolves;
    var t' := Step(t, m);
    StepEvolves(t, m);
    ThreadsStay(t, m);
    EvolvesNodes(t, t');
    forall q | 0 <= q < |t'.readers| ensures ReaderOk(t', t'.readers[q]) {
      if m.Read? && m.q == q {
        ReadKeepsReader(t, q, m.id);
      }
      ReaderStays(t, t', if m.Read? && m.q == q then t'.readers[q] else t.readers[q]);
    }
  }

  lemma EvolvesNodes(t: Table, t': Table)
    requires Evolves(t, t')
    ensures NodesOk(t) && NodesOk(t')
  {}

  // ---------------------------------------------------------------- whole runs

  ghost predicate AnswersOk(t: Table) {
    Inv(t) && AllLosses(t) && AllReaders(t)
  }

  lemma {:induction false} RunKeepsAnswers(t: Table, schedule: seq<Move>)
    requires AnswersOk(t) && |t.buckets| > 0
    ensures AnswersOk(Run(t, schedule))
    decreases |schedule|
  {
    if schedule != [] {
      hide Inv, AllLosses, AllReaders, Step;
      var t' := Step(t, schedule[0]);
      StepKeepsInv(t, schedule[0]);
      StepKeepsLosses(t, schedule[0]);
      StepKeepsReaders(t, schedule[0]);
      BucketsStay(t');
      RunKeepsAnswers(t', schedule[1..]);
    }
  }

  lemma ReachedAnswers(buckets: nat, threads: nat, readers: nat, schedule: seq<Move>)
    requires buckets > 0
    ensures AnswersOk(Reached(buckets, threads, readers, schedule))
  {
    InitInv(buckets, threads, readers);
    RunKeepsAnswers(Init(buckets, threads, readers), schedule);
  }

  /**
    What a false answer of insert means. "Duplicate": the id was in the table at a moment of the
    call, the load of the bucket head. Giving up: between the start of the call and its last
    exchange at least three changes were made to the very bucket of the id.
   */
  lemma FalseIsHonest(buckets: nat, threads: nat, readers: nat, schedule: seq<Move>, p: nat)
    requires buckets > 0
    requires p < |Reached(buckets, threads, readers, schedule).inserters|
    requires Reached(buckets, threads, readers, schedule).inserters[p].Returned?
    ensures var t := Reached(buckets, threads, readers, schedule);
            var x := t.inserters[p];
            && x.start <= x.since <= x.end <= |t.log|
            && (x.verdict.Duplicate? ==> LiveIn(t.log[..x.since], x.id))
            && (x.verdict.GaveUp? ==>
                  |t.buckets| > 0 && Changes(t.log, x.start, x.end, Home(t, x.id), |t.buckets|) >= 3)
  {
    hide Run, Init;
    ReachedAnswers(buckets, threads, readers, schedule);
    var t := Reached(buckets, threads, readers, schedule);
    assert InserterOk(t, t.inserters[p]) && Losses(t, t.inserters[p]);
  }

  /**
    An exchange fails exactly when the head is not the one loaded, which takes a change of the
    bucket since the load; and the call gives up exactly at its third failure.
   */
  lemma GivesUpIff(t: Table, p: nat, id: nat, now: nat, spot: Addr)
    requires AnswersOk(t) && p < |t.inserters| && t.inserters[p].Swapping?
    ensures var x := t.inserters[p];
            var b, t' := Home(t, x.id), InsertStep(t, p, id, now, spot);
            var y := t'.inserters[p];
            && (y.Returned? && y.verdict.New? <==> t.buckets[b] == x.head)
            && (y.Returned? && y.verdict.GaveUp? <==> t.buckets[b] != x.head && x.retries == 2)
            && (t.buckets[b] != x.head ==>
                  && x.since <= |t.log| && Changes(t.log, x.since, |t.log|, b, |t.buckets|) >= 1
                  && t'.log == t.log
                  && (y.Loading? ==> y.retries == x.retries + 1))
  {
    assert Losses(t, t.inserters[p]);
  }

  /**
    is_duplicate while others insert and clean up: "true" means the id was in the table when the
    head was loaded, "false" that it was out of the table at some moment of the call.
   */
  lemma ReaderIsHonest(buckets: nat, threads: nat, readers: nat, schedule: seq<Move>, q: nat)
    requires buckets > 0
    requires q < |Reached(buckets, threads, readers, schedule).readers|
    requires Reached(buckets, threads, readers, schedule).readers[q].Answered?
    ensures var t := Reached(buckets, threads, readers, schedule);
            var x := t.readers[q];
            && x.since <= x.end <= |t.log|
            && (x.found ==> LiveIn(t.log[..x.since], x.id))
            && (!x.found ==> exists k :: x.since <= k <= x.end && !LiveIn(t.log[..k], x.id))
  {
    hide Run, Init;
    ReachedAnswers(buckets, threads, readers, schedule);
    var t := Reached(buckets, threads, readers, schedule);
    var x := t.readers[q];
    assert ReaderOk(t, x);
    if !x.found {
      var k :| x.since <= k <= |t.log[..x.end]| && !LiveIn(t.log[..x.end][..k], x.id);
      assert t.log[..x.end][..k] == t.log[..k];
    }
  }

  // ---------------------------------------------------------------- a run that gives up

  function Times(m: Move, n: nat): seq<Move> {
    if n == 0 then [] else [m] + Times(m, n - 1)
  }

  function Again(t: Table, m: Move, n: nat): (t': Table)
    requires |t.buckets| > 0
    ensures |t'.buckets| > 0
    decreases n
  {
    if n == 0 then t else Again(Step(t, m), m, n - 1)
  }

  lemma RunMore(t: Table, m: Move, more: seq<Move>)
    requires |t.buckets| > 0
    ensures |Step(t, m).buckets| > 0 && Run(t, [m] + more) == Run(Step(t, m), more)
  {
    hide Step;
    BucketCount(t, m);
    assert ([m] + more)[1..] == more;
  }

  lemma {:induction false} RunTimes(t: Table, m: Move, n: nat, rest: seq<Move>)
    requires |t.buckets| > 0
    ensures Run(t, Times(m, n) + rest) == Run(Again(t, m, n), rest)
    decreases n
  {
    hide Step;
    if n == 0 {
      assert Times(m, 0) + rest == rest;
    } else {
      var more := Times(m, n - 1) + rest;
      BucketCount(t, m);
      RunTimes(Step(t, m), m, n - 1, rest);
      assert Times(m, n) + rest == [m] + more;
      RunMore(t, m, more);
    }
  }

  lemma BucketCount(t: Table, m: Move)
    requires |t.buckets| > 0
    ensures |Step(t, m).buckets| == |t.buckets|
  {
    ThreadsStay(t, m);
  }

  // One bucket, thread 0 inserting id 1 with node 0, and everybody else at rest.
  ghost predicate Alone(t: Table, x: Inserter, head: Option<Addr>, log: seq<Change>) {
    && t.buckets == [head] && |t.inserters| == 2 && t.inserters[0] == x && t.inserters[1].Idle?
    && t.cleaner.Resting? && t.log == log
    && 0 in t.heap && t.heap[0].id == 1
    && (head.Some? ==> head.value in t.heap && head.value != 0 && t.heap[head.value] == Entry(2, 0, None))
  }

  const VICTIM: Move := Insert(0, 1, 0, 0)
  const SWEEPER: Move := Clean(0, WINDOW_MS + 1)

  function Rival(spot: Addr): Move {
    Insert(1, 2, 0, spot)
  }

  // The victim gets as far as its exchange: past an empty bucket, and past one other node.
  lemma TriesEmpty(t: Table, r: nat, log: seq<Change>)
    requires Alone(t, Loading(1, 0, 0, r, 0), None, log)
    ensures var t' := Again(t, VICTIM, 3);
            Alone(t', Swapping(1, 0, 0, r, 0, None, |log|), None, log) && t'.heap.Keys == t.heap.Keys
  {
    hide InBucket;
    var t1 := Step(t, VICTIM);
    var t2 := Step(t1, VICTIM);
    assert Again(t, VICTIM, 3) == Again(t1, VICTIM, 2) == Again(t2, VICTIM, 1) == Step(t2, VICTIM);
  }

  lemma TriesOne(t: Table, r: nat, at: Addr, log: seq<Change>)
    requires Alone(t, Loading(1, 0, 0, r, 0), Some(at), log)
    ensures var t' := Again(t, VICTIM, 4);
            Alone(t', Swapping(1, 0, 0, r, 0, Some(at), |log|), Some(at), log) && t'.heap.Keys == t.heap.Keys
  {
    hide InBucket;
    var t1 := Step(t, VICTIM);
    var t2 := Step(t1, VICTIM);
    var t3 := Step(t2, VICTIM);
    assert Again(t, VICTIM, 4) == Again(t1, VICTIM, 3) == Again(t2, VICTIM, 2);
    assert Again(t2, VICTIM, 2) == Again(t3, VICTIM, 1) == Step(t3, VICTIM);
  }

  // Another thread inserts id 2 into the empty bucket.
  lemma RivalInserts(t: Table, x: Inserter, spot: Addr, log: seq<Change>)
    requires Alone(t, x, None, log) && spot !in t.heap && spot != 0
    ensures var t' := Again(t, Rival(spot), 6);
            Alone(t', x, Some(spot), log + [Inserted(2, 0)]) && t'.heap.Keys == t.heap.Keys + {spot}
  {
    hide InBucket;
    var m := Rival(spot);
    var t1 := Step(t, m);
    var t2 := Step(t1, m);
    var t3 := Step(t2, m);
    var t4 := Step(t3, m);
    var t5 := Step(t4, m);
    assert t4.inserters[1] == Swapping(2, 0, spot, 0, |log|, None, |log|);
    assert Again(t, m, 6) == Again(t1, m, 5) == Again(t2, m, 4) == Again(t3, m, 3);
    assert Again(t3, m, 3) == Again(t4, m, 2) == Again(t5, m, 1) == Step(t5, m);
  }

  // The cleaner takes it out again, long after.
  lemma SweeperRemoves(t: Table, x: Inserter, at: Addr, log: seq<Change>)
    requires Alone(t, x, Some(at), log)
    ensures var t' := Again(t, SWEEPER, 4);
            Alone(t', x, None, log + [Removed(2, 0, WINDOW_MS + 1)]) && t'.heap.Keys == t.heap.Keys
  {
    var t1 := Step(t, SWEEPER);
    var t2 := Step(t1, SWEEPER);
    var t3 := Step(t2, SWEEPER);
    assert t2.cleaner == HeadSwap(0, WINDOW_MS + 1, at, None, 0);
    assert Again(t, SWEEPER, 4) == Again(t1, SWEEPER, 3) == Again(t2, SWEEPER, 2) == Again(t3, SWEEPER, 1);
    assert Again(t3, SWEEPER, 1) == Step(t3, SWEEPER);
  }

  // The victim's exchange finds another head.
  lemma VictimLoses(t: Table, r: nat, seen: Option<Addr>, since: nat, head: Option<Addr>, log: seq<Change>)
    requires Alone(t, Swapping(1, 0, 0, r, 0, seen, since), head, log) && seen != head
    ensures var t' := Again(t, VICTIM, 1);
            Alone(t', Beaten(r, since, |log|), head, log) && t'.heap.Keys == t.heap.Keys
  {
    assert Again(t, VICTIM, 1) == Step(t, VICTIM);
  }

  function Beaten(r: nat, since: nat, end: nat): Inserter {
    if r + 1 < MAX_RETRIES then Loading(1, 0, 0, r + 1, 0) else Returned(1, 0, GaveUp, 0, since, end)
  }

  function RoundEmpty(t: Table, spot: Addr): (t': Table)
    requires |t.buckets| > 0
    ensures |t'.buckets| > 0
  {
    Again(Again(Again(t, VICTIM, 3), Rival(spot), 6), VICTIM, 1)
  }

  function RoundOne(t: Table): (t': Table)
    requires |t.buckets| > 0
    ensures |t'.buckets| > 0
  {
    Again(Again(Again(t, VICTIM, 4), SWEEPER, 4), VICTIM, 1)
  }

  lemma LosesToRival(t: Table, r: nat, spot: Addr, log: seq<Change>)
    requires |t.buckets| > 0 && Alone(t, Loading(1, 0, 0, r, 0), None, log) && spot !in t.heap && spot != 0
    ensures var t' := RoundEmpty(t, spot);
            && Alone(t', Beaten(r, |log|, |log| + 1), Some(spot), log + [Inserted(2, 0)])
            && t'.heap.Keys == t.heap.Keys + {spot}
  {
    hide Alone, Again;
    TriesEmpty(t, r, log);
    var x := Swapping(1, 0, 0, r, 0, None, |log|);
    RivalInserts(Again(t, VICTIM, 3), x, spot, log);
    VictimLoses(Again(Again(t, VICTIM, 3), Rival(spot), 6), r, None, |log|, Some(spot), log + [Inserted(2, 0)]);
  }

  lemma LosesToSweeper(t: Table, r: nat, at: Addr, log: seq<Change>)
    requires |t.buckets| > 0 && Alone(t, Loading(1, 0, 0, r, 0), Some(at), log)
    ensures var t' := RoundOne(t);
            && Alone(t', Beaten(r, |log|, |log| + 1), None, log + [Removed(2, 0, WINDOW_MS + 1)])
            && t'.heap.Keys == t.heap.Keys
  {
    hide Alone, Again;
    TriesOne(t, r, at, log);
    var x := Swapping(1, 0, 0, r, 0, Some(at), |log|);
    SweeperRemoves(Again(t, VICTIM, 4), x, at, log);
    VictimLoses(Again(Again(t, VICTIM, 4), SWEEPER, 4), r, Some(at), |log|, None,
                log + [Removed(2, 0, WINDOW_MS + 1)]);
  }

  function UnluckyRun(): seq<Move> {
    Times(VICTIM, 1)
    + (Times(VICTIM, 3) + (Times(Rival(1), 6) + (Times(VICTIM, 1)
    + (Times(VICTIM, 4) + (Times(SWEEPER, 4) + (Times(VICTIM, 1)
    + (Times(VICTIM, 3) + (Times(Rival(2), 6) + (Times(VICTIM, 1) + [])))))))))
  }

  // The victim has called insert.
  lemma VictimCalls()
    ensures var t := Again(Init(1, 2, 0), VICTIM, 1);
            Alone(t, Loading(1, 0, 0, 0, 0), None, []) && t.heap.Keys == {0}
  {
    var t0 := Init(1, 2, 0);
    assert Again(t0, VICTIM, 1) == Step(t0, VICTIM);
  }

  /** It does happen: an insert gives up on an id that was never in the table at all. */
  lemma GivesUpOnNewId()
    ensures var t := Reached(1, 2, 0, UnluckyRun());
            && |t.inserters| == 2 && t.inserters[0] == Returned(1, 0, GaveUp, 0, 2, 3)
            && (forall i :: 0 <= i < |t.log| ==> t.log[i].id != 1)
            && (forall k :: 0 <= k <= |t.log| ==> !LiveIn(t.log[..k], 1))
  {
    hide Alone, Again, Run, UnluckyRun, Init, RoundEmpty, RoundOne, LiveIn;
    var log1: seq<Change> := [] + [Inserted(2, 0)];
    var log2 := log1 + [Removed(2, 0, WINDOW_MS + 1)];
    var log3 := log2 + [Inserted(2, 0)];
    var t1 := Again(Init(1, 2, 0), VICTIM, 1);
    var t2 := RoundEmpty(t1, 1);
    var t3 := RoundOne(t2);
    var t4 := RoundEmpty(t3, 2);
    VictimCalls();
    LosesToRival(t1, 0, 1, []);
    LosesToSweeper(t2, 1, 1, log1);
    LosesToRival(t3, 2, 2, log2);
    AloneHas(t4, Returned(1, 0, GaveUp, 0, 2, 3), Some(2), log3);
    UnluckyEnds(Init(1, 2, 0));
    NeverLive(log3, 1);
  }

  lemma AloneHas(t: Table, x: Inserter, head: Option<Addr>, log: seq<Change>)
    requires Alone(t, x, head, log)
    ensures |t.inserters| == 2 && t.inserters[0] == x && t.log == log
  {}

  lemma UnluckyEnds(t0: Table)
    requires |t0.buckets| > 0
    ensures Run(t0, UnluckyRun()) == RoundEmpty(RoundOne(RoundEmpty(Again(t0, VICTIM, 1), 1)), 2)
  {
    hide Again, Times;
    var w7 := Times(VICTIM, 3) + (Times(Rival(2), 6) + (Times(VICTIM, 1) + []));
    var w4 := Times(VICTIM, 4) + (Times(SWEEPER, 4) + (Times(VICTIM, 1) + w7));
    var w1 := Times(VICTIM, 3) + (Times(Rival(1), 6) + (Times(VICTIM, 1) + w4));
    var t1 := Again(t0, VICTIM, 1);
    RunTimes(t0, VICTIM, 1, w1);
    RunThree(t1, VICTIM, 3, Rival(1), 6, VICTIM, 1, w4);
    RunThree(RoundEmpty(t1, 1), VICTIM, 4, SWEEPER, 4, VICTIM, 1, w7);
    RunThree(RoundOne(RoundEmpty(t1, 1)), VICTIM, 3, Rival(2), 6, VICTIM, 1, []);
  }

  lemma RunThree(t: Table, a: Move, i: nat, b: Move, j: nat, c: Move, k: nat, rest: seq<Move>)
    requires |t.buckets| > 0
    ensures Run(t, Times(a, i) + (Times(b, j) + (Times(c, k) + rest))) ==
              Run(Again(Again(Again(t, a, i), b, j), c, k), rest)
  {
    hide Run, Again, Times;
    RunTimes(t, a, i, Times(b, j) + (Times(c, k) + rest));
    RunTimes(Again(t, a, i), b, j, Times(c, k) + rest);
    RunTimes(Again(Again(t, a, i), b, j), c, k, rest);
  }

  lemma {:induction false} NeverLive(log: seq<Change>, id: nat)
    requires forall i :: 0 <= i < |log| ==> log[i].id != id
    ensures forall k :: 0 <= k <= |log| ==> !LiveIn(log[..k], id)
  {
    if log == [] {
      assert log[..0] == [];
    } else {
      var front := log[..|log| - 1];
      NeverLive(front, id);
      forall k | 0 <= k <= |log| ensures !LiveIn(log[..k], id) {
        if k < |log| {
          assert log[..k] == front[..k];
        } else {
          assert log[..k] == log && front[..|front|] == front;
        }
      }
    }
  }
}
