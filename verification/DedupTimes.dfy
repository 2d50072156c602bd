/**
  What the duplicate table promises over time: which insert an entry's time comes from, and how
  far apart in time two inserts of one id are that both returned true.
 */
module DedupTimes {
  import opened Wrappers
  import opened DedupSteps
  import opened DedupAnswers

  /** The time of the insert that put the id in the table, if the log leaves it there. */
  function StampIn(log: seq<Change>, id: nat): Option<nat>
    decreases |log|
  {
    if log == [] then None
    else
      var last := log[|log| - 1];
      if last.id != id then StampIn(log[..|log| - 1], id)
      else if last.Inserted? then Some(last.stamp) else None
  }

  lemma StampAppend(log: seq<Change>, c: Change, id: nat)
    ensures StampIn(log + [c], id) ==
              if c.id != id then StampIn(log, id) else if c.Inserted? then Some(c.stamp) else None
  {
    assert (log + [c])[..|log|] == log;
  }

  lemma {:induction false} StampIsLive(log: seq<Change>, id: nat)
    ensures StampIn(log, id).Some? <==> LiveIn(log, id)
    decreases |log|
  {
    if log != [] {
      StampIsLive(log[..|log| - 1], id);
    }
  }

  ghost predicate RemovalOk(log: seq<Change>, k: nat)
    requires k < |log|
  {
    log[k].Removed? ==> StampIn(log[..k], log[k].id) == Some(log[k].stamp)
  }

  /** An entry carries the time its insert was called with, and so does the record of its removal. */
  ghost predicate Timed(t: Table) {
    && NodesOk(t)
    && (forall y :: y in t.live ==> StampIn(t.log, t.heap[y].id) == Some(t.heap[y].stamp))
    && (forall k :: 0 <= k < |t.log| ==> RemovalOk(t.log, k))
  }

  lemma RemovalsAppend(log: seq<Change>, c: Change)
    requires forall k :: 0 <= k < |log| ==> RemovalOk(log, k)
    requires c.Removed? ==> StampIn(log, c.id) == Some(c.stamp)
    ensures forall k :: 0 <= k < |log + [c]| ==> RemovalOk(log + [c], k)
  {
    hide StampIn;
    forall k | 0 <= k < |log + [c]| ensures RemovalOk(log + [c], k) {
      if k < |log| {
        assert RemovalOk(log, k) && (log + [c])[..k] == log[..k];
      } else {
        assert (log + [c])[..k] == log;
      }
    }
  }

  lemma QuietIsTimed(t: Table, t': Table)
    requires Timed(t) && NodesOk(t') && Frame(t, t')
    ensures Timed(t')
  {
    hide StampIn;
  }

  lemma PublishIsTimed(t: Table, t': Table, m: Addr, b: nat)
    requires Timed(t) && NodesOk(t') && Publishes(t, t', m, b)
    ensures Timed(t')
  {
    hide StampIn, ChainsOk, RemovalOk;
    var c := Inserted(t.heap[m].id, t.heap[m].stamp);
    RemovalsAppend(t.log, c);
    forall y | y in t'.live ensures StampIn(t'.log, t'.heap[y].id) == Some(t'.heap[y].stamp) {
      StampAppend(t.log, c, t.heap[y].id);
    }
  }

  lemma RemoveIsTimed(t: Table, t': Table, at: Addr, now: nat)
    requires Timed(t) && NodesOk(t') && ChainsOk(t) && at in t.live
    requires t'.live == t.live - {at} && t'.log == t.log + [Removed(t.heap[at].id, t.heap[at].stamp, now)]
    requires forall a :: a in t.born ==>
               a in t'.heap && t'.heap[a].id == t.heap[a].id && t'.heap[a].stamp == t.heap[a].stamp
    ensures Timed(t')
  {
    hide StampIn, LinksOk, HeadOk, RemovalOk;
    var c := Removed(t.heap[at].id, t.heap[at].stamp, now);
    RemovalsAppend(t.log, c);
    forall y | y in t'.live ensures StampIn(t'.log, t'.heap[y].id) == Some(t'.heap[y].stamp) {
      StampAppend(t.log, c, t.heap[y].id);
    }
  }

  lemma StepKeepsTimed(t: Table, m: Move)
    requires Inv(t) && Timed(t)
    ensures Timed(Step(t, m))
  {
    hide Timed, ChainsOk, InsertersOk, CleanerOk, LogOk, LiveIn, Agrees, InsertStep, CleanStep, Frame, Publishes;
    BucketsStay(t);
    var t' := Step(t, m);
    StepKeepsInv(t, m);
    ChainsHaveNodes(t);
    ChainsHaveNodes(t');
    match m
    case Insert(p, id, now, spot) =>
      if p >= |t.inserters| {
      } else if Publishing(t, p) {
        SwapPublishes(t, p, id, now, spot);
        PublishIsTimed(t, t', t.inserters[p].mine, Home(t, t.inserters[p].id));
      } else {
        InsertFrames(t, p, id, now, spot);
        QuietIsTimed(t, t');
      }
    case Read(_, _) =>
      SameFrame(t, t');
      QuietIsTimed(t, t');
    case Clean(b, now) =>
      if t'.log == t.log {
        CleanFrames(t, b, now);
        SameFrame(t, t');
        QuietIsTimed(t, t');
      } else {
        CleanRemoves(t, b, now);
        RemoveIsTimed(t, t', t.cleaner.at, t.cleaner.now);
      }
  }

  lemma SameFrame(t: Table, t': Table)
    requires t' == t.(cleaner := t'.cleaner, readers := t'.readers)
    ensures Frame(t, t')
  {}

  lemma {:induction false} RunKeepsTimed(t: Table, schedule: seq<Move>)
    requires Inv(t) && Timed(t) && |t.buckets| > 0
    ensures Inv(Run(t, schedule)) && Timed(Run(t, schedule))
    decreases |schedule|
  {
    if schedule != [] {
      hide Inv, Timed, Step;
      StepKeepsInv(t, schedule[0]);
      StepKeepsTimed(t, schedule[0]);
      BucketsStay(Step(t, schedule[0]));
      RunKeepsTimed(Step(t, schedule[0]), schedule[1..]);
    }
  }

  /** The time a call was made with stays with it until it returns. */
  lemma CallKeepsTime(t: Table, p: nat, id: nat, now: nat, spot: Addr)
    requires |t.buckets| > 0 && p < |t.inserters|
    ensures var x, y := t.inserters[p], InsertStep(t, p, id, now, spot).inserters[p];
            && (x.Idle? && !y.Idle? ==> y.id == id && y.now == now)
            && (!x.Idle? && !y.Idle? ==> y.id == x.id && y.now == x.now)
            && (x.Idle? ==> (y.Idle? <==> spot in t.heap))
            && (x.Returned? <==> !x.Idle? && y.Idle?)
  {
    hide InBucket;
  }

  // The first change of the id after it was inserted.
  lemma {:induction false} FirstChange(log: seq<Change>, id: nat, i: nat, j: nat) returns (k: nat)
    requires i < j < |log| && log[j].id == id
    ensures i < k <= j && log[k].id == id && forall m :: i < m < k ==> log[m].id != id
    decreases j
  {
    if m :| i < m < j && log[m].id == id {
      k := FirstChange(log, id, i, m);
    } else {
      k := j;
    }
  }

  lemma {:induction false} StampStays(log: seq<Change>, i: nat, k: nat)
    requires i < k <= |log| && log[i].Inserted? && forall m :: i < m < k ==> log[m].id != log[i].id
    ensures StampIn(log[..k], log[i].id) == Some(log[i].stamp)
    decreases k
  {
    assert log[..k][..k - 1] == log[..k - 1];
    if k > i + 1 {
      StampStays(log, i, k - 1);
    }
  }

  /**
    Between two inserts of an id that returned true the cleaner removed it, at a time more than an
    hour after the time the first of them was called with.
   */
  lemma OneTrueInsertPerWindow(buckets: nat, threads: nat, readers: nat, schedule: seq<Move>, i: nat, j: nat)
    requires buckets > 0
    requires var log := Reached(buckets, threads, readers, schedule).log;
             i < j < |log| && log[i].Inserted? && log[j].Inserted? && log[i].id == log[j].id
    ensures var log := Reached(buckets, threads, readers, schedule).log;
            exists k :: i < k < j && log[k].Removed? && log[k].id == log[i].id && log[k].now > log[i].stamp + 3600000
  {
    hide Run, Init, StampIn, LiveIn;
    InitInv(buckets, threads, readers);
    InitTimed(buckets, threads, readers);
    RunKeepsTimed(Init(buckets, threads, readers), schedule);
    var log := Reached(buckets, threads, readers, schedule).log;
    var id := log[i].id;
    var k := FirstChange(log, id, i, j);
    StampStays(log, i, k);
    StampIsLive(log[..k], id);
    assert ChangeOk(log, k) && RemovalOk(log, k);
  }

  lemma InitTimed(buckets: nat, threads: nat, readers: nat)
    requires buckets > 0
    ensures Timed(Init(buckets, threads, readers))
  {}

  /** The removal itself: of an id that is in the table, with the time of its insert, after an hour. */
  lemma RemovalsAreDue(buckets: nat, threads: nat, readers: nat, schedule: seq<Move>, k: nat)
    requires buckets > 0
    requires k < |Reached(buckets, threads, readers, schedule).log|
    ensures var log := Reached(buckets, threads, readers, schedule).log;
            log[k].Removed? ==>
              && StampIn(log[..k], log[k].id) == Some(log[k].stamp)
              && log[k].now > log[k].stamp + 3600000
  {
    hide Run, Init, StampIn, LiveIn;
    InitInv(buckets, threads, readers);
    InitTimed(buckets, threads, readers);
    RunKeepsTimed(Init(buckets, threads, readers), schedule);
    var log := Reached(buckets, threads, readers, schedule).log;
    assert ChangeOk(log, k) && RemovalOk(log, k);
  }
}
