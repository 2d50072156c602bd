/**
  TransactionalProcessor over time: which calls of process store their event, given the
  duplicate table, its periodic cleanup and a clock that may do anything.
 */
module TransactionSteps {
  import opened Bytes
  import opened Events
  import opened DedupSteps

  const CLEANUP_INTERVAL_MS: nat := 10000

  /** One call of process: the clock it reads, and what the handler of the topic answers. */
  datatype Call = Call(event: Event, now: nat, valid: bool, rules: bool, attempts: nat -> HandleOutcome)

  datatype Fate = Paused | Duplicate | Invalid | Exhausted | Stored

  datatype Record = Record(event: Event, now: nat, swept: bool, fate: Fate)

  datatype Processor = Processor(
    table: map<nat, nat>, lastCleanup: nat, paused: bool, maxRetries: int,
    stored: seq<Event>, dead: seq<Event>,
    log: seq<Record>)              // history: one record per call

  /** The unsigned difference, past zero when the clock stepped back. */
  function Elapsed(now: nat, last: nat): int {
    (now - last) % WORD
  }

  predicate SweepDue(last: nat, now: nat) {
    last == 0 || Elapsed(now, last) > CLEANUP_INTERVAL_MS
  }

  predicate Succeeded(o: HandleOutcome) {
    o == SUCCESS || o == ALERT
  }

  ghost predicate Handled(c: Call, maxRetries: int) {
    exists attempt: nat :: 1 <= attempt <= maxRetries && Succeeded(c.attempts(attempt))
  }

  function Drop(s: Processor, c: Call, swept: bool, fate: Fate): Processor {
    s.(dead := s.dead + [c.event], log := s.log + [Record(c.event, c.now, swept, fate)])
  }

  function Sweep(s: Processor, now: nat): Processor {
    if SweepDue(s.lastCleanup, now) then s.(lastCleanup := now, table := Unexpired(s.table, now)) else s
  }

  ghost function Process(s: Processor, c: Call): Processor {
    var id, swept, t := c.event.id, SweepDue(s.lastCleanup, c.now), Sweep(s, c.now);
    if s.paused then Drop(s, c, false, Paused)
    else if id in s.table then s.(log := s.log + [Record(c.event, c.now, false, Fate.Duplicate)])
    else if !c.valid || !c.rules then Drop(t, c, swept, Invalid)
    else if Handled(c, s.maxRetries) then
      t.(table := if id in t.table then t.table else t.table[id := c.now],
         stored := s.stored + [c.event], log := s.log + [Record(c.event, c.now, swept, Stored)])
    else Drop(t, c, swept, Exhausted)
  }

  datatype Move = Submit(call: Call) | Pause | Resume | SetMaxRetries(n: int)

  ghost function Step(s: Processor, m: Move): Processor {
    match m
    case Submit(c) => Process(s, c)
    case Pause => s.(paused := true)
    case Resume => s.(paused := false)
    case SetMaxRetries(n) => s.(maxRetries := n)
  }

  ghost function Run(s: Processor, schedule: seq<Move>): Processor
    decreases |schedule|
  {
    if schedule == [] then s else Run(Step(s, schedule[0]), schedule[1..])
  }

  function Init(): Processor {
    Processor(map[], 0, false, 3, [], [], [])
  }

  // ---------------------------------------------------------------- the table and the history

  /** A cleanup after call i, at a time when its entry had expired. */
  ghost predicate Ended(log: seq<Record>, i: nat)
    requires i < |log|
  {
    exists k :: i < k < |log| && log[k].swept && Expired(log[k].now, log[i].now)
  }

  predicate IsStore(log: seq<Record>, i: nat) {
    i < |log| && log[i].fate == Stored
  }

  // The table knows every store that no cleanup has ended.
  ghost predicate Remembers(s: Processor) {
    forall i: nat :: IsStore(s.log, i) && !Ended(s.log, i) ==>
      s.log[i].event.id in s.table && s.table[s.log[i].event.id] == s.log[i].now
  }

  ghost predicate Known(s: Processor, id: nat) {
    exists i: nat :: IsStore(s.log, i) && s.log[i].event.id == id && !Ended(s.log, i)
  }

  // The table knows nothing else.
  ghost predicate Honest(s: Processor) {
    forall id :: id in s.table ==> Known(s, id)
  }

  ghost predicate Between(log: seq<Record>, i: nat, j: nat) {
    i < j < |log| && exists k :: i < k < j && log[k].swept && log[k].now > log[i].now + WINDOW_MS
  }

  ghost predicate Apart(log: seq<Record>) {
    forall i: nat, j: nat :: IsStore(log, i) && IsStore(log, j) && i < j && log[i].event.id == log[j].event.id ==>
      Between(log, i, j)
  }

  ghost predicate Inv(s: Processor) {
    Remembers(s) && Honest(s) && Apart(s.log)
  }

  // One more record ends exactly the stores its cleanup, if any, finds expired.
  lemma EndedGrows(log: seq<Record>, x: Record, i: nat)
    requires i < |log|
    ensures Ended(log + [x], i) <==> Ended(log, i) || (x.swept && Expired(x.now, log[i].now))
  {
    var log' := log + [x];
    if Ended(log, i) {
      var k :| i < k < |log| && log[k].swept && Expired(log[k].now, log[i].now);
      assert log'[k].swept;
    }
    if x.swept && Expired(x.now, log[i].now) {
      assert log'[|log|].swept;
    }
  }

  lemma EndedIsBetween(log: seq<Record>, x: Record, i: nat)
    requires i < |log| && Ended(log, i)
    ensures Between(log + [x], i, |log|)
  {
    var k :| i < k < |log| && log[k].swept && Expired(log[k].now, log[i].now);
    assert (log + [x])[k].swept;
  }

  lemma BetweenGrows(log: seq<Record>, x: Record, i: nat, j: nat)
    requires Between(log, i, j)
    ensures Between(log + [x], i, j)
  {
    var k :| i < k < j && log[k].swept && log[k].now > log[i].now + WINDOW_MS;
    assert (log + [x])[k].swept;
  }

  // The log after one call: a store only of an id the table did not hold.
  lemma ApartGrows(s: Processor, x: Record)
    requires Remembers(s) && Apart(s.log)
    requires x.fate == Stored ==> x.event.id !in s.table
    ensures Apart(s.log + [x])
  {
    var log' := s.log + [x];
    forall i: nat, j: nat | IsStore(log', i) && IsStore(log', j) && i < j && log'[i].event.id == log'[j].event.id
      ensures Between(log', i, j)
    {
      assert IsStore(s.log, i);
      if j < |s.log| {
        assert IsStore(s.log, j);
        BetweenGrows(s.log, x, i, j);
      } else {
        EndedIsBetween(s.log, x, i);
      }
    }
  }

  // How one call changes the table, given whether it swept and whether it stored.
  ghost predicate TableChange(s: Processor, x: Record, table: map<nat, nat>) {
    var swept := if x.swept then Unexpired(s.table, x.now) else s.table;
    if x.fate == Stored then x.event.id !in s.table && table == swept[x.event.id := x.now] else table == swept
  }

  lemma RemembersGrows(s: Processor, x: Record, s': Processor)
    requires Remembers(s) && s'.log == s.log + [x] && TableChange(s, x, s'.table)
    ensures Remembers(s')
  {
    forall i: nat | IsStore(s'.log, i) && !Ended(s'.log, i)
      ensures s'.log[i].event.id in s'.table && s'.table[s'.log[i].event.id] == s'.log[i].now
    {
      if i < |s.log| {
        assert IsStore(s.log, i);
        EndedGrows(s.log, x, i);
      }
    }
  }

  lemma HonestGrows(s: Processor, x: Record, s': Processor)
    requires Remembers(s) && Honest(s) && s'.log == s.log + [x] && TableChange(s, x, s'.table)
    ensures Honest(s')
  {
    forall id | id in s'.table ensures Known(s', id) {
      if x.fate == Stored && id == x.event.id {
        assert IsStore(s'.log, |s.log|) && !Ended(s'.log, |s.log|);
      } else {
        assert Known(s, id);
        var i: nat :| IsStore(s.log, i) && s.log[i].event.id == id && !Ended(s.log, i);
        EndedGrows(s.log, x, i);
        assert IsStore(s'.log, i);
      }
    }
  }

  lemma ProcessKeepsInv(s: Processor, c: Call)
    requires Inv(s)
    ensures Inv(Process(s, c))
  {
    hide Handled, Apart, Remembers, Honest;
    var s' := Process(s, c);
    var x := s'.log[|s.log|];
    assert s'.log == s.log + [x];
    assert TableChange(s, x, s'.table);
    ApartGrows(s, x);
    RemembersGrows(s, x, s');
    HonestGrows(s, x, s');
  }

  lemma SwitchKeepsInv(s: Processor, s': Processor)
    requires Inv(s) && s'.table == s.table && s'.log == s.log
    ensures Inv(s')
  {
    assert forall id :: Known(s, id) ==> Known(s', id);
  }

  lemma {:induction false} RunKeepsInv(s: Processor, schedule: seq<Move>)
    requires Inv(s)
    ensures Inv(Run(s, schedule))
    decreases |schedule|
  {
    if schedule != [] {
      hide Inv, Process;
      match schedule[0] {
        case Submit(c) => ProcessKeepsInv(s, c);
        case _ => SwitchKeepsInv(s, Step(s, schedule[0]));
      }
      RunKeepsInv(Step(s, schedule[0]), schedule[1..]);
    }
  }

  // ---------------------------------------------------------------- the theorems

  /**
    Between two stores of one id some other call swept the table at a time more than the window
    after the first store, whatever the clock does.
   */
  lemma StoresAreApart(schedule: seq<Move>, i: nat, j: nat)
    requires var log := Run(Init(), schedule).log;
             i < j && IsStore(log, i) && IsStore(log, j) && log[i].event.id == log[j].event.id
    ensures var log := Run(Init(), schedule).log;
            exists k :: i < k < j && log[k].swept && log[k].now > log[i].now + 3600000
  {
    RunKeepsInv(Init(), schedule);
    assert Between(Run(Init(), schedule).log, i, j);
  }

  /**
    A call stores its event exactly when the processor runs, no earlier store of the id is still
    in force, the event passes both checks and one of the attempts allowed succeeds.
   */
  lemma StoredIff(schedule: seq<Move>, c: Call)
    ensures var s := Run(Init(), schedule);
            var s' := Process(s, c);
            s'.log[|s.log|].fate == Stored <==>
              !s.paused && !Known(s, c.event.id) && c.valid && c.rules && Handled(c, s.maxRetries)
  {
    RunKeepsInv(Init(), schedule);
    var s := Run(Init(), schedule);
    assert Known(s, c.event.id) <==> c.event.id in s.table;
  }

  function WithFate(log: seq<Record>, fates: set<Fate>): seq<Event> {
    if log == [] then []
    else
      var x := log[|log| - 1];
      WithFate(log[..|log| - 1], fates) + if x.fate in fates then [x.event] else []
  }

  lemma WithFateGrows(log: seq<Record>, x: Record, fates: set<Fate>)
    ensures WithFate(log + [x], fates) == WithFate(log, fates) + if x.fate in fates then [x.event] else []
  {
    assert (log + [x])[..|log|] == log;
  }

  /** The storage and the dead letters hold the events of the calls with the fates that go there. */
  ghost predicate Sorted(s: Processor) {
    s.stored == WithFate(s.log, {Stored}) && s.dead == WithFate(s.log, {Paused, Invalid, Exhausted})
  }

  // One call adds one record, and its event where the record's fate says.
  lemma ProcessRecords(s: Processor, c: Call) returns (x: Record)
    ensures var s' := Process(s, c);
            && s'.log == s.log + [x]
            && s'.stored == s.stored + (if x.fate == Stored then [x.event] else [])
            && s'.dead == s.dead + (if x.fate == Stored || x.fate == Fate.Duplicate then [] else [x.event])
  {
    hide Handled, SweepDue, Unexpired;
    x := Process(s, c).log[|s.log|];
  }

  lemma StepSorts(s: Processor, m: Move)
    requires Sorted(s)
    ensures Sorted(Step(s, m))
  {
    hide Process, WithFate;
    match m
    case Submit(c) =>
      var x := ProcessRecords(s, c);
      WithFateGrows(s.log, x, {Stored});
      WithFateGrows(s.log, x, {Paused, Invalid, Exhausted});
    case _ =>
  }

  /** Every call's event is stored once, dead-lettered once or, as a duplicate, dropped in silence. */
  lemma {:induction false} EveryCallSorted(s: Processor, schedule: seq<Move>)
    requires Sorted(s)
    ensures Sorted(Run(s, schedule))
    decreases |schedule|
  {
    if schedule != [] {
      hide Sorted, Step;
      StepSorts(s, schedule[0]);
      EveryCallSorted(Step(s, schedule[0]), schedule[1..]);
    }
  }

  /**
    Duplicates never trigger a cleanup: while only known ids arrive, all of them are turned away
    however far the clock has gone past the window.
   */
  lemma {:induction false} DuplicatesKeepOut(s: Processor, calls: seq<Move>)
    requires !s.paused
    requires forall i :: 0 <= i < |calls| ==> calls[i].Submit? && calls[i].call.event.id in s.table
    ensures var s' := Run(s, calls);
            s'.table == s.table && s'.stored == s.stored && s'.dead == s.dead && !s'.paused
    decreases |calls|
  {
    if calls != [] {
      hide Handled;
      DuplicatesKeepOut(Step(s, calls[0]), calls[1..]);
    }
  }

  // A call with an event that passes everything at once.
  function FineCall(e: Event, now: nat): Call {
    Call(e, now, true, true, attempt => SUCCESS)
  }

  /**
    It does happen: an event stored at any time, and then one with its id at any later time, the
    window long past. The second finds its id in the table, expired as it is, and is refused.
   */
  lemma ExpiredIdRefused(first: Event, start: nat, second: Event, now: nat)
    requires second.id == first.id && now > start + WINDOW_MS
    ensures var s := Run(Init(), [Submit(FineCall(first, start)), Submit(FineCall(second, now))]);
            && s.log == [Record(first, start, true, Stored), Record(second, now, false, Fate.Duplicate)]
            && s.stored == [first] && s.dead == []
            && second.id in s.table && Expired(now, s.table[second.id])
  {
    var c, d := FineCall(first, start), FineCall(second, now);
    assert 1 <= 1 <= 3 && Succeeded(c.attempts(1));
    assert Handled(c, 3);
    var s1 := Process(Init(), c);
    assert s1.log == [Record(first, start, true, Stored)] && s1.table == map[first.id := start];
    assert [Submit(c), Submit(d)][1..] == [Submit(d)] && [Submit(d)][1..] == [];
    assert Run(Init(), [Submit(c), Submit(d)]) == Run(s1, [Submit(d)]) == Run(Process(s1, d), []);
  }

  // ---------------------------------------------------------------- outcomes, sweeps and switches

  /** Some attempt the processor is allowed to make succeeds or alerts. */
  lemma HandledIff(c: Call, maxRetries: int)
    ensures Handled(c, maxRetries) <==>
              exists k: nat :: 1 <= k <= maxRetries && c.attempts(k) in {SUCCESS, ALERT}
  {
    if Handled(c, maxRetries) {
      var k: nat :| 1 <= k <= maxRetries && Succeeded(c.attempts(k));
      assert c.attempts(k) in {SUCCESS, ALERT};
    }
    if k: nat :| 1 <= k <= maxRetries && c.attempts(k) in {SUCCESS, ALERT} {
      assert Succeeded(c.attempts(k));
    }
  }

  /**
    After any run, with the processor not paused, an id no store of which is in force, and both
    checks passed: the event is stored if and only if one of the attempts answers SUCCESS or ALERT,
    and dead-lettered if and only if all of them answer FAIL or DROP.
   */
  lemma OutcomeDecides(schedule: seq<Move>, c: Call)
    ensures var s := Run(Init(), schedule);
            var s' := Process(s, c);
            !s.paused && !Known(s, c.event.id) && c.valid && c.rules ==>
              && (s'.stored == s.stored + [c.event] <==>
                    exists k: nat :: 1 <= k <= s.maxRetries && c.attempts(k) in {SUCCESS, ALERT})
              && (s'.dead == s.dead + [c.event] <==>
                    forall k: nat :: 1 <= k <= s.maxRetries ==> c.attempts(k) in {FAIL, DROP})
  {
    RunKeepsInv(Init(), schedule);
    var s := Run(Init(), schedule);
    HandledIff(c, s.maxRetries);
    hide Handled, Run, SweepDue, Unexpired;
    assert Known(s, c.event.id) <==> c.event.id in s.table;
    Longer(s.stored, c.event);
    Longer(s.dead, c.event);
  }

  lemma Longer<T>(q: seq<T>, x: T)
    ensures q + [x] != q
  {
    assert |q + [x]| == |q| + 1;
  }

  /** Whatever else stops a call: paused or failed checks dead-letter the event, a known id drops it. */
  lemma OthersAreNotStored(schedule: seq<Move>, c: Call)
    ensures var s := Run(Init(), schedule);
            var s' := Process(s, c);
            && (s.paused || (!Known(s, c.event.id) && !(c.valid && c.rules)) ==>
                  s'.stored == s.stored && s'.dead == s.dead + [c.event])
            && (!s.paused && Known(s, c.event.id) ==>
                  s'.stored == s.stored && s'.dead == s.dead && s'.table == s.table && s'.lastCleanup == s.lastCleanup)
  {
    RunKeepsInv(Init(), schedule);
    var s := Run(Init(), schedule);
    hide Handled, Run, SweepDue, Unexpired;
    assert Known(s, c.event.id) <==> c.event.id in s.table;
  }

  /** The time of the last cleanup the calls have made; zero if there was none. */
  function LastSweep(log: seq<Record>): nat {
    if log == [] then 0
    else
      var x := log[|log| - 1];
      if x.swept then x.now else LastSweep(log[..|log| - 1])
  }

  lemma {:induction false} RunKeepsLastSweep(s: Processor, schedule: seq<Move>)
    requires s.lastCleanup == LastSweep(s.log)
    ensures Run(s, schedule).lastCleanup == LastSweep(Run(s, schedule).log)
    decreases |schedule|
  {
    if schedule != [] {
      StepKeepsLastSweep(s, schedule[0]);
      hide Step, LastSweep;
      RunKeepsLastSweep(Step(s, schedule[0]), schedule[1..]);
    }
  }

  lemma StepKeepsLastSweep(s: Processor, m: Move)
    requires s.lastCleanup == LastSweep(s.log)
    ensures Step(s, m).lastCleanup == LastSweep(Step(s, m).log)
  {
    hide Handled, SweepDue, Unexpired;
    if m.Submit? {
      var log' := Process(s, m.call).log;
      assert log'[..|s.log|] == s.log && |log'| == |s.log| + 1;
    }
  }

  /**
    A call cleans up exactly when it gets past the pause and the duplicate check and no cleanup was
    made before, or the last one more than ten seconds ago by the unsigned difference of the clocks.
   */
  lemma SweptIff(schedule: seq<Move>, c: Call)
    ensures var s := Run(Init(), schedule);
            var x := Process(s, c).log[|s.log|];
            var last := LastSweep(s.log);
            && x.event == c.event && x.now == c.now
            && (x.swept <==>
                  && x.fate != Paused && x.fate != Fate.Duplicate
                  && (last == 0 || (c.now - last) % 0x1_0000_0000_0000_0000 > 10000))
  {
    hide Handled, Unexpired, Run, LastSweep;
    InitSweep();
    RunKeepsLastSweep(Init(), schedule);
  }

  lemma InitSweep()
    ensures Init().lastCleanup == LastSweep(Init().log)
  {}

  /** A paused processor takes nothing, a resumed one goes on, and nothing else changes. */
  lemma PauseAndResume(s: Processor, c: Call)
    ensures var s' := Run(s, [Pause, Submit(c)]);
            s'.stored == s.stored && s'.table == s.table && s'.dead == s.dead + [c.event]
    ensures Run(s, [Pause, Resume]) == s.(paused := false)
    ensures Run(s, [SetMaxRetries(0), Resume]) == s.(maxRetries := 0, paused := false)
  {
    assert [Pause, Submit(c)][1..] == [Submit(c)] && [Submit(c)][1..] == [];
    assert [Pause, Resume][1..] == [Resume] && [Resume][1..] == [];
    assert [SetMaxRetries(0), Resume][1..] == [Resume];
    var s1 := Step(s, Pause);
    assert Run(s, [Pause, Submit(c)]) == Run(s1, [Submit(c)]) == Run(Process(s1, c), []);
    assert Run(s, [Pause, Resume]) == Run(s1, [Resume]) == Run(Step(s1, Resume), []);
    var s2 := Step(s, SetMaxRetries(0));
    assert Run(s, [SetMaxRetries(0), Resume]) == Run(s2, [Resume]) == Run(Step(s2, Resume), []);
  }

  /** A new processor makes three attempts: a handler that succeeds at the fourth is too late. */
  lemma ThreeAttempts(e: Event, now: nat)
    ensures var late := Call(e, now, true, true, (k: nat) => if k <= 3 then FAIL else SUCCESS);
            Process(Init(), late).stored == [] && Process(Init(), late).dead == [e]
    ensures var third := Call(e, now, true, true, (k: nat) => if k <= 2 then FAIL else ALERT);
            Process(Init(), third).stored == [e] && Process(Init(), third).dead == []
  {
    var late := Call(e, now, true, true, (k: nat) => if k <= 3 then FAIL else SUCCESS);
    var third := Call(e, now, true, true, (k: nat) => if k <= 2 then FAIL else ALERT);
    assert Succeeded(third.attempts(3));
    assert Handled(third, 3) && !Handled(late, 3);
  }

  // ---------------------------------------------------------------- how old the table can get

  /** The system clock counts in 63 bits. */
  const CLOCK: nat := 0x8000_0000_0000_0000

  ghost predicate Clocked(schedule: seq<Move>) {
    forall i :: 0 <= i < |schedule| && schedule[i].Submit? ==> schedule[i].call.now < CLOCK
  }

  ghost predicate Young(s: Processor) {
    s.lastCleanup < CLOCK && forall id :: id in s.table ==> !Expired(s.lastCleanup, s.table[id])
  }

  // A clock that stepped back makes the unsigned difference huge, so it brings a cleanup forward.
  lemma SweepCatchesUp(s: Processor, now: nat)
    requires s.lastCleanup < CLOCK && now < CLOCK
    ensures var last := Sweep(s, now).lastCleanup; last <= now <= last + CLEANUP_INTERVAL_MS
  {
    var d := now - s.lastCleanup;
    if d < 0 {
      assert d % WORD == d + WORD;
    }
  }

  lemma ProcessKeepsYoung(s: Processor, c: Call)
    requires Young(s) && c.now < CLOCK
    ensures Young(Process(s, c))
  {
    hide Handled, SweepDue;
    SweepCatchesUp(s, c.now);
  }

  lemma {:induction false} RunKeepsYoung(s: Processor, schedule: seq<Move>)
    requires Young(s) && Clocked(schedule)
    ensures Young(Run(s, schedule))
    decreases |schedule|
  {
    if schedule != [] {
      hide Young, Process;
      match schedule[0] {
        case Submit(c) => ProcessKeepsYoung(s, c);
        case _ => YoungAs(s, Step(s, schedule[0]));
      }
      assert Clocked(schedule[1..]);
      RunKeepsYoung(Step(s, schedule[0]), schedule[1..]);
    }
  }

  lemma YoungAs(s: Processor, s': Processor)
    requires Young(s) && s'.table == s.table && s'.lastCleanup == s.lastCleanup
    ensures Young(s')
  {}

  /**
    Whatever the clock did before, a call that gets past the duplicate check leaves no id in the
    table whose time is more than the window and one cleanup interval behind that call.
   */
  lemma TableStaysYoung(schedule: seq<Move>, c: Call)
    requires Clocked(schedule) && c.now < CLOCK
    ensures var s := Run(Init(), schedule);
            var s' := Process(s, c);
            s'.log[|s.log|].fate in {Stored, Invalid, Exhausted} ==>
              forall id :: id in s'.table ==> s'.table[id] + 3600000 + 10000 >= c.now
  {
    hide Run, Handled, SweepDue;
    RunKeepsYoung(Init(), schedule);
    var s := Run(Init(), schedule);
    SweepCatchesUp(s, c.now);
    ProcessKeepsYoung(s, c);
  }
}
