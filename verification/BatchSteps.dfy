/**
  BatchProcessor on values: buckets by topic, flushed when their window is over, on request and
  at stop. Storage is taken to succeed, and a handler to answer by the event alone.
 */
module BatchSteps {
  import opened Bytes
  import opened Events

  type Topic = seq<byte>
  type Handler = Event -> HandleOutcome

  datatype Bucket = Bucket(events: seq<Event>, lastFlush: int)

  /** Where an event left the processor: refused at the door, or at the flush of its bucket. */
  datatype Exit = Dropping | Refused | Failed | Processed

  datatype Emission = Emission(event: Event, exit: Exit)

  /** One call of process: was the processor dropping, and did the event pass both checks? */
  datatype Submission = Submission(event: Event, dropping: bool, passed: bool)

  /** `synced` is how many of the events handed to storage its last flush has covered. */
  datatype Batcher = Batcher(
    buckets: map<Topic, Bucket>, window: int, dropping: bool, stored: seq<Event>, synced: nat, dead: seq<Event>,
    // history: the calls of process, events put into a bucket, and every event that left
    submitted: seq<Submission>, admitted: seq<Event>, emitted: seq<Emission>)

  function Emit(s: Batcher, e: Event, exit: Exit): Batcher {
    var t := s.(emitted := s.emitted + [Emission(e, exit)]);
    if exit == Processed then t.(stored := s.stored + [e]) else t.(dead := s.dead + [e])
  }

  function ExitOf(h: Handler, e: Event): Exit {
    if h(e) == FAIL || h(e) == DROP then Failed else Processed
  }

  function EmitAll(s: Batcher, h: Handler, events: seq<Event>): Batcher
    decreases |events|
  {
    if events == [] then s else EmitAll(Emit(s, events[0], ExitOf(h, events[0])), h, events[1..])
  }

  function Held(s: Batcher, t: Topic): seq<Event> {
    if t in s.buckets then s.buckets[t].events else []
  }

  function Sync(s: Batcher): Batcher {
    s.(synced := |s.stored|)
  }

  function FlushBucket(s: Batcher, h: Handler, t: Topic): Batcher {
    if Held(s, t) == [] then s
    else Sync(EmitAll(s, h, Held(s, t)).(buckets := s.buckets[t := s.buckets[t].(events := [])]))
  }

  function Admit(s: Batcher, e: Event): Batcher {
    var b := if e.topic in s.buckets then s.buckets[e.topic] else Bucket([], 0);
    s.(buckets := s.buckets[e.topic := b.(events := b.events + [e])], admitted := s.admitted + [e])
  }

  function SetFlushed(s: Batcher, t: Topic, now: int): Batcher {
    if t in s.buckets then s.(buckets := s.buckets[t := s.buckets[t].(lastFlush := now)]) else s
  }

  /** A flush time of zero counts as none: the first event of a topic only starts the window. */
  function Take(s: Batcher, h: Handler, e: Event, now: int, valid: bool, rules: bool): Batcher {
    if s.dropping then Emit(s, e, Dropping)
    else if !valid || !rules then Emit(s, e, Refused)
    else
      var t := Admit(s, e);
      var last := t.buckets[e.topic].lastFlush;
      if last == 0 then SetFlushed(t, e.topic, now)
      else if now - last >= s.window then SetFlushed(FlushBucket(t, h, e.topic), e.topic, now)
      else t
  }

  function Note(s: Batcher, e: Event, valid: bool, rules: bool): Batcher {
    s.(submitted := s.submitted + [Submission(e, s.dropping, valid && rules)])
  }

  function Process(s: Batcher, h: Handler, e: Event, now: int, valid: bool, rules: bool): Batcher {
    Take(Note(s, e, valid, rules), h, e, now, valid, rules)
  }

  function FlushEach(s: Batcher, h: Handler, order: seq<Topic>): Batcher
    decreases |order|
  {
    if order == [] then s else FlushEach(FlushBucket(s, h, order[0]), h, order[1..])
  }

  /** stop() meets the buckets in an order of its own, and then flushes the storage once more. */
  function Stop(s: Batcher, h: Handler, order: seq<Topic>): Batcher {
    Sync(FlushEach(s, h, order))
  }

  predicate Covers(s: Batcher, order: seq<Topic>) {
    forall t :: t in s.buckets ==> t in order
  }

  datatype Move =
    | Submit(event: Event, now: int, valid: bool, rules: bool)
    | Flush(topic: Topic)
    | StopAll(order: seq<Topic>)
    | SetDropping(on: bool)

  function Step(s: Batcher, h: Handler, m: Move): Batcher {
    match m
    case Submit(e, now, valid, rules) => Process(s, h, e, now, valid, rules)
    case Flush(t) => FlushBucket(s, h, t)
    case StopAll(order) => Stop(s, h, order)
    case SetDropping(on) => s.(dropping := on)
  }

  function Run(s: Batcher, h: Handler, schedule: seq<Move>): Batcher
    decreases |schedule|
  {
    if schedule == [] then s else Run(Step(s, h, schedule[0]), h, schedule[1..])
  }

  function Init(window: int): Batcher {
    Batcher(map[], window, false, [], 0, [], [], [], [])
  }

  // ---------------------------------------------------------------- reading the history

  function OfTopic(events: seq<Event>, t: Topic): seq<Event> {
    if events == [] then []
    else OfTopic(events[..|events| - 1], t) + if events[|events| - 1].topic == t then [events[|events| - 1]] else []
  }

  /** The events that went out through any of these exits, in order. */
  function Through(emitted: seq<Emission>, exits: set<Exit>): seq<Event> {
    if emitted == [] then []
    else
      var x := emitted[|emitted| - 1];
      Through(emitted[..|emitted| - 1], exits) + if x.exit in exits then [x.event] else []
  }

  /** The events delivered from buckets: stored, or failed by the handler. */
  function Delivered(s: Batcher): seq<Event> {
    Through(s.emitted, {Failed, Processed})
  }

  lemma OfTopicGrows(events: seq<Event>, e: Event, t: Topic)
    ensures OfTopic(events + [e], t) == OfTopic(events, t) + if e.topic == t then [e] else []
  {
    assert (events + [e])[..|events|] == events;
  }

  lemma ThroughGrows(emitted: seq<Emission>, x: Emission, exits: set<Exit>)
    ensures Through(emitted + [x], exits) == Through(emitted, exits) + if x.exit in exits then [x.event] else []
  {
    assert (emitted + [x])[..|emitted|] == emitted;
  }

  // ---------------------------------------------------------------- what every step keeps

  /** Topic t: what was delivered, followed by what is held, is what was admitted, in that order. */
  ghost predicate InOrder(s: Batcher, t: Topic) {
    OfTopic(Delivered(s), t) + Held(s, t) == OfTopic(s.admitted, t)
  }

  ghost predicate Housed(s: Batcher) {
    forall t, e :: t in s.buckets && e in s.buckets[t].events ==> e.topic == t
  }

  /** Storage got exactly what the handler passed, the dead letters all else that left. */
  ghost predicate Sorted(s: Batcher, h: Handler) {
    && s.stored == Through(s.emitted, {Processed})
    && s.dead == Through(s.emitted, {Dropping, Refused, Failed})
    && (forall i :: 0 <= i < |s.emitted| && s.emitted[i].exit in {Failed, Processed} ==>
          s.emitted[i].exit == ExitOf(h, s.emitted[i].event))
  }

  ghost predicate Inv(s: Batcher, h: Handler) {
    Housed(s) && Sorted(s, h) && forall t :: InOrder(s, t)
  }

  lemma EmitSorts(s: Batcher, h: Handler, e: Event, exit: Exit)
    requires Sorted(s, h) && (exit in {Failed, Processed} ==> exit == ExitOf(h, e))
    ensures Sorted(Emit(s, e, exit), h)
  {
    hide Through;
    ThroughGrows(s.emitted, Emission(e, exit), {Processed});
    ThroughGrows(s.emitted, Emission(e, exit), {Dropping, Refused, Failed});
  }

  lemma {:induction false} EmitAllSorts(s: Batcher, h: Handler, events: seq<Event>)
    requires Sorted(s, h)
    ensures Sorted(EmitAll(s, h, events), h)
    decreases |events|
  {
    if events != [] {
      hide Sorted;
      EmitSorts(s, h, events[0], ExitOf(h, events[0]));
      EmitAllSorts(Emit(s, events[0], ExitOf(h, events[0])), h, events[1..]);
    }
  }

  /** A flush delivers exactly the events given, in order, and touches nothing else. */
  lemma {:induction false} EmitAllDelivers(s: Batcher, h: Handler, events: seq<Event>)
    ensures var s' := EmitAll(s, h, events);
            && Delivered(s') == Delivered(s) + events
            && s'.buckets == s.buckets && s'.admitted == s.admitted && s'.window == s.window
            && s'.dropping == s.dropping && s'.submitted == s.submitted
    decreases |events|
  {
    if events != [] {
      hide Through;
      var x := Emission(events[0], ExitOf(h, events[0]));
      ThroughGrows(s.emitted, x, {Failed, Processed});
      EmitAllDelivers(Emit(s, events[0], x.exit), h, events[1..]);
      assert Delivered(s) + events == (Delivered(s) + [events[0]]) + events[1..];
    } else {
      assert Delivered(s) + [] == Delivered(s);
    }
  }

  lemma {:induction false} OfTopicConcat(x: seq<Event>, y: seq<Event>, t: Topic, u: Topic)
    requires forall i :: 0 <= i < |y| ==> y[i].topic == t
    ensures OfTopic(x + y, u) == OfTopic(x, u) + (if u == t then y else [])
    decreases |y|
  {
    hide OfTopic;
    if y == [] {
      assert x + y == x && OfTopic(x, u) + [] == OfTopic(x, u);
    } else {
      var front, e := y[..|y| - 1], y[|y| - 1];
      OfTopicConcat(x, front, t, u);
      assert y == front + [e] && x + y == (x + front) + [e];
      OfTopicGrows(x + front, e, u);
      assert OfTopic(x, u) + y == (OfTopic(x, u) + front) + [e];
      assert OfTopic(x, u) + [] == OfTopic(x, u);
    }
  }

  lemma FlushKeepsOrder(s: Batcher, h: Handler, t: Topic, u: Topic)
    requires Housed(s) && InOrder(s, u)
    ensures InOrder(FlushBucket(s, h, t), u)
  {
    hide OfTopic, Through;
    EmitAllDelivers(s, h, Held(s, t));
    OfTopicConcat(Delivered(s), Held(s, t), t, u);
    assert OfTopic(Delivered(s), u) + [] == OfTopic(Delivered(s), u);
  }

  lemma FlushKeepsInv(s: Batcher, h: Handler, t: Topic)
    requires Inv(s, h)
    ensures Inv(FlushBucket(s, h, t), h) && Held(FlushBucket(s, h, t), t) == []
    ensures forall u :: u != t ==> Held(FlushBucket(s, h, t), u) == Held(s, u)
    ensures FlushBucket(s, h, t).admitted == s.admitted
    ensures FlushBucket(s, h, t).buckets.Keys == s.buckets.Keys
  {
    hide InOrder, Sorted;
    EmitAllDelivers(s, h, Held(s, t));
    EmitAllSorts(s, h, Held(s, t));
    SortedAs(EmitAll(s, h, Held(s, t)), FlushBucket(s, h, t), h);
    forall u ensures InOrder(FlushBucket(s, h, t), u) {
      FlushKeepsOrder(s, h, t, u);
    }
  }

  lemma SortedAs(s: Batcher, s': Batcher, h: Handler)
    requires Sorted(s, h) && s'.emitted == s.emitted && s'.stored == s.stored && s'.dead == s.dead
    ensures Sorted(s', h)
  {}

  lemma AdmitKeepsOrder(s: Batcher, e: Event, u: Topic)
    requires InOrder(s, u)
    ensures InOrder(Admit(s, e), u)
  {
    hide OfTopic, Through;
    OfTopicGrows(s.admitted, e, u);
    if u == e.topic {
      assert Held(Admit(s, e), u) == Held(s, u) + [e];
    }
  }

  lemma AdmitKeepsInv(s: Batcher, h: Handler, e: Event)
    requires Inv(s, h)
    ensures Inv(Admit(s, e), h)
  {
    hide InOrder, Sorted;
    SortedAs(s, Admit(s, e), h);
    forall u ensures InOrder(Admit(s, e), u) {
      AdmitKeepsOrder(s, e, u);
    }
  }

  lemma EmitKeepsInv(s: Batcher, h: Handler, e: Event, exit: Exit)
    requires Inv(s, h) && exit in {Dropping, Refused}
    ensures Inv(Emit(s, e, exit), h)
  {
    hide Through, OfTopic, Sorted;
    EmitSorts(s, h, e, exit);
    ThroughGrows(s.emitted, Emission(e, exit), {Failed, Processed});
    assert Delivered(Emit(s, e, exit)) == Delivered(s);
    forall u ensures InOrder(Emit(s, e, exit), u) {
      assert InOrder(s, u);
    }
  }

  lemma SetFlushedKeepsInv(s: Batcher, h: Handler, t: Topic, now: int)
    requires Inv(s, h)
    ensures Inv(SetFlushed(s, t, now), h)
  {
    hide Sorted, OfTopic, Through;
    var s' := SetFlushed(s, t, now);
    SortedAs(s, s', h);
    forall u ensures InOrder(s', u) {
      assert InOrder(s, u) && Held(s', u) == Held(s, u);
    }
  }

  lemma NoteKeepsInv(s: Batcher, h: Handler, s': Batcher)
    requires Inv(s, h) && s' == s.(submitted := s'.submitted, synced := s'.synced, dropping := s'.dropping)
    ensures Inv(s', h)
  {
    hide Sorted, OfTopic, Through;
    SortedAs(s, s', h);
    forall u ensures InOrder(s', u) {
      assert InOrder(s, u);
    }
  }

  lemma TakeKeepsInv(s: Batcher, h: Handler, e: Event, now: int, valid: bool, rules: bool)
    requires Inv(s, h)
    ensures Inv(Take(s, h, e, now, valid, rules), h)
  {
    hide Inv, FlushBucket;
    if s.dropping {
      EmitKeepsInv(s, h, e, Dropping);
    } else if !valid || !rules {
      EmitKeepsInv(s, h, e, Refused);
    } else {
      var t := Admit(s, e);
      AdmitKeepsInv(s, h, e);
      FlushKeepsInv(t, h, e.topic);
      SetFlushedKeepsInv(t, h, e.topic, now);
      SetFlushedKeepsInv(FlushBucket(t, h, e.topic), h, e.topic, now);
    }
  }

  lemma {:induction false} FlushEachEmpties(s: Batcher, h: Handler, order: seq<Topic>)
    requires Inv(s, h)
    ensures var s' := FlushEach(s, h, order);
            && Inv(s', h) && s'.admitted == s.admitted && s'.buckets.Keys == s.buckets.Keys
            && (forall t :: Held(s', t) == if t in order then [] else Held(s, t))
    decreases |order|
  {
    if order != [] {
      hide Inv, FlushBucket, Held;
      FlushKeepsInv(s, h, order[0]);
      FlushEachEmpties(FlushBucket(s, h, order[0]), h, order[1..]);
    }
  }

  /** Whatever order stop() meets the buckets in, those it met are empty and nothing is lost. */
  lemma StopEmpties(s: Batcher, h: Handler, order: seq<Topic>)
    requires Inv(s, h)
    ensures var s' := Stop(s, h, order);
            && Inv(s', h) && s'.admitted == s.admitted && s'.buckets.Keys == s.buckets.Keys
            && (forall t :: Held(s', t) == if t in order then [] else Held(s, t))
  {
    hide Inv, FlushEach;
    FlushEachEmpties(s, h, order);
    NoteKeepsInv(FlushEach(s, h, order), h, Stop(s, h, order));
  }

  lemma {:induction false} RunKeepsInv(s: Batcher, h: Handler, schedule: seq<Move>)
    requires Inv(s, h)
    ensures Inv(Run(s, h, schedule), h)
    decreases |schedule|
  {
    if schedule != [] {
      StepKeepsInv(s, h, schedule[0]);
      hide Inv, Step;
      RunKeepsInv(Step(s, h, schedule[0]), h, schedule[1..]);
    }
  }

  lemma StepKeepsInv(s: Batcher, h: Handler, m: Move)
    requires Inv(s, h)
    ensures Inv(Step(s, h, m), h)
  {
    match m
    case Submit(e, now, valid, rules) =>
      hide Inv, Take;
      NoteKeepsInv(s, h, Note(s, e, valid, rules));
      TakeKeepsInv(Note(s, e, valid, rules), h, e, now, valid, rules);
    case Flush(t) =>
      hide Inv, FlushBucket;
      FlushKeepsInv(s, h, t);
    case StopAll(order) =>
      hide Inv, Stop;
      StopEmpties(s, h, order);
    case SetDropping(on) =>
      hide Inv;
      NoteKeepsInv(s, h, s.(dropping := on));
  }

  // ---------------------------------------------------------------- the theorems

  /**
    After any run: each topic's events were delivered or are still held in the order they were
    admitted, none lost or repeated, and each delivered one went where its handler sent it.
   */
  lemma BatchConservation(window: int, h: Handler, schedule: seq<Move>, t: Topic)
    ensures var s := Run(Init(window), h, schedule);
            && OfTopic(Delivered(s), t) + Held(s, t) == OfTopic(s.admitted, t)
            && s.stored == Through(s.emitted, {Processed})
            && s.dead == Through(s.emitted, {Dropping, Refused, Failed})
            && (forall i :: 0 <= i < |s.emitted| && s.emitted[i].exit in {Failed, Processed} ==>
                  s.emitted[i].exit == ExitOf(h, s.emitted[i].event))
  {
    InitInv(window, h);
    RunKeepsInv(Init(window), h, schedule);
    assert InOrder(Run(Init(window), h, schedule), t);
  }

  lemma InitInv(window: int, h: Handler)
    ensures Inv(Init(window), h)
  {
    forall t ensures InOrder(Init(window), t) {
      assert OfTopic([], t) == [];
    }
  }

  /** After stop nothing is left over: every topic's deliveries are all it admitted, in order. */
  lemma StopDeliversAll(window: int, h: Handler, schedule: seq<Move>, order: seq<Topic>, t: Topic)
    requires Covers(Run(Init(window), h, schedule), order)
    ensures var s := Stop(Run(Init(window), h, schedule), h, order);
            Held(s, t) == [] && OfTopic(Delivered(s), t) == OfTopic(s.admitted, t)
  {
    hide Stop;
    InitInv(window, h);
    RunKeepsInv(Init(window), h, schedule);
    StopEmpties(Run(Init(window), h, schedule), h, order);
    assert InOrder(Stop(Run(Init(window), h, schedule), h, order), t);
  }

  lemma {:induction false} FlushNothing(s: Batcher, h: Handler, order: seq<Topic>)
    requires forall t :: Held(s, t) == []
    ensures FlushEach(s, h, order) == s
    decreases |order|
  {
    if order != [] {
      FlushNothing(s, h, order[1..]);
    }
  }

  /** A second stop, in any order, changes and emits nothing. */
  lemma StopTwice(window: int, h: Handler, schedule: seq<Move>, order: seq<Topic>, again: seq<Topic>)
    requires Covers(Run(Init(window), h, schedule), order)
    ensures var s := Stop(Run(Init(window), h, schedule), h, order);
            Stop(s, h, again) == s
  {
    forall t ensures Held(Stop(Run(Init(window), h, schedule), h, order), t) == [] {
      StopDeliversAll(window, h, schedule, order, t);
    }
    FlushNothing(Stop(Run(Init(window), h, schedule), h, order), h, again);
  }

  /** An admitted event empties its bucket exactly when a window was open and is over, and then opens the next. */
  lemma FlushIff(s: Batcher, h: Handler, e: Event, now: int)
    requires Inv(s, h) && !s.dropping
    ensures var s' := Process(s, h, e, now, true, true);
            var last := if e.topic in s.buckets then s.buckets[e.topic].lastFlush else 0;
            && (Held(s', e.topic) == [] <==> last != 0 && now - last >= s.window)
            && (Held(s', e.topic) != [] ==> Held(s', e.topic) == Held(s, e.topic) + [e])
            && e.topic in s'.buckets
            && s'.buckets[e.topic].lastFlush == (if Held(s', e.topic) == [] || last == 0 then now else last)
            && (forall t :: t != e.topic ==> Held(s', t) == Held(s, t))
  {
    hide Inv;
    var t := Note(s, e, true, true);
    NoteKeepsInv(s, h, t);
    AdmitKeepsInv(t, h, e);
    hide FlushBucket;
    FlushKeepsInv(Admit(t, e), h, e.topic);
  }

  // ---------------------------------------------------------------- every submission accounted for

  datatype Way = ToBucket | WhileDropping | Unfit

  function WayOf(x: Submission): Way {
    if x.dropping then WhileDropping else if x.passed then ToBucket else Unfit
  }

  /** The events submitted that went this way, in order. */
  function Gone(submitted: seq<Submission>, way: Way): seq<Event> {
    if submitted == [] then []
    else
      var x := submitted[|submitted| - 1];
      Gone(submitted[..|submitted| - 1], way) + if WayOf(x) == way then [x.event] else []
  }

  lemma GoneGrows(submitted: seq<Submission>, x: Submission, way: Way)
    ensures Gone(submitted + [x], way) == Gone(submitted, way) + if WayOf(x) == way then [x.event] else []
  {
    assert (submitted + [x])[..|submitted|] == submitted;
  }

  ghost predicate Accounted(s: Batcher) {
    && s.admitted == Gone(s.submitted, ToBucket)
    && Through(s.emitted, {Dropping}) == Gone(s.submitted, WhileDropping)
    && Through(s.emitted, {Refused}) == Gone(s.submitted, Unfit)
    && s.synced == |s.stored|
  }

  lemma {:induction false} EmitAllAccounts(s: Batcher, h: Handler, events: seq<Event>)
    ensures var s' := EmitAll(s, h, events);
            && Through(s'.emitted, {Dropping}) == Through(s.emitted, {Dropping})
            && Through(s'.emitted, {Refused}) == Through(s.emitted, {Refused})
    decreases |events|
  {
    if events != [] {
      hide Through;
      var x := Emission(events[0], ExitOf(h, events[0]));
      ThroughGrows(s.emitted, x, {Dropping});
      ThroughGrows(s.emitted, x, {Refused});
      EmitAllAccounts(Emit(s, events[0], x.exit), h, events[1..]);
    }
  }

  // A flush emits nothing but what was admitted before, and syncs it.
  lemma FlushAccounts(s: Batcher, h: Handler, t: Topic)
    requires s.synced == |s.stored|
    ensures var s' := FlushBucket(s, h, t);
            && s'.admitted == s.admitted && s'.submitted == s.submitted && s'.synced == |s'.stored|
            && Through(s'.emitted, {Dropping}) == Through(s.emitted, {Dropping})
            && Through(s'.emitted, {Refused}) == Through(s.emitted, {Refused})
  {
    hide Through;
    EmitAllAccounts(s, h, Held(s, t));
    EmitAllDelivers(s, h, Held(s, t));
  }

  lemma FlushKeepsAccounts(s: Batcher, h: Handler, t: Topic)
    requires Accounted(s)
    ensures Accounted(FlushBucket(s, h, t))
  {
    hide FlushBucket, Through, Gone;
    FlushAccounts(s, h, t);
  }

  lemma {:induction false} FlushEachKeepsAccounts(s: Batcher, h: Handler, order: seq<Topic>)
    requires Accounted(s)
    ensures Accounted(FlushEach(s, h, order))
    decreases |order|
  {
    if order != [] {
      hide FlushBucket, Accounted;
      FlushKeepsAccounts(s, h, order[0]);
      FlushEachKeepsAccounts(FlushBucket(s, h, order[0]), h, order[1..]);
    }
  }

  lemma ProcessKeepsAccounts(s: Batcher, h: Handler, e: Event, now: int, valid: bool, rules: bool)
    requires Accounted(s)
    ensures Accounted(Process(s, h, e, now, valid, rules))
  {
    hide FlushBucket, Through, Gone;
    var x := Submission(e, s.dropping, valid && rules);
    GoneGrows(s.submitted, x, ToBucket);
    GoneGrows(s.submitted, x, WhileDropping);
    GoneGrows(s.submitted, x, Unfit);
    if WayOf(x) == ToBucket {
      FlushAccounts(Admit(Note(s, e, valid, rules), e), h, e.topic);
    } else {
      var exit := if s.dropping then Dropping else Refused;
      ThroughGrows(s.emitted, Emission(e, exit), {Dropping});
      ThroughGrows(s.emitted, Emission(e, exit), {Refused});
    }
  }

  lemma {:induction false} RunKeepsAccounts(s: Batcher, h: Handler, schedule: seq<Move>)
    requires Accounted(s)
    ensures Accounted(Run(s, h, schedule))
    decreases |schedule|
  {
    if schedule != [] {
      hide Accounted, Process, FlushBucket, FlushEach;
      match schedule[0] {
        case Submit(e, now, valid, rules) => ProcessKeepsAccounts(s, h, e, now, valid, rules);
        case Flush(t) => FlushKeepsAccounts(s, h, t);
        case StopAll(order) =>
          FlushEachKeepsAccounts(s, h, order);
          AccountedAs(FlushEach(s, h, order), Stop(s, h, order));
        case SetDropping(on) => AccountedAs(s, s.(dropping := on));
      }
      RunKeepsAccounts(Step(s, h, schedule[0]), h, schedule[1..]);
    }
  }

  lemma AccountedAs(s: Batcher, s': Batcher)
    requires Accounted(s) && (s' == Sync(s) || s' == s.(dropping := s'.dropping))
    ensures Accounted(s')
  {}

  lemma InitAccounted(window: int)
    ensures Accounted(Init(window))
  {}

  /**
    Every event submitted went one way, in order: to its bucket exactly when it passed both checks
    while nothing was being dropped, and otherwise out for the reason given. And after every call
    the storage has been flushed behind the last event it was handed.
   */
  lemma EverySubmissionAccounted(window: int, h: Handler, schedule: seq<Move>)
    ensures var s := Run(Init(window), h, schedule);
            && s.admitted == Gone(s.submitted, ToBucket)
            && Through(s.emitted, {Dropping}) == Gone(s.submitted, WhileDropping)
            && Through(s.emitted, {Refused}) == Gone(s.submitted, Unfit)
            && s.synced == |s.stored|
  {
    hide Run, Gone, Through;
    InitAccounted(window);
    RunKeepsAccounts(Init(window), h, schedule);
  }

  // ---------------------------------------------------------------- outcomes and drops

  /** The events among these for which the handler gives one of the outcomes, in order. */
  function Answered(h: Handler, events: seq<Event>, outcomes: set<HandleOutcome>): seq<Event> {
    if events == [] then []
    else
      var e := events[|events| - 1];
      Answered(h, events[..|events| - 1], outcomes) + if h(e) in outcomes then [e] else []
  }

  lemma AnsweredGrows(h: Handler, events: seq<Event>, e: Event, outcomes: set<HandleOutcome>)
    ensures Answered(h, events + [e], outcomes) == Answered(h, events, outcomes) + if h(e) in outcomes then [e] else []
  {
    assert (events + [e])[..|events|] == events;
  }

  ghost predicate ByAnswer(h: Handler, emitted: seq<Emission>) {
    var delivered := Through(emitted, {Failed, Processed});
    && Through(emitted, {Processed}) == Answered(h, delivered, {SUCCESS, ALERT})
    && Through(emitted, {Failed}) == Answered(h, delivered, {FAIL, DROP})
  }

  lemma OneMoreByAnswer(h: Handler, emitted: seq<Emission>, x: Emission)
    requires ByAnswer(h, emitted) && (x.exit in {Failed, Processed} ==> x.exit == ExitOf(h, x.event))
    ensures ByAnswer(h, emitted + [x])
  {
    hide Through, Answered;
    ThroughGrows(emitted, x, {Failed, Processed});
    ThroughGrows(emitted, x, {Processed});
    ThroughGrows(emitted, x, {Failed});
    var delivered := Through(emitted, {Failed, Processed});
    AnsweredGrows(h, delivered, x.event, {SUCCESS, ALERT});
    AnsweredGrows(h, delivered, x.event, {FAIL, DROP});
    assert delivered + [] == delivered;
  }

  lemma {:induction false} ExitsByAnswer(h: Handler, emitted: seq<Emission>)
    requires forall i :: 0 <= i < |emitted| && emitted[i].exit in {Failed, Processed} ==>
               emitted[i].exit == ExitOf(h, emitted[i].event)
    ensures ByAnswer(h, emitted)
  {
    if emitted != [] {
      hide ByAnswer, ExitOf;
      var last := |emitted| - 1;
      assert emitted == emitted[..last] + [emitted[last]];
      ExitsByAnswer(h, emitted[..last]);
      OneMoreByAnswer(h, emitted[..last], emitted[last]);
    }
  }

  /**
    Of the events delivered, storage holds in order those that the handler answered with SUCCESS
    or ALERT, and the dead letters hold those it answered with FAIL or DROP beside the events
    dropped or refused at the door.
   */
  lemma AnswersDecide(window: int, h: Handler, schedule: seq<Move>)
    ensures var s := Run(Init(window), h, schedule);
            && s.stored == Answered(h, Delivered(s), {SUCCESS, ALERT})
            && Through(s.emitted, {Failed}) == Answered(h, Delivered(s), {FAIL, DROP})
            && s.dead == Through(s.emitted, {Dropping, Refused, Failed})
  {
    hide Run, Answered, Through;
    InitInv(window, h);
    RunKeepsInv(Init(window), h, schedule);
    ExitsByAnswer(h, Run(Init(window), h, schedule).emitted);
  }

  /**
    Told to drop, the processor sends the next event to the dead letters whatever its checks say,
    and touches neither buckets nor storage; told to stop dropping it admits the next valid one.
   */
  lemma DropAndResume(s: Batcher, h: Handler, e: Event, now: int, valid: bool, rules: bool)
    ensures var d := Run(s, h, [SetDropping(true), Submit(e, now, valid, rules)]);
            && d.dead == s.dead + [e] && d.stored == s.stored && d.buckets == s.buckets && d.admitted == s.admitted
    ensures Run(s, h, [SetDropping(false), Submit(e, now, true, true)]).admitted == s.admitted + [e]
  {
    RunTwo(s, h, SetDropping(true), Submit(e, now, valid, rules));
    RunTwo(s, h, SetDropping(false), Submit(e, now, true, true));
    hide Run, FlushBucket;
    Admitting(s.(dropping := false), h, e, now);
  }

  /** A new processor is not dropping. */
  lemma StartsAdmitting(window: int, h: Handler, e: Event, now: int)
    ensures Run(Init(window), h, [Submit(e, now, true, true)]).admitted == [e]
  {
    RunOne(Init(window), h, Submit(e, now, true, true));
    hide Run, FlushBucket;
    Admitting(Init(window), h, e, now);
    assert [] + [e] == [e];
  }

  lemma Admitting(s: Batcher, h: Handler, e: Event, now: int)
    requires !s.dropping
    ensures Process(s, h, e, now, true, true).admitted == s.admitted + [e]
  {
    hide FlushBucket;
    FlushAdmitsNothing(Admit(Note(s, e, true, true), e), h, e.topic);
  }

  lemma FlushAdmitsNothing(s: Batcher, h: Handler, t: Topic)
    ensures FlushBucket(s, h, t).admitted == s.admitted
    ensures FlushBucket(s, h, t).buckets.Keys == s.buckets.Keys
  {
    EmitAllDelivers(s, h, Held(s, t));
  }

  lemma RunOne(s: Batcher, h: Handler, m: Move)
    ensures Run(s, h, [m]) == Step(s, h, m)
  {
    hide Step;
    assert [m][1..] == [];
  }

  lemma RunTwo(s: Batcher, h: Handler, m: Move, n: Move)
    ensures Run(s, h, [m, n]) == Step(Step(s, h, m), h, n)
  {
    hide Step;
    assert [m, n][1..] == [n];
    RunOne(Step(s, h, m), h, n);
  }
}
