/** Whole runs of the store: sends, handled operations, timer flushes, recounts,
    shutdowns and crashes in any order. */
module StoreRuns {
  import opened ByteStrings
  import opened StoreModel
  import opened StoreInvariants
  import opened StoreRefinement

  datatype Event =
    | Send(op: Op)                             // some goroutine's channel send succeeds
    | Deliver                                  // the loop takes and handles the next operation
    | Timer
    | Close                                    // the closed flag is set
    | Stop                                     // the final flush; the store is then opened again
    | Crash                                    // volatile state is lost; the store is opened again
    | CrashInRecount(written: set<Bytes>)      // as Crash, between the recount's own commits

  datatype Sys = Sys(
    s: State,
    ch: seq<Op>,              // the channel
    sent: seq<Op>,            // everything sent since the store was opened
    sents: seq<seq<Op>>,      // everything sent in each earlier epoch
    kept: seq<seq<Op>>)       // the part of it that was durable when the epoch ended

  const EmptyDB := DB(map[], map[], 0, 0, map[])

  function Boot(db: DB): Sys { Sys(Open(db), [], [], [], []) }

  function Reopen(y: Sys): Sys {
    Sys(Open(y.s.db), [], [], y.sents + [y.sent], y.kept + [y.s.history[..Least(y.s.durable, |y.s.history|)]])
  }

  function Least(a: nat, b: nat): nat { if a <= b then a else b }

  predicate Recounting(y: Sys) { y.ch != [] && y.ch[0].Recount? }

  /** The process ends and the store is opened again. */
  predicate EndsEpoch(y: Sys, ev: Event) {
    ev.Crash? || (ev.Stop? && y.s.closed) || (ev.CrashInRecount? && Recounting(y))
  }

  function Step(fix: Repairs, y: Sys, ev: Event): Sys {
    match ev
    case Send(op) => y.(ch := y.ch + [op], sent := y.sent + [op])
    case Deliver => if y.ch == [] then y else y.(s := Handle(fix, y.s, y.ch[0]), ch := y.ch[1..])
    case Timer => y.(s := Tick(fix, y.s))
    case Close => y.(s := y.s.(closed := true))
    case Stop => if y.s.closed then Reopen(y.(s := Flush(fix, y.s))) else y
    case Crash => Reopen(y)
    case CrashInRecount(written) =>
      if Recounting(y) then
        var f := Flush(fix, y.s.(history := y.s.history + [Recount]));
        Reopen(y.(s := f.(db := Recounted(f.db, written * Apexes(f.db.records))), ch := y.ch[1..]))
      else y
  }

  function Run(fix: Repairs, y: Sys, events: seq<Event>): Sys {
    if events == [] then y else Step(fix, Run(fix, y, events[..|events| - 1]), events[|events| - 1])
  }

  lemma RunOne(fix: Repairs, y: Sys, events: seq<Event>, ev: Event)
    ensures Run(fix, y, events + [ev]) == Step(fix, Run(fix, y, events), ev)
  {
    assert (events + [ev])[..|events|] == events;
  }

  lemma {:induction false} RunAppend(fix: Repairs, y: Sys, first: seq<Event>, later: seq<Event>)
    ensures Run(fix, y, first + later) == Run(fix, Run(fix, y, first), later)
    decreases |later|
  {
    if later == [] {
      assert first + later == first;
    } else {
      var n := |later| - 1;
      RunAppend(fix, y, first, later[..n]);
      assert first + later == (first + later[..n]) + [later[n]];
      RunOne(fix, y, first + later[..n], later[n]);
    }
  }

  lemma NoEvents(fix: Repairs, y: Sys)
    ensures Run(fix, y, []) == y
  {
  }

  /** An operation that is sent when the channel is empty and handled at once. */
  lemma TakeOne(fix: Repairs, y: Sys, events: seq<Event>, op: Op)
    requires Run(fix, y, events).ch == []
    ensures var z := Run(fix, y, events);
            Run(fix, y, events + [Send(op), Deliver]) == z.(s := Handle(fix, z.s, op), sent := z.sent + [op])
  {
    hide Run, Handle;
    RunOne(fix, y, events, Send(op));
    RunOne(fix, y, events + [Send(op)], Deliver);
    assert events + [Send(op)] + [Deliver] == events + [Send(op), Deliver];
  }

  /** Handling an ingest: applied, and flushed when the window is full. */
  lemma HandleIngestIs(fix: Repairs, s: State, op: Op)
    requires op.Ingest?
    ensures var u := Counted(Apply(fix, s.(history := s.history + [op]), op.key, op.firstSeen, op.source));
            Handle(fix, s, op) == if u.pending >= 512 then Flush(fix, u).(pending := 0) else u
  {
    hide Apply, Flush;
  }

  /** An ingest that does not fill the window stays in the batch. */
  lemma SmallIngest(fix: Repairs, s: State, k: Key, firstSeen: int, source: byte)
    requires s.pending < 511
    ensures var op := Ingest(k, firstSeen, source);
            var t := Handle(fix, s, op);
            && t == Counted(Apply(fix, s.(history := s.history + [op]), k, firstSeen, source))
            && SameFrame(s.(history := s.history + [op], seqno := s.seqno + 1), t) && t.pending == s.pending + 1
  {
    hide Apply;
    var h := s.(history := s.history + [Ingest(k, firstSeen, source)]);
    ApplyFrame(fix, h, k, firstSeen, source);
    PacedApply(fix, h, k, firstSeen, source);
  }

  // ----- The state invariant and growth over runs

  lemma StepInv(fix: Repairs, y: Sys, ev: Event)
    requires Inv(y.s)
    ensures Inv(Step(fix, y, ev).s) && Extends(y.s.db, Step(fix, y, ev).s.db)
  {
    hide Inv, Extends, Handle, Flush, Tick, Recounted;
    ExtendsReflexive(y.s.db);
    match ev
    case Send(op) =>
    case Deliver => if y.ch != [] { InvHandle(fix, y.s, y.ch[0]); }
    case Timer => InvTick(fix, y.s);
    case Close => InvClose(y.s);
    case Stop =>
      InvFlush(fix, y.s);
      InvReopen(Flush(fix, y.s));
    case Crash => InvReopen(y.s);
    case CrashInRecount(written) =>
      if Recounting(y) {
        InvHistory(y.s, Recount);
        var f := Flush(fix, y.s.(history := y.s.history + [Recount]));
        InvFlush(fix, y.s.(history := y.s.history + [Recount]));
        InvReopenRecounted(f, written * Apexes(f.db.records));
        RecountedKeeps(f.db, written * Apexes(f.db.records));
        ExtendsRecount(y.s.db, f.db, Recounted(f.db, written * Apexes(f.db.records)));
      }
  }

  lemma InvClose(s: State)
    requires Inv(s)
    ensures Inv(s.(closed := true))
  {
    MergedIgnores(s, s.(closed := true));
  }

  lemma InvReopen(s: State)
    requires Inv(s)
    ensures Inv(Open(s.db))
  {
    InvDurable(s);
    InvOpen(s.db);
  }

  lemma InvReopenRecounted(s: State, apexes: set<Bytes>)
    requires Inv(s)
    ensures Inv(Open(Recounted(s.db, apexes)))
  {
    hide Inv, SeqInv;
    InvDurable(s);
    RecountedKeeps(s.db, apexes);
    InvOpen(Recounted(s.db, apexes));
  }

  lemma {:induction false} RunInv(fix: Repairs, y: Sys, events: seq<Event>)
    requires Inv(y.s)
    ensures Inv(Run(fix, y, events).s) && Extends(y.s.db, Run(fix, y, events).s.db)
    decreases |events|
  {
    hide Inv, Extends, Step;
    if events == [] {
      ExtendsReflexive(y.s.db);
    } else {
      var n := |events| - 1;
      var z := Run(fix, y, events[..n]);
      RunInv(fix, y, events[..n]);
      StepInv(fix, z, events[n]);
      ExtendsTransitive(y.s.db, z.s.db, Step(fix, z, events[n]).s.db);
    }
  }

  /** Whatever happens after any moment of any run, including crashes, the database
      only grows: no record is lost or re-attributed, no date rises, and what is new
      carries a larger sequence number than anything committed before. */
  lemma OnlyGrows(fix: Repairs, db: DB, first: seq<Event>, later: seq<Event>)
    requires ValidDB(db)
    ensures Extends(Run(fix, Boot(db), first).s.db, Run(fix, Boot(db), first + later).s.db)
  {
    InvOpen(db);
    RunInv(fix, Boot(db), first);
    RunAppend(fix, Boot(db), first, later);
    RunInv(fix, Run(fix, Boot(db), first), later);
  }

  // ----- Refinement over runs

  /** Operations are handled in channel order; what an epoch left durable is a
      prefix of what was sent in it. */
  ghost predicate ChannelOrder(y: Sys) {
    && y.sent == y.s.history + y.ch
    && |y.kept| == |y.sents|
    && forall e :: 0 <= e < |y.kept| ==> y.kept[e] <= y.sents[e]
  }

  /** The step lowers no date in an unsafe way. */
  ghost predicate StepSafe(fix: Repairs, y: Sys, ev: Event) {
    ev.Deliver? && y.ch != [] ==> DateSafe(fix, y.s, y.ch[0])
  }

  lemma ChannelStep(fix: Repairs, y: Sys, ev: Event)
    requires ChannelOrder(y) && y.s.durable <= |y.s.history|
    ensures ChannelOrder(Step(fix, y, ev))
  {
    hide Flush, Recounted, Tick, Handle;
    match ev
    case Send(op) => assert y.s.history + y.ch + [op] == y.s.history + (y.ch + [op]);
    case Deliver =>
      if y.ch != [] {
        HandleHistory(fix, y.s, y.ch[0]);
        assert y.s.history + [y.ch[0]] + y.ch[1..] == y.s.history + y.ch;
      }
    case Timer => TickHistory(fix, y.s);
    case Close =>
    case Stop =>
      FlushHistory(fix, y.s);
      if y.s.closed { ChannelReopen(y.(s := Flush(fix, y.s))); }
    case Crash => ChannelReopen(y);
    case CrashInRecount(written) =>
      if Recounting(y) {
        var t := y.s.(history := y.s.history + [Recount]);
        FlushHistory(fix, t);
        var f := Flush(fix, t);
        assert y.s.history + y.ch == f.history + y.ch[1..];
        ChannelReopen(y.(s := f.(db := Recounted(f.db, written * Apexes(f.db.records))), ch := y.ch[1..]));
      }
  }

  lemma FlushHistory(fix: Repairs, s: State)
    ensures Flush(fix, s).history == s.history
    ensures s.durable <= |s.history| ==> Flush(fix, s).durable <= |s.history|
  {
  }

  lemma HandleHistory(fix: Repairs, s: State, op: Op)
    ensures Handle(fix, s, op).history == s.history + [op]
  {
    hide Apply, Flush, Recounted;
    var t := s.(history := s.history + [op]);
    match op
    case Ingest(k, firstSeen, source) =>
      ApplyFrame(fix, t, k, firstSeen, source);
      FlushHistory(fix, Counted(Apply(fix, t, k, firstSeen, source)));
    case Advance(log, wm) =>
    case Recount => FlushHistory(fix, t);
  }

  lemma TickHistory(fix: Repairs, s: State)
    ensures Tick(fix, s).history == s.history
  {
    FlushHistory(fix, s);
  }

  lemma ChannelReopen(y: Sys)
    requires ChannelOrder(y)
    ensures ChannelOrder(Reopen(y))
  {
    assert y.s.history <= y.sent;
  }

  /** The refinement part of the invariant, for an epoch that began at x. */
  ghost predicate Epoch(exact: bool, fix: Repairs, x: Simple, s: State) {
    && Inv(s)
    && Stands(exact, SimpleRun(x, s.history), s)
    && s.durable <= |s.history|
    && StandsDurably(exact, SimpleRun(x, s.history[..s.durable]), s.db)
    && (fix.dates ==> CacheDates(s))
  }

  lemma EpochFrom(exact: bool, fix: Repairs, x: Simple, s: State, t: State, ops: seq<Op>)
    requires Epoch(exact, fix, x, s) && Inv(t) && t.history == s.history + ops
    requires StepsTo(exact, SimpleRun(x, t.history), SimpleRun(x, s.history[..s.durable]), s.durable, t)
    requires fix.dates ==> CacheDates(t)
    ensures Epoch(exact, fix, x, t)
  {
    hide Inv, Stands, StandsDurably, CacheDates, SimpleRun;
    InvBound(t);
    if t.durable == |t.history| {
      assert t.history[..t.durable] == t.history;
    } else {
      assert t.history[..t.durable] == s.history[..s.durable];
    }
  }

  lemma InvBound(s: State)
    requires Inv(s)
    ensures s.durable <= |s.history|
  {
  }

  lemma EpochHandle(exact: bool, fix: Repairs, x: Simple, s: State, op: Op)
    requires Epoch(exact, fix, x, s) && (exact ==> DateSafe(fix, s, op))
    ensures Epoch(exact, fix, x, Handle(fix, s, op))
  {
    hide Inv, Stands, StandsDurably, CacheDates, SimpleRun, DateSafe, Handle, Epoch;
    EpochParts(exact, fix, x, s);
    var t := Handle(fix, s, op);
    StepsHandle(exact, fix, SimpleRun(x, s.history), SimpleRun(x, s.history[..s.durable]), s, op);
    InvHandle(fix, s, op);
    HandleHistory(fix, s, op);
    SimpleRunOne(x, s.history, op);
    if fix.dates { CacheDatesHandle(fix, s, op); }
    EpochFrom(exact, fix, x, s, t, [op]);
  }

  lemma EpochParts(exact: bool, fix: Repairs, x: Simple, s: State)
    requires Epoch(exact, fix, x, s)
    ensures Inv(s) && Stands(exact, SimpleRun(x, s.history), s) && s.durable <= |s.history|
    ensures StandsDurably(exact, SimpleRun(x, s.history[..s.durable]), s.db)
    ensures fix.dates ==> CacheDates(s)
    ensures s.durable == |s.history| ==> SimpleRun(x, s.history) == SimpleRun(x, s.history[..s.durable])
  {
    if s.durable == |s.history| {
      assert s.history[..s.durable] == s.history;
    }
  }

  lemma EpochTick(exact: bool, fix: Repairs, x: Simple, s: State)
    requires Epoch(exact, fix, x, s)
    ensures Epoch(exact, fix, x, Tick(fix, s))
  {
    hide Inv, Stands, StandsDurably, CacheDates, SimpleRun, Flush, Epoch;
    EpochParts(exact, fix, x, s);
    StepsTick(exact, fix, SimpleRun(x, s.history), SimpleRun(x, s.history[..s.durable]), s);
    InvTick(fix, s);
    TickHistory(fix, s);
    if fix.dates { CacheDatesFlush(fix, s, 0); }
    assert s.history + [] == s.history;
    EpochFrom(exact, fix, x, s, Tick(fix, s), []);
  }

  lemma EpochFlush(exact: bool, fix: Repairs, x: Simple, s: State)
    requires Epoch(exact, fix, x, s)
    ensures Epoch(exact, fix, x, Flush(fix, s))
  {
    hide Inv, Stands, StandsDurably, CacheDates, SimpleRun, Flush, Epoch;
    EpochParts(exact, fix, x, s);
    StepsFlush(exact, fix, SimpleRun(x, s.history), SimpleRun(x, s.history[..s.durable]), s);
    InvFlush(fix, s);
    FlushHistory(fix, s);
    if fix.dates { CacheDatesFlush(fix, s, 0); }
    assert s.history + [] == s.history;
    EpochFrom(exact, fix, x, s, Flush(fix, s), []);
  }

  lemma EpochClose(exact: bool, fix: Repairs, x: Simple, s: State)
    requires Epoch(exact, fix, x, s)
    ensures Epoch(exact, fix, x, s.(closed := true))
  {
    hide RecordsInv, SeqInv, SameRecords, SimpleRun;
    MergedIgnores(s, s.(closed := true));
  }

  /** Opening a database that stands for y starts an epoch at y with an empty cache. */
  lemma EpochOpen(exact: bool, fix: Repairs, y: Simple, db: DB)
    requires ValidDB(db) && StandsDurably(exact, y, db)
    ensures Epoch(exact, fix, y.(high := map[]), Open(db))
  {
    hide SameRecords, SeqInv, ValidDB;
    InvOpen(db);
    MergedNothing(Open(db));
    CacheDatesEmpty(Open(db));
    assert db.wms + map[] == db.wms;
  }

  lemma StandsRecounted(exact: bool, y: Simple, db: DB, apexes: set<Bytes>)
    requires StandsDurably(exact, y, db)
    ensures StandsDurably(exact, y, Recounted(db, apexes))
  {
    RecountedKeeps(db, apexes);
  }

  /** The epoch of a system, from the plain state its earlier epochs left. */
  ghost predicate Refines(exact: bool, fix: Repairs, x0: Simple, y: Sys) {
    Epoch(exact, fix, SimpleEpochs(x0, y.kept), y.s)
  }

  lemma RefinesReopen(exact: bool, fix: Repairs, x0: Simple, y: Sys, apexes: set<Bytes>)
    requires Refines(exact, fix, x0, y)
    ensures Refines(exact, fix, x0, Reopen(y))
    ensures Refines(exact, fix, x0, Reopen(y.(s := y.s.(db := Recounted(y.s.db, apexes)))))
  {
    hide Epoch, Inv, Stands, StandsDurably, SimpleRun, Recounted;
    var x, s := SimpleEpochs(x0, y.kept), y.s;
    EpochParts(exact, fix, x, s);
    var h := s.history[..s.durable];
    SimpleEpochsOne(x0, y.kept, h);
    InvDurable(s);
    EpochOpen(exact, fix, SimpleRun(x, h), s.db);
    var db := Recounted(s.db, apexes);
    RecountedKeeps(s.db, apexes);
    StandsRecounted(exact, SimpleRun(x, h), s.db, apexes);
    EpochOpen(exact, fix, SimpleRun(x, h), db);
  }

  lemma RefinesStep(exact: bool, fix: Repairs, x0: Simple, y: Sys, ev: Event)
    requires Refines(exact, fix, x0, y) && (exact ==> StepSafe(fix, y, ev))
    ensures Refines(exact, fix, x0, Step(fix, y, ev))
  {
    hide Epoch, SimpleEpochs, DateSafe, Recounted, Flush, Tick, Handle, Reopen;
    var x := SimpleEpochs(x0, y.kept);
    match ev
    case Send(op) =>
    case Deliver => if y.ch != [] { EpochHandle(exact, fix, x, y.s, y.ch[0]); }
    case Timer => EpochTick(exact, fix, x, y.s);
    case Close => EpochClose(exact, fix, x, y.s);
    case Stop =>
      EpochFlush(exact, fix, x, y.s);
      RefinesReopen(exact, fix, x0, y.(s := Flush(fix, y.s)), {});
    case Crash => RefinesReopen(exact, fix, x0, y, {});
    case CrashInRecount(written) =>
      if Recounting(y) {
        EpochNoop(exact, fix, x, y.s);
        var t := y.s.(history := y.s.history + [Recount]);
        EpochFlush(exact, fix, x, t);
        var f := Flush(fix, t);
        RefinesReopen(exact, fix, x0, y.(s := f, ch := y.ch[1..]), written * Apexes(f.db.records));
      }
  }

  /** A recount that has only been taken from the channel changes nothing. */
  lemma EpochNoop(exact: bool, fix: Repairs, x: Simple, s: State)
    requires Epoch(exact, fix, x, s)
    ensures Epoch(exact, fix, x, s.(history := s.history + [Recount]))
  {
    hide Inv, Stands, StandsDurably, CacheDates, SimpleRun, SimpleStep;
    HistoryIrrelevant(exact, fix, SimpleRun(x, s.history), s, Recount);
    SimpleRunOne(x, s.history, Recount);
    SimpleRecount(SimpleRun(x, s.history));
    assert (s.history + [Recount])[..s.durable] == s.history[..s.durable];
  }

  /** Every step of the run lowers dates safely. */
  ghost predicate DatesSafe(fix: Repairs, y: Sys, events: seq<Event>)
    decreases |events|
  {
    events == [] ||
    var n := |events| - 1;
    DatesSafe(fix, y, events[..n]) && StepSafe(fix, Run(fix, y, events[..n]), events[n])
  }

  lemma {:induction false} RunRefines(exact: bool, fix: Repairs, x0: Simple, y: Sys, events: seq<Event>)
    requires Refines(exact, fix, x0, y) && ChannelOrder(y) && (exact ==> DatesSafe(fix, y, events))
    ensures Refines(exact, fix, x0, Run(fix, y, events)) && ChannelOrder(Run(fix, y, events))
    decreases |events|
  {
    hide Refines, ChannelOrder, Step, StepSafe;
    if events != [] {
      var n := |events| - 1;
      var z := Run(fix, y, events[..n]);
      RunRefines(exact, fix, x0, y, events[..n]);
      RefinesStep(exact, fix, x0, z, events[n]);
      RefinesBound(exact, fix, x0, z);
      ChannelStep(fix, z, events[n]);
    }
  }

  lemma RefinesBound(exact: bool, fix: Repairs, x0: Simple, y: Sys)
    requires Refines(exact, fix, x0, y)
    ensures y.s.durable <= |y.s.history|
  {
  }

  lemma RefinesBoot(exact: bool, fix: Repairs, db: DB)
    requires ValidDB(db)
    ensures Refines(exact, fix, SimpleOpen(db), Boot(db)) && ChannelOrder(Boot(db))
  {
    hide Epoch, ValidDB;
    EpochOpen(exact, fix, SimpleOpen(db), db) by { assert StandsDurably(exact, SimpleOpen(db), db); }
    assert SimpleOpen(db).(high := map[]) == SimpleOpen(db);
  }

  /** Crash refinement. After any run, the database is what a plain store holds
      that ran, epoch by epoch, a prefix of what was sent in that epoch; and if
      dates were lowered safely throughout, it holds the earliest dates too. */
  lemma {:induction false} CrashRefinement(exact: bool, fix: Repairs, db: DB, events: seq<Event>)
    requires ValidDB(db) && (exact ==> DatesSafe(fix, Boot(db), events))
    ensures var y := Run(fix, Boot(db), events);
            && ChannelOrder(y)
            && y.s.durable <= |y.s.history|
            && StandsDurably(exact, SimpleRun(SimpleEpochs(SimpleOpen(db), y.kept), y.s.history[..y.s.durable]), y.s.db)
  {
    hide ChannelOrder, Epoch, StandsDurably, DatesSafe;
    RefinesBoot(exact, fix, db);
    RunRefines(exact, fix, SimpleOpen(db), Boot(db), events);
    var y := Run(fix, Boot(db), events);
    EpochParts(exact, fix, SimpleEpochs(SimpleOpen(db), y.kept), y.s);
  }

  lemma {:induction false} RepairedDatesSafe(fix: Repairs, y: Sys, events: seq<Event>)
    requires fix.dates
    ensures DatesSafe(fix, y, events)
    decreases |events|
  {
    if events != [] {
      RepairedDatesSafe(fix, y, events[..|events| - 1]);
    }
  }

  /** With the cache repaired, stored dates are the earliest on every run. */
  lemma {:induction false} RepairedDatesExact(fix: Repairs, db: DB, events: seq<Event>)
    requires ValidDB(db) && fix.dates
    ensures var y := Run(fix, Boot(db), events);
            var x := SimpleRun(SimpleEpochs(SimpleOpen(db), y.kept), y.s.history[..Least(y.s.durable, |y.s.history|)]);
            x.records == y.s.db.records
  {
    hide ChannelOrder, Run, Boot;
    RepairedDatesSafe(fix, Boot(db), events);
    CrashRefinement(true, fix, db, events);
  }

  // ----- How long a write can stay volatile

  /** Fewer than 512 operations are pending, and anything in the batch is counted. */
  ghost predicate Paced(s: State) { s.pending < 512 && (s.batch != [] ==> s.pending > 0) }

  lemma PacedHandle(fix: Repairs, s: State, op: Op)
    requires Paced(s)
    ensures Paced(Handle(fix, s, op))
  {
    hide Apply, Recounted, Merged;
    var t := s.(history := s.history + [op]);
    if op.Ingest? {
      PacedApply(fix, t, op.key, op.firstSeen, op.source);
    }
  }

  lemma PacedApply(fix: Repairs, s: State, k: Key, firstSeen: int, source: byte)
    ensures Counted(Apply(fix, s, k, firstSeen, source)).pending == s.pending + 1
  {
  }

  lemma PacedStep(fix: Repairs, y: Sys, ev: Event)
    requires Paced(y.s)
    ensures Paced(Step(fix, y, ev).s)
  {
    hide Handle, Recounted, Merged;
    if ev.Deliver? && y.ch != [] {
      PacedHandle(fix, y.s, y.ch[0]);
    }
  }

  lemma {:induction false} RunPaced(fix: Repairs, y: Sys, events: seq<Event>)
    requires Paced(y.s)
    ensures Paced(Run(fix, y, events).s)
    decreases |events|
  {
    hide Paced, Step;
    if events != [] {
      RunPaced(fix, y, events[..|events| - 1]);
      PacedStep(fix, Run(fix, y, events[..|events| - 1]), events[|events| - 1]);
    }
  }

  /** After a flush the database stands for everything handled; only the sequence
      counter may lag, when the last operations left no write. */
  lemma FlushStands(exact: bool, fix: Repairs, x: Simple, s: State)
    requires Inv(s) && Stands(exact, x, s)
    ensures var d := Flush(fix, s).db;
            SameRecords(exact, x.records, d.records) && x.wms == d.wms && d.seqno <= x.seqno
  {
    hide SameRecords, RecordsInv;
    if Idle(s) {
      MergedNothing(s);
      assert s.db.wms + map[] == s.db.wms;
    }
  }

  /** On every run, at any moment: one tick of the timer, or an orderly stop, makes
      everything handled so far durable. The loop's own count stays below 512; what that
      says of the operations that wait is `StoreDates.FewAreUnsaved`. */
  lemma {:induction false} NothingHandledIsLost(exact: bool, fix: Repairs, db: DB, events: seq<Event>)
    requires ValidDB(db) && (exact ==> DatesSafe(fix, Boot(db), events))
    ensures var y := Run(fix, Boot(db), events);
            var x := SimpleRun(SimpleEpochs(SimpleOpen(db), y.kept), y.s.history);
            var tick, stop := Step(fix, y, Timer).s.db, Step(fix, y.(s := y.s.(closed := true)), Stop).s.db;
            && y.s.pending < 512
            && SameRecords(exact, x.records, tick.records) && x.wms == tick.wms
            && SameRecords(exact, x.records, stop.records) && x.wms == stop.wms
  {
    hide ChannelOrder, Epoch, Stands, SameRecords, DatesSafe, ValidDB, Run, Merged, SimpleRun, SimpleEpochs, Inv;
    RefinesBoot(exact, fix, db);
    RunRefines(exact, fix, SimpleOpen(db), Boot(db), events);
    RunPaced(fix, Boot(db), events);
    var y := Run(fix, Boot(db), events);
    var x := SimpleEpochs(SimpleOpen(db), y.kept);
    EpochParts(exact, fix, x, y.s);
    FlushStands(exact, fix, SimpleRun(x, y.s.history), y.s);
    TickIsFlush(fix, y.s);
    FlushClosed(fix, y.s);
  }

  lemma TickIsFlush(fix: Repairs, s: State)
    requires Paced(s)
    ensures Tick(fix, s).db == Flush(fix, s).db
  {
  }

  lemma FlushClosed(fix: Repairs, s: State)
    ensures Flush(fix, s.(closed := true)).db == Flush(fix, s).db
  {
    MergedIgnores(s, s.(closed := true));
  }
}
