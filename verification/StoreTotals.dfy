/** The total over whole runs: what the code as written stores, and exactly when that
    is the number of records. */
module StoreTotals {
  import opened ByteStrings
  import opened StoreModel
  import opened StoreInvariants
  import opened StoreRuns
  import opened StoreCounters

  /** A tally of new names, kept from outside the store. It starts over whenever the
      store is opened and at each recount. */
  datatype Tally = Tally(
    base: nat,            // the total stored at the start
    from: nat,            // how many records there were
    windows: seq<nat>,    // the new names of each committed window that had any
    current: nat)         // those of the open window

  function Begin(db: DB): Tally { Tally(db.total, |db.records|, [], 0) }

  /** The event makes the loop handle a name that is not stored yet. */
  predicate NewName(y: Sys, ev: Event) {
    ev.Deliver? && y.ch != [] && y.ch[0].Ingest? && y.ch[0].key !in Merged(y.s).records
  }

  predicate StartsOver(y: Sys, ev: Event) { EndsEpoch(y, ev) || (ev.Deliver? && Recounting(y)) }

  function Noted(t: Tally, more: nat, committed: bool): Tally {
    var n := t.current + more;
    if committed && n > 0 then t.(windows := t.windows + [n], current := 0) else t.(current := n)
  }

  /** The tally of a run; a window ends when its batch has been committed. */
  function Tallied(fix: Repairs, y: Sys, events: seq<Event>): Tally {
    if events == [] then Begin(y.s.db)
    else
      var n := |events| - 1;
      var z, ev := Run(fix, y, events[..n]), events[n];
      var z' := Step(fix, z, ev);
      if StartsOver(z, ev) then Begin(z'.s.db)
      else Noted(Tallied(fix, y, events[..n]), if NewName(z, ev) then 1 else 0, z'.s.batch == [])
  }

  function Sum(a: seq<nat>): nat { if a == [] then 0 else Sum(a[..|a| - 1]) + a[|a| - 1] }

  function Last(a: seq<nat>): nat { if a == [] then 0 else a[|a| - 1] }

  /** All windows with new names, the open one included. */
  function All(t: Tally): seq<nat> { if t.current > 0 then t.windows + [t.current] else t.windows }

  ghost predicate Positive(a: seq<nat>) { forall i :: 0 <= i < |a| ==> a[i] > 0 }

  /** A database: its total is that at the start plus the last window's new names. */
  ghost predicate Stores(t: Tally, windows: seq<nat>, db: DB) {
    db.total == t.base + Last(windows) && |db.records| == t.from + Sum(windows)
  }

  ghost predicate TallyInv(s: State, t: Tally) {
    && s.totalBase == t.base && s.pendingTotal == t.current && Positive(t.windows)
    && Stores(t, t.windows, s.db) && Stores(t, All(t), Merged(s))
    && (s.batch == [] ==> t.current == 0)
  }

  lemma SumOne(a: seq<nat>, n: nat)
    ensures Sum(a + [n]) == Sum(a) + n && Last(a + [n]) == n
  {
    assert (a + [n])[..|a|] == a;
  }

  /** Windows that each had new names add up to the last one exactly if there is at
      most one. */
  lemma {:induction false} LastIsSum(a: seq<nat>)
    requires Positive(a)
    ensures Last(a) <= Sum(a) && (Last(a) == Sum(a) <==> |a| <= 1)
    decreases |a|
  {
    if a != [] {
      LastIsSum(a[..|a| - 1]);
      if |a| > 1 { assert Last(a[..|a| - 1]) > 0; }
    }
  }

  // ----- Each step keeps the tally

  lemma TallyApply(fix: Repairs, s: State, t: Tally, k: Key, firstSeen: int, source: byte)
    requires Inv(s) && TallyInv(s, t)
    ensures var u, more := Counted(Apply(fix, s, k, firstSeen, source)), if k !in Merged(s).records then 1 else 0;
            TallyInv(u, Noted(t, more, false))
  {
    hide Merged, Inv, Insert, Refresh;
    match Lookup(s, k)
    case None => TallyInsert(fix, s, t, k, firstSeen, source);
    case Some(st) =>
      InMerged(s, k, st);
      TallyRefresh(fix, s, t, k, firstSeen, st);
  }

  lemma TallyInsert(fix: Repairs, s: State, t: Tally, k: Key, firstSeen: int, source: byte)
    requires Inv(s) && TallyInv(s, t) && Lookup(s, k) == None
    ensures k !in Merged(s).records
    ensures TallyInv(Counted(Insert(fix, s, k, firstSeen, source)), Noted(t, 1, false))
  {
    hide Merged, Inv, Sum;
    var u := Insert(fix, s, k, firstSeen, source);
    Unmerged(s, k);
    MergedIgnores(u, Counted(u));
    MergedInsert(fix, s, k, firstSeen, source);
    CountInsert(Merged(s).records, k, Rec(firstSeen, source, s.seqno + 1), k.apex);
    SumOne(t.windows, t.current);
    SumOne(t.windows, t.current + 1);
  }

  lemma TallyRefresh(fix: Repairs, s: State, t: Tally, k: Key, firstSeen: int, st: Rec)
    requires TallyInv(s, t) && k in Merged(s).records
    ensures TallyInv(Counted(Refresh(fix, s, k, firstSeen, st)), t)
  {
    hide Merged, Sum;
    var u := Counted(Refresh(fix, s, k, firstSeen, st));
    RefreshKeeps(fix, s, k, firstSeen, st);
    CountSameKeys(Merged(s).records, Merged(u).records, k.apex);
  }

  lemma TallyFlush(fix: Repairs, s: State, t: Tally, pending: nat)
    requires !fix.total && TallyInv(s, t)
    ensures var f := Flush(fix, s);
            && f.batch == []
            && TallyInv(f, Noted(t, 0, true)) && TallyInv(f.(pending := pending), Noted(t, 0, true))
  {
    hide Sum;
    var f := Flush(fix, s);
    MergedNothing(f);
    MergedNothing(f.(pending := pending));
    MergedNothingElse(s);
    SumOne(t.windows, t.current);
  }

  lemma MergedNothingElse(s: State)
    ensures s.batch == [] ==> Merged(s) == s.db
  {
  }

  lemma TallySame(s: State, u: State, t: Tally)
    requires TallyInv(s, t) && u.db == s.db && u.batch == s.batch
    requires u.totalBase == s.totalBase && u.pendingTotal == s.pendingTotal
    ensures TallyInv(u, t)
  {
    MergedIgnores(s, u);
  }

  lemma TallyBegin(s: State)
    requires s.batch == [] && s.totalBase == s.db.total && s.pendingTotal == 0
    ensures TallyInv(s, Begin(s.db))
  {
    MergedNothing(s);
  }

  lemma TallyIngest(fix: Repairs, s: State, t: Tally, op: Op)
    requires !fix.total && Inv(s) && TallyInv(s, t) && op.Ingest?
    ensures var u, more := Handle(fix, s, op), if op.key !in Merged(s).records then 1 else 0;
            TallyInv(u, Noted(t, more, u.batch == []))
  {
    hide Inv, TallyInv, Merged, Flush, Apply, Noted, Handle, Counted;
    HandleIngestIs(fix, s, op);
    var h := s.(history := s.history + [op]);
    var more := if op.key !in Merged(s).records then 1 else 0;
    InvHistory(s, op);
    MergedIgnores(s, h);
    TallySame(s, h, t);
    var u := Counted(Apply(fix, h, op.key, op.firstSeen, op.source));
    TallyApply(fix, h, t, op.key, op.firstSeen, op.source);
    TallyFlush(fix, u, Noted(t, more, false), 0);
    TallyIdle(u, Noted(t, more, false));
    NotedTwice(t, more);
  }

  /** A step notes its new name and the commit behind it at once. */
  lemma NotedTwice(t: Tally, more: nat)
    ensures Noted(Noted(t, more, false), 0, true) == Noted(t, more, true)
    ensures Noted(t, more, false).current == 0 ==> Noted(t, more, true) == Noted(t, more, false)
  {
  }

  lemma TallyIdle(s: State, t: Tally)
    requires TallyInv(s, t)
    ensures s.batch == [] ==> t.current == 0
  {
  }

  lemma TallyStep(fix: Repairs, y: Sys, ev: Event, t: Tally)
    requires !fix.total && Inv(y.s) && TallyInv(y.s, t)
    ensures var z := Step(fix, y, ev);
            TallyInv(z.s, if StartsOver(y, ev) then Begin(z.s.db)
                          else Noted(t, if NewName(y, ev) then 1 else 0, z.s.batch == []))
  {
    hide Inv, TallyInv, Merged, Flush, Handle, Recounted;
    TallyIdle(y.s, t);
    match ev
    case Send(op) =>
    case Deliver =>
      if y.ch != [] {
        match y.ch[0]
        case Ingest(k, firstSeen, source) => TallyIngest(fix, y.s, t, y.ch[0]);
        case Advance(log, wm) => TallyAdvance(fix, y.s, t, log, wm);
        case Recount => TallyRecount(fix, y.s);
      }
    case Timer =>
      TallyFlush(fix, y.s, t, 0);
      TallyTick(fix, y.s);
    case Close => TallySame(y.s, y.s.(closed := true), t);
    case Stop => TallyBegin(Open(Flush(fix, y.s).db));
    case Crash => TallyBegin(Open(y.s.db));
    case CrashInRecount(written) =>
      if Recounting(y) { TallyBegin(Step(fix, y, ev).s); }
  }

  lemma TallyTick(fix: Repairs, s: State)
    ensures Tick(fix, s) == s || Tick(fix, s) == Flush(fix, s).(pending := 0)
  {
  }

  lemma TallyAdvance(fix: Repairs, s: State, t: Tally, log: Bytes, wm: int)
    requires TallyInv(s, t)
    ensures var u := Handle(fix, s, Advance(log, wm)); u.batch == s.batch && TallyInv(u, t)
  {
    hide TallyInv;
    TallySame(s, Handle(fix, s, Advance(log, wm)), t);
  }

  lemma TallyRecount(fix: Repairs, s: State)
    ensures var u := Handle(fix, s, Recount); TallyInv(u, Begin(u.db))
  {
    hide TallyInv, Flush, Recounted;
    TallyBegin(Handle(fix, s, Recount));
  }

  lemma {:induction false} RunTally(fix: Repairs, y: Sys, events: seq<Event>)
    requires !fix.total && Inv(y.s) && TallyInv(y.s, Begin(y.s.db))
    ensures TallyInv(Run(fix, y, events).s, Tallied(fix, y, events))
    decreases |events|
  {
    hide Inv, TallyInv, Step, Begin, StartsOver, NewName, Noted;
    if events != [] {
      var n := |events| - 1;
      RunInv(fix, y, events[..n]);
      RunTally(fix, y, events[..n]);
      TallyStep(fix, Run(fix, y, events[..n]), events[n], Tallied(fix, y, events[..n]));
    }
  }

  /** As written, on every run: the total is the one found at the last open or recount
      plus the new names of the last window that had any, while the records are those
      found then plus the new names of all windows. */
  lemma {:induction false} TotalIsLastWindow(fix: Repairs, db: DB, events: seq<Event>)
    requires ValidDB(db) && !fix.total
    ensures var s, t := Run(fix, Boot(db), events).s, Tallied(fix, Boot(db), events);
            Positive(All(t)) && Stores(t, t.windows, s.db) && Stores(t, All(t), Merged(s))
  {
    hide ValidDB, Run, Tallied, TallyInv, Stores, Positive, Merged, All;
    InvOpen(db);
    TallyBegin(Open(db));
    RunTally(fix, Boot(db), events);
    TallyParts(Run(fix, Boot(db), events).s, Tallied(fix, Boot(db), events));
  }

  lemma TallyParts(s: State, t: Tally)
    requires TallyInv(s, t)
    ensures Positive(t.windows) && Positive(All(t))
    ensures Stores(t, t.windows, s.db) && Stores(t, All(t), Merged(s))
  {
    hide Stores;
  }

  /** The total at the start did not exceed the records. */
  ghost predicate Modest(t: Tally) { t.base <= t.from }

  lemma StoresModest(t: Tally, windows: seq<nat>, db: DB)
    requires Modest(t) && Positive(windows) && Stores(t, windows, db)
    ensures Modest(Begin(db))
  {
    LastIsSum(windows);
  }

  /** Every new start finds a total that does not exceed the records. */
  lemma ModestStep(fix: Repairs, y: Sys, ev: Event, t: Tally)
    requires !fix.total && Inv(y.s) && TallyInv(y.s, t) && Modest(t) && StartsOver(y, ev)
    ensures Modest(Begin(Step(fix, y, ev).s.db))
  {
    hide Inv, Modest, Merged, Flush, Recounted, Sum, Last, TallyInv, Stores, Positive, Noted, Handle;
    TallyParts(y.s, t);
    TallyFlush(fix, y.s, t, 0);
    var f, u := Flush(fix, y.s), Noted(t, 0, true);
    TallyParts(f, u);
    ModestNoted(t);
    match ev
    case Send(op) =>
    case Deliver => RecountTotal(fix, y.s);
    case Timer =>
    case Close =>
    case Stop => StoresModest(u, u.windows, f.db);
    case Crash => StoresModest(t, t.windows, y.s.db);
    case CrashInRecount(written) =>
      FlushIgnores(fix, y.s, y.s.(history := y.s.history + [Recount]));
      StoresModest(u, u.windows, f.db);
      ModestRecounted(f.db, written * Apexes(f.db.records));
  }

  lemma ModestNoted(t: Tally)
    requires Modest(t)
    ensures Modest(Noted(t, 0, true))
  {
  }

  lemma ModestRecounted(db: DB, apexes: set<Bytes>)
    requires Modest(Begin(db))
    ensures Modest(Begin(Recounted(db, apexes)))
  {
  }

  lemma RecountTotal(fix: Repairs, s: State)
    ensures Modest(Begin(Handle(fix, s, Recount).db))
  {
    hide Flush, Recounted;
    var h := s.(history := s.history + [Recount]);
    var f := Flush(fix, h);
    RecountedKeeps(f.db, Apexes(f.db.records));
  }

  lemma {:induction false} RunModest(fix: Repairs, y: Sys, events: seq<Event>)
    requires !fix.total && Inv(y.s) && TallyInv(y.s, Begin(y.s.db)) && Modest(Begin(y.s.db))
    ensures Modest(Tallied(fix, y, events))
    decreases |events|
  {
    hide Inv, TallyInv, Step, Begin, StartsOver, NewName;
    if events != [] {
      var n := |events| - 1;
      RunInv(fix, y, events[..n]);
      RunTally(fix, y, events[..n]);
      RunModest(fix, y, events[..n]);
      if StartsOver(Run(fix, y, events[..n]), events[n]) {
        ModestStep(fix, Run(fix, y, events[..n]), events[n], Tallied(fix, y, events[..n]));
      }
    }
  }

  /** So from a database that does not over-report, the total is right if and only if it
      was right at the last open or recount and at most one window since then had new
      names. */
  lemma {:induction false} TotalExactIff(fix: Repairs, db: DB, events: seq<Event>)
    requires ValidDB(db) && !fix.total && db.total <= |db.records|
    ensures var s, t := Run(fix, Boot(db), events).s, Tallied(fix, Boot(db), events);
            && (s.db.total == |s.db.records| <==> t.base == t.from && |t.windows| <= 1)
            && (Merged(s).total == |Merged(s).records| <==> t.base == t.from && |All(t)| <= 1)
  {
    hide ValidDB, Run, Tallied, Sum, Last, TallyInv;
    InvOpen(db);
    TallyBegin(Open(db));
    RunModest(fix, Boot(db), events);
    TotalIsLastWindow(fix, db, events);
    var t := Tallied(fix, Boot(db), events);
    assert All(t)[..|t.windows|] == t.windows;
    assert Positive(t.windows) by { assert forall i :: 0 <= i < |t.windows| ==> t.windows[i] == All(t)[i]; }
    LastIsSum(t.windows);
    LastIsSum(All(t));
  }
}
