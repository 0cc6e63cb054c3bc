/** The history of first-seen dates: what one batching window makes of the dates
    ingested in it, and where every stored date comes from. */
module StoreDates {
  import opened ByteStrings
  import opened StoreModel
  import opened StoreInvariants
  import opened StoreRefinement
  import opened StoreRuns

  /** The dates ingested for k, in order. */
  function Dates(k: Key, ops: seq<Op>): seq<int> {
    if ops == [] then []
    else
      var n := |ops| - 1;
      if ops[n].Ingest? && ops[n].key == k then Dates(k, ops[..n]) + [ops[n].firstSeen] else Dates(k, ops[..n])
  }

  /** The last date below base, or else base. */
  function LastBelow(base: int, dates: seq<int>): int {
    if dates == [] then base
    else
      var d := dates[|dates| - 1];
      if d < base then d else LastBelow(base, dates[..|dates| - 1])
  }

  function Earliest(base: int, dates: seq<int>): int {
    if dates == [] then base else Min(Earliest(base, dates[..|dates| - 1]), dates[|dates| - 1])
  }

  /** The date a window measures k by: the committed one, or else the first ingested. */
  function Base(d: Records, w: seq<Op>, k: Key): Option<int> {
    if k in d then Some(d[k].firstSeen)
    else if Dates(k, w) != [] then Some(Dates(k, w)[0])
    else None
  }

  /** The operations handled since the last commit. */
  function Waiting(s: State): seq<Op>
    requires s.durable <= |s.history|
  {
    s.history[s.durable..]
  }

  /** What the operations w make of the committed date of k, as written. */
  ghost predicate DatedBy(d: Records, w: seq<Op>, m: Records, k: Key) {
    k in m && Base(d, w, k).Some? && m[k].firstSeen == LastBelow(Base(d, w, k).value, Dates(k, w))
  }

  /** In the merged view m every key is dated so, and a cached date is the base. */
  ghost predicate KeyDated(d: Records, m: Records, p: Records, w: seq<Op>, k: Key) {
    && (k in m ==> DatedBy(d, w, m, k))
    && (k in p ==> Base(d, w, k) == Some(p[k].firstSeen))
    && (k !in m ==> Base(d, w, k) == None)
  }

  ghost predicate Dated(s: State) {
    s.durable <= |s.history| && forall k :: KeyDated(s.db.records, Merged(s).records, s.pendingRecords, Waiting(s), k)
  }

  /** The operation leaves a write: a new name, or a date below the base. */
  predicate Leaves(d: Records, w: seq<Op>, op: Op) {
    op.Ingest? && (Base(d, w, op.key) == None || op.firstSeen < Base(d, w, op.key).value)
  }

  /** How many of the operations w have left a write. */
  function Unsaved(d: Records, w: seq<Op>): nat {
    if w == [] then 0
    else
      var n := |w| - 1;
      Unsaved(d, w[..n]) + if Leaves(d, w[..n], w[n]) then 1 else 0
  }

  ghost predicate Few(s: State)
    requires s.durable <= |s.history|
  {
    && Unsaved(s.db.records, Waiting(s)) <= s.pending
    && (s.batch == [] ==> Unsaved(s.db.records, Waiting(s)) == 0)
  }

  ghost predicate WindowInv(s: State) { Dated(s) && Few(s) }

  // ----- One operation

  lemma DatesOne(k: Key, w: seq<Op>, op: Op)
    ensures Dates(k, w + [op]) == if op.Ingest? && op.key == k then Dates(k, w) + [op.firstSeen] else Dates(k, w)
  {
    assert (w + [op])[..|w|] == w;
  }

  lemma LastBelowOne(base: int, dates: seq<int>, d: int)
    ensures LastBelow(base, dates + [d]) == if d < base then d else LastBelow(base, dates)
  {
    assert (dates + [d])[..|dates|] == dates;
  }

  lemma BaseOne(d: Records, w: seq<Op>, op: Op, k: Key)
    ensures Base(d, w + [op], k) ==
            if Base(d, w, k) == None && op.Ingest? && op.key == k then Some(op.firstSeen) else Base(d, w, k)
  {
    DatesOne(k, w, op);
  }

  lemma UnsavedOne(d: Records, w: seq<Op>, op: Op)
    ensures Unsaved(d, w + [op]) == Unsaved(d, w) + if Leaves(d, w, op) then 1 else 0
  {
    assert (w + [op])[..|w|] == w;
  }

  /** An operation on other keys, or one that ingests nothing. */
  lemma KeyDatedElse(d: Records, m: Records, p: Records, w: seq<Op>, op: Op, k: Key)
    requires KeyDated(d, m, p, w, k) && !(op.Ingest? && op.key == k)
    ensures KeyDated(d, m, p, w + [op], k)
  {
    hide Base, Dates, LastBelow;
    DatesOne(k, w, op);
    BaseOne(d, w, op, k);
  }

  lemma KeyDatedInsert(d: Records, m: Records, p: Records, w: seq<Op>, op: Op, r: Rec)
    requires op.Ingest? && KeyDated(d, m, p, w, op.key) && op.key !in m && r.firstSeen == op.firstSeen
    ensures KeyDated(d, m[op.key := r], p[op.key := r], w + [op], op.key)
    ensures Leaves(d, w, op)
  {
    hide Dates, LastBelow;
    DatesOne(op.key, w, op);
    LastBelowOne(op.firstSeen, Dates(op.key, w), op.firstSeen);
    NoDates(op.firstSeen);
  }

  lemma NoDates(base: int)
    ensures LastBelow(base, []) == base
  {
  }

  /** st is what the loop looked up: its date is the base. */
  lemma KeyDatedRefresh(d: Records, m: Records, p: Records, w: seq<Op>, op: Op, st: Rec)
    requires op.Ingest? && KeyDated(d, m, p, w, op.key) && op.key in m && Base(d, w, op.key) == Some(st.firstSeen)
    ensures KeyDated(d, m[op.key := Refreshed(m, op.key, op.firstSeen, st)], p[op.key := st], w + [op], op.key)
    ensures Leaves(d, w, op) <==> op.firstSeen < st.firstSeen
  {
    hide Base, Dates, LastBelow;
    DatesOne(op.key, w, op);
    BaseOne(d, w, op, op.key);
    LastBelowOne(st.firstSeen, Dates(op.key, w), op.firstSeen);
  }

  lemma LookupBase(s: State, k: Key, st: Rec)
    requires Inv(s) && Dated(s) && Lookup(s, k) == Some(st)
    ensures k in Merged(s).records && Base(s.db.records, Waiting(s), k) == Some(st.firstSeen)
  {
    hide Merged, Dates, SeqInv;
    InMerged(s, k, st);
    assert KeyDated(s.db.records, Merged(s).records, s.pendingRecords, Waiting(s), k);
  }

  /** The state with the operation noted in its history, before it is applied. */
  function Note(s: State, op: Op): State { s.(history := s.history + [op]) }

  lemma WaitingNote(s: State, op: Op)
    requires s.durable <= |s.history|
    ensures Waiting(Note(s, op)) == Waiting(s) + [op]
  {
  }

  lemma DatedApply(s: State, op: Op)
    requires Inv(s) && Dated(s) && op.Ingest?
    ensures var u := Counted(Apply(AsWritten, Note(s, op), op.key, op.firstSeen, op.source));
            && Dated(u) && Waiting(u) == Waiting(s) + [op] && u.pending == s.pending + 1 && u.db == s.db
            && (u.batch == [] ==> s.batch == [])
            && (Leaves(s.db.records, Waiting(s), op) <==> u.batch != s.batch)
            && (Leaves(s.db.records, Waiting(s), op) ==> u.batch != [])
  {
    hide Merged, Inv, KeyDated, Insert, Refresh, Leaves;
    var h := Note(s, op);
    InvHistory(s, op);
    MergedIgnores(s, h);
    WaitingNote(s, op);
    match Lookup(h, op.key)
    case None => DatedInsert(s, op);
    case Some(st) => DatedRefresh(s, op, st);
  }

  lemma DatedInsert(s: State, op: Op)
    requires Inv(s) && Dated(s) && op.Ingest? && Lookup(s, op.key) == None
    ensures var u := Counted(Insert(AsWritten, Note(s, op), op.key, op.firstSeen, op.source));
            && Dated(u) && Waiting(u) == Waiting(s) + [op] && u.pending == s.pending + 1 && u.db == s.db
            && Leaves(s.db.records, Waiting(s), op) && u.batch != s.batch && u.batch != []
  {
    hide Merged, Inv, KeyDated, Leaves;
    var h, k := Note(s, op), op.key;
    var v := Insert(AsWritten, h, k, op.firstSeen, op.source);
    var u := Counted(v);
    var d, w, r := s.db.records, Waiting(s), Rec(op.firstSeen, op.source, s.seqno + 1);
    MergedIgnores(s, h);
    MergedIgnores(v, u);
    MergedInsert(AsWritten, h, k, op.firstSeen, op.source);
    WaitingNote(s, op);
    Unmerged(s, k);
    KeyDatedInsert(d, Merged(s).records, s.pendingRecords, w, op, r);
    forall j ensures KeyDated(d, Merged(u).records, u.pendingRecords, w + [op], j) {
      if j != k {
        KeyDatedElse(d, Merged(s).records, s.pendingRecords, w, op, j);
        KeyDatedCopy(d, Merged(s).records, Merged(u).records, s.pendingRecords, u.pendingRecords, w + [op], j);
      }
    }
  }

  /** KeyDated looks at one key only. */
  lemma KeyDatedCopy(d: Records, m: Records, m': Records, p: Records, p': Records, w: seq<Op>, k: Key)
    requires KeyDated(d, m, p, w, k)
    requires (k in m <==> k in m') && (k in m ==> m[k] == m'[k]) && (k in p' ==> k in p && p[k] == p'[k])
    ensures KeyDated(d, m', p', w, k)
  {
    hide Base, Dates;
  }

  lemma DatedRefresh(s: State, op: Op, st: Rec)
    requires Inv(s) && Dated(s) && op.Ingest? && Lookup(s, op.key) == Some(st)
    ensures var u := Counted(Refresh(AsWritten, Note(s, op), op.key, op.firstSeen, st));
            && Dated(u) && Waiting(u) == Waiting(s) + [op] && u.pending == s.pending + 1 && u.db == s.db
            && (Leaves(s.db.records, Waiting(s), op) <==> u.batch != s.batch)
            && (u.batch != s.batch ==> u.batch != [])
  {
    hide Merged, Inv, KeyDated, Leaves, Refreshed;
    var h, k := Note(s, op), op.key;
    var u := Counted(Refresh(AsWritten, h, k, op.firstSeen, st));
    var d, w := s.db.records, Waiting(s);
    LookupBase(s, k, st);
    MergedIgnores(s, h);
    MergedRefreshed(AsWritten, h, k, op.firstSeen, st);
    WaitingNote(s, op);
    KeyDatedRefresh(d, Merged(s).records, s.pendingRecords, w, op, st);
    forall j ensures KeyDated(d, Merged(u).records, u.pendingRecords, w + [op], j) {
      if j != k {
        KeyDatedElse(d, Merged(s).records, s.pendingRecords, w, op, j);
        KeyDatedCopy(d, Merged(s).records, Merged(u).records, s.pendingRecords, u.pendingRecords, w + [op], j);
      }
    }
  }

  lemma WindowApply(s: State, op: Op)
    requires Inv(s) && WindowInv(s) && op.Ingest?
    ensures var u := Counted(Apply(AsWritten, Note(s, op), op.key, op.firstSeen, op.source));
            WindowInv(u) && Waiting(u) == Waiting(s) + [op] && u.db == s.db
  {
    hide Inv, Dated, Leaves, Unsaved, Apply;
    WindowBound(s);
    DatedApply(s, op);
    UnsavedOne(s.db.records, Waiting(s), op);
  }

  /** An operation that ingests nothing. */
  lemma WindowNote(s: State, op: Op)
    requires WindowInv(s) && !op.Ingest?
    ensures WindowInv(Note(s, op)) && Waiting(Note(s, op)) == Waiting(s) + [op]
  {
    hide Merged, KeyDated, Unsaved;
    MergedIgnores(s, Note(s, op));
    WaitingNote(s, op);
    UnsavedOne(s.db.records, Waiting(s), op);
    forall k ensures KeyDated(s.db.records, Merged(s).records, s.pendingRecords, Waiting(s) + [op], k) {
      KeyDatedElse(s.db.records, Merged(s).records, s.pendingRecords, Waiting(s), op, k);
    }
  }

  lemma WindowSame(s: State, t: State)
    requires WindowInv(s) && t.db == s.db && t.batch == s.batch && t.history == s.history && t.durable == s.durable
    requires t.pendingRecords == s.pendingRecords && (t.pending == s.pending || s.batch == [])
    ensures WindowInv(t)
  {
    hide KeyDated, Unsaved;
    MergedIgnores(s, t);
  }

  /** With nothing in the batch the caches may be dropped. */
  lemma WindowReset(s: State, t: State)
    requires WindowInv(s) && s.batch == [] && t.batch == [] && t.pendingRecords == map[]
    requires t.db.records == s.db.records && t.history == s.history && t.durable == s.durable
    ensures WindowInv(t)
  {
    hide KeyDated, Unsaved;
    MergedNothing(s);
    MergedNothing(t);
    var d, w := s.db.records, Waiting(s);
    forall k ensures KeyDated(d, d, map[], w, k) {
      assert KeyDated(d, Merged(s).records, s.pendingRecords, w, k);
      KeyDatedCopy(d, d, d, s.pendingRecords, map[], w, k);
    }
  }

  lemma WindowFresh(s: State)
    requires s.batch == [] && s.durable == |s.history| && s.pendingRecords == map[]
    ensures WindowInv(s)
  {
    MergedNothing(s);
    assert Waiting(s) == [];
  }

  /** A flush stores what the operations of the window make of the committed dates. */
  lemma WindowFlush(s: State, pending: nat)
    requires WindowInv(s)
    ensures var f := Flush(AsWritten, s);
            && WindowInv(f) && WindowInv(f.(pending := pending)) && f.batch == []
            && forall k :: k in f.db.records ==> DatedBy(s.db.records, Waiting(s), f.db.records, k)
  {
    hide Base, Dates, LastBelow, Unsaved, DatedBy;
    var f := Flush(AsWritten, s);
    FlushRecords(AsWritten, s);
    forall k | k in f.db.records ensures DatedBy(s.db.records, Waiting(s), f.db.records, k) {
      assert KeyDated(s.db.records, Merged(s).records, s.pendingRecords, Waiting(s), k);
    }
    if Idle(s) {
      WindowSame(s, f.(pending := pending));
    } else {
      WindowFresh(f);
      WindowFresh(f.(pending := pending));
    }
  }

  // ----- Every run

  /** The operation that the step takes from the channel. */
  function Taken(y: Sys, ev: Event): seq<Op> {
    if y.ch != [] && (ev.Deliver? || (ev.CrashInRecount? && Recounting(y))) then [y.ch[0]] else []
  }

  /** Nothing was stored, or what the window and the operations w make of it. */
  ghost predicate StoredBy(d: Records, w: seq<Op>, stored: Records) {
    stored == d || forall k :: k in stored ==> DatedBy(d, w, stored, k)
  }

  lemma WindowHandle(s: State, op: Op)
    requires Inv(s) && WindowInv(s)
    ensures WindowInv(Handle(AsWritten, s, op))
    ensures StoredBy(s.db.records, Waiting(s) + [op], Handle(AsWritten, s, op).db.records)
  {
    hide Inv, WindowInv, DatedBy, Flush, Apply, Recounted, Waiting;
    WindowBound(s);
    match op
    case Ingest(k, firstSeen, source) =>
      HandleIngestIs(AsWritten, s, op);
      WindowApply(s, op);
      WindowFlush(Counted(Apply(AsWritten, Note(s, op), k, firstSeen, source)), 0);
    case Advance(log, wm) =>
      WindowNote(s, op);
      WindowSame(Note(s, op), HandleAdvance(Note(s, op), log, wm));
    case Recount =>
      WindowNote(s, op);
      var f := Flush(AsWritten, Note(s, op));
      WindowFlush(Note(s, op), 0);
      RecountedKeeps(f.db, Apexes(f.db.records));
      WindowReset(f, HandleRecount(AsWritten, Note(s, op)));
  }

  lemma WindowBound(s: State)
    requires WindowInv(s)
    ensures s.durable <= |s.history|
  {
  }

  lemma WindowOpen(db: DB)
    ensures WindowInv(Open(db))
  {
    WindowFresh(Open(db));
  }

  lemma WindowStep(y: Sys, ev: Event)
    requires Inv(y.s) && WindowInv(y.s)
    ensures WindowInv(Step(AsWritten, y, ev).s)
    ensures StoredBy(y.s.db.records, Waiting(y.s) + Taken(y, ev), Step(AsWritten, y, ev).s.db.records)
  {
    hide Inv, WindowInv, DatedBy, Handle, Flush, Recounted, Waiting;
    WindowBound(y.s);
    assert Waiting(y.s) + [] == Waiting(y.s);
    match ev
    case Send(op) =>
    case Deliver => if y.ch != [] { WindowHandle(y.s, y.ch[0]); }
    case Timer => WindowFlush(y.s, 0);
    case Close => WindowSame(y.s, y.s.(closed := true));
    case Stop =>
      WindowFlush(y.s, 0);
      WindowOpen(Flush(AsWritten, y.s).db);
    case Crash => WindowOpen(y.s.db);
    case CrashInRecount(written) =>
      if Recounting(y) {
        WindowNote(y.s, Recount);
        var f := Flush(AsWritten, Note(y.s, Recount));
        WindowFlush(Note(y.s, Recount), 0);
        RecountedKeeps(f.db, written * Apexes(f.db.records));
        WindowOpen(Recounted(f.db, written * Apexes(f.db.records)));
      }
  }

  lemma {:induction false} RunWindow(y: Sys, events: seq<Event>)
    requires Inv(y.s) && WindowInv(y.s)
    ensures WindowInv(Run(AsWritten, y, events).s)
    decreases |events|
  {
    hide Inv, WindowInv, Step;
    if events != [] {
      var n := |events| - 1;
      RunInv(AsWritten, y, events[..n]);
      RunWindow(y, events[..n]);
      WindowStep(Run(AsWritten, y, events[..n]), events[n]);
    }
  }

  lemma BootWindow(db: DB, events: seq<Event>)
    requires ValidDB(db)
    ensures var s := Run(AsWritten, Boot(db), events).s; Inv(s) && WindowInv(s)
  {
    hide ValidDB, Inv, WindowInv, Run;
    InvOpen(db);
    WindowOpen(db);
    RunInv(AsWritten, Boot(db), events);
    RunWindow(Boot(db), events);
  }

  /** The last date below the base is the earliest if and only if no date is below it. */
  lemma {:induction false} EarliestIff(base: int, dates: seq<int>)
    ensures LastBelow(base, dates) == Earliest(base, dates)
            <==> forall i :: 0 <= i < |dates| ==> LastBelow(base, dates) <= dates[i]
    ensures LastBelow(base, dates) == base || LastBelow(base, dates) in dates
    ensures Earliest(base, dates) <= LastBelow(base, dates) <= base
    ensures Earliest(base, dates) == base || Earliest(base, dates) in dates
    ensures forall i :: 0 <= i < |dates| ==> Earliest(base, dates) <= dates[i]
    decreases |dates|
  {
    if dates != [] {
      var n := |dates| - 1;
      EarliestIff(base, dates[..n]);
      assert dates == dates[..n] + [dates[n]];
    }
  }

  /** As written, on every run and at every step: either nothing is committed, or each
      stored date is the last ingested date of the window below the date the window
      began with (the committed one, or a new name's first), or else that date; and it
      is the earliest if and only if the window ingested no date below it. */
  lemma {:induction false} CommittedDates(db: DB, events: seq<Event>, ev: Event, k: Key)
    requires ValidDB(db)
    requires k in Step(AsWritten, Run(AsWritten, Boot(db), events), ev).s.db.records
    ensures var y := Run(AsWritten, Boot(db), events);
            var d, stored := y.s.db.records, Step(AsWritten, y, ev).s.db.records;
            && y.s.durable <= |y.s.history|
            && (stored == d ||
                var w := y.s.history[y.s.durable..] + Taken(y, ev);
                var base, dates := Base(d, w, k), Dates(k, w);
                && base.Some? && stored[k].firstSeen == LastBelow(base.value, dates)
                && (stored[k].firstSeen == Earliest(base.value, dates)
                    <==> forall i :: 0 <= i < |dates| ==> stored[k].firstSeen <= dates[i]))
  {
    hide ValidDB, Inv, WindowInv, Run, Step, Base, Dates, LastBelow, Earliest;
    BootWindow(db, events);
    var y := Run(AsWritten, Boot(db), events);
    WindowBound(y.s);
    WindowStep(y, ev);
    var d, w, stored := y.s.db.records, Waiting(y.s) + Taken(y, ev), Step(AsWritten, y, ev).s.db.records;
    if stored != d {
      assert DatedBy(d, w, stored, k);
      EarliestIff(Base(d, w, k).value, Dates(k, w));
    }
  }

  /** As written, on every run: of the operations handled since the last commit, at most
      511 have left a write. */
  lemma {:induction false} FewAreUnsaved(db: DB, events: seq<Event>)
    requires ValidDB(db)
    ensures var s := Run(AsWritten, Boot(db), events).s;
            s.durable <= |s.history| && Unsaved(s.db.records, s.history[s.durable..]) <= 511
  {
    hide ValidDB, Inv, Run, Unsaved, Dated;
    BootWindow(db, events);
    WindowBound(Run(AsWritten, Boot(db), events).s);
    RunPaced(AsWritten, Boot(db), events);
  }

  /** Lowering dates arrive in non-increasing order. */
  predicate Descending(base: int, dates: seq<int>) {
    forall i, j :: 0 <= i < j < |dates| && dates[i] < base && dates[j] < base ==> dates[j] <= dates[i]
  }

  /** A sufficient order of arrival. */
  lemma {:induction false} DescendingIsEarliest(base: int, dates: seq<int>)
    requires Descending(base, dates)
    ensures LastBelow(base, dates) == Earliest(base, dates)
    decreases |dates|
  {
    if dates != [] {
      var n := |dates| - 1;
      DescendingIsEarliest(base, dates[..n]);
      EarliestIff(base, dates[..n]);
    }
  }

  /** The dates 10, 3 and 7, ingested in one window, are stored as 7. */
  lemma {:induction false} EarliestIsLost(k: Key, source: byte)
    ensures var a, b, c := Ingest(k, 10, source), Ingest(k, 3, source), Ingest(k, 7, source);
            var events := [Send(a), Deliver] + [Send(b), Deliver] + [Send(c), Deliver] + [Timer];
            var stored := Run(AsWritten, Boot(EmptyDB), events).s.db.records;
            k in stored && stored[k].firstSeen == 7
  {
    hide Run, Step, WindowInv, Tick;
    var a, b, c := Ingest(k, 10, source), Ingest(k, 3, source), Ingest(k, 7, source);
    var e1 := [Send(a), Deliver];
    var e2 := e1 + [Send(b), Deliver];
    var e3 := e2 + [Send(c), Deliver];
    var y := Boot(EmptyDB);
    NoEvents(AsWritten, y);
    assert [] + e1 == e1;
    OneMore(y, [], a);
    OneMore(y, e1, b);
    OneMore(y, e2, c);
    RunOne(AsWritten, y, e3, Timer);
    BootWindow(EmptyDB, e3);
    StoredAsSeven(Run(AsWritten, y, e3).s, a, b, c);
    TimerIs(Run(AsWritten, y, e3));
  }

  lemma TimerIs(y: Sys)
    ensures Step(AsWritten, y, Timer).s == Tick(AsWritten, y.s)
  {
  }

  /** One more ingest that does not fill the window. */
  lemma OneMore(y: Sys, events: seq<Event>, op: Op)
    requires var z := Run(AsWritten, y, events); z.ch == [] && op.Ingest? && z.s.pending < 511
    ensures var z, z' := Run(AsWritten, y, events), Run(AsWritten, y, events + [Send(op), Deliver]);
            && z'.ch == [] && z'.s.history == z.s.history + [op] && z'.s.durable == z.s.durable
            && z'.s.db == z.s.db && z'.s.pending == z.s.pending + 1
  {
    hide Run, Handle;
    TakeOne(AsWritten, y, events, op);
    SmallIngest(AsWritten, Run(AsWritten, y, events).s, op.key, op.firstSeen, op.source);
  }

  lemma StoredAsSeven(s: State, a: Op, b: Op, c: Op)
    requires WindowInv(s) && s.db == EmptyDB && s.history == [a, b, c] && s.durable == 0 && s.pending > 0
    requires a.Ingest? && b.Ingest? && c.Ingest? && a.key == b.key == c.key
    requires a.firstSeen == 10 && b.firstSeen == 3 && c.firstSeen == 7
    ensures var stored := Tick(AsWritten, s).db.records; a.key in stored && stored[a.key].firstSeen == 7
  {
    hide Merged;
    var k := a.key;
    assert Waiting(s) == [] + [a] + [b] + [c];
    DatesOne(k, [], a);
    DatesOne(k, [] + [a], b);
    DatesOne(k, [] + [a] + [b], c);
    assert Dates(k, Waiting(s)) == [10] + [3] + [7];
    LastBelowOne(10, [10] + [3], 7);
    assert KeyDated(s.db.records, Merged(s).records, s.pendingRecords, Waiting(s), k);
    FlushRecords(AsWritten, s);
  }

  // ----- Every stored date was ingested

  ghost predicate DatesFrom(src: set<(Key, int)>, records: Records) {
    forall k :: k in records ==> (k, records[k].firstSeen) in src
  }

  ghost predicate OpFrom(src: set<(Key, int)>, op: Op) {
    op.Ingest? ==> (op.key, op.firstSeen) in src
  }

  ghost predicate SourcedState(src: set<(Key, int)>, s: State) {
    DatesFrom(src, s.db.records) && DatesFrom(src, Merged(s).records)
  }

  lemma SourcedApply(fix: Repairs, src: set<(Key, int)>, s: State, k: Key, firstSeen: int, source: byte)
    requires Inv(s) && SourcedState(src, s) && (k, firstSeen) in src
    ensures SourcedState(src, Counted(Apply(fix, s, k, firstSeen, source)))
  {
    hide Merged, Inv;
    match Lookup(s, k)
    case None =>
      MergedIgnores(Insert(fix, s, k, firstSeen, source), Counted(Insert(fix, s, k, firstSeen, source)));
      MergedInsert(fix, s, k, firstSeen, source);
    case Some(st) =>
      InMerged(s, k, st);
      MergedRefreshed(fix, s, k, firstSeen, st);
  }

  lemma SourcedFlush(fix: Repairs, src: set<(Key, int)>, s: State, pending: nat)
    requires SourcedState(src, s)
    ensures SourcedState(src, Flush(fix, s)) && SourcedState(src, Flush(fix, s).(pending := pending))
  {
    hide DatesFrom;
    MergedIgnores(Flush(fix, s), Flush(fix, s).(pending := pending));
    if !Idle(s) {
      MergedNothing(Flush(fix, s));
    }
  }

  lemma SourcedSame(src: set<(Key, int)>, s: State, t: State)
    requires SourcedState(src, s) && t.batch == s.batch && t.db == s.db
    ensures SourcedState(src, t)
  {
    MergedIgnores(s, t);
  }

  lemma SourcedReset(src: set<(Key, int)>, s: State, t: State)
    requires SourcedState(src, s) && t.batch == [] && t.db.records == s.db.records
    ensures SourcedState(src, t)
  {
    MergedNothing(t);
  }

  lemma SourcedHandle(fix: Repairs, src: set<(Key, int)>, s: State, op: Op)
    requires Inv(s) && SourcedState(src, s) && OpFrom(src, op)
    ensures SourcedState(src, Handle(fix, s, op))
  {
    hide SourcedState, Inv, Apply, Flush, Recounted;
    var t := s.(history := s.history + [op]);
    InvHistory(s, op);
    SourcedSame(src, s, t);
    match op
    case Ingest(k, firstSeen, source) =>
      SourcedApply(fix, src, t, k, firstSeen, source);
      SourcedFlush(fix, src, Counted(Apply(fix, t, k, firstSeen, source)), 0);
    case Advance(log, wm) => SourcedSame(src, t, HandleAdvance(t, log, wm));
    case Recount =>
      SourcedFlush(fix, src, t, 0);
      RecountedKeeps(Flush(fix, t).db, Apexes(Flush(fix, t).db.records));
      SourcedReset(src, Flush(fix, t), HandleRecount(fix, t));
  }

  ghost predicate Sourced(src: set<(Key, int)>, y: Sys) {
    SourcedState(src, y.s) && forall i :: 0 <= i < |y.ch| ==> OpFrom(src, y.ch[i])
  }

  lemma SourcedStep(fix: Repairs, src: set<(Key, int)>, y: Sys, ev: Event)
    requires Inv(y.s) && Sourced(src, y) && (ev.Send? ==> OpFrom(src, ev.op))
    ensures Sourced(src, Step(fix, y, ev))
  {
    hide SourcedState, Inv, Handle, Flush, Recounted, OpFrom;
    match ev
    case Send(op) =>
    case Deliver => if y.ch != [] { SourcedHandle(fix, src, y.s, y.ch[0]); }
    case Timer => SourcedFlush(fix, src, y.s, 0);
    case Close => SourcedSame(src, y.s, y.s.(closed := true));
    case Stop =>
      SourcedFlush(fix, src, y.s, 0);
      SourcedReset(src, Flush(fix, y.s), Open(Flush(fix, y.s).db));
    case Crash => SourcedReset(src, y.s, Open(y.s.db));
    case CrashInRecount(written) =>
      var t := y.s.(history := y.s.history + [Recount]);
      var f := Flush(fix, t);
      SourcedSame(src, y.s, t);
      SourcedFlush(fix, src, t, 0);
      RecountedKeeps(f.db, written * Apexes(f.db.records));
      SourcedReset(src, f, Open(Recounted(f.db, written * Apexes(f.db.records))));
  }

  lemma {:induction false} RunSourced(fix: Repairs, src: set<(Key, int)>, y: Sys, events: seq<Event>)
    requires Inv(y.s) && Sourced(src, y)
    requires forall i :: 0 <= i < |events| && events[i].Send? ==> OpFrom(src, events[i].op)
    ensures Sourced(src, Run(fix, y, events))
    decreases |events|
  {
    hide Sourced, Inv, Step, OpFrom;
    if events != [] {
      var n := |events| - 1;
      RunInv(fix, y, events[..n]);
      RunSourced(fix, src, y, events[..n]);
      SourcedStep(fix, src, Run(fix, y, events[..n]), events[n]);
    }
  }

  /** On every run, each stored date was ingested for its key (or was there before). */
  lemma DatesWereIngested(fix: Repairs, src: set<(Key, int)>, db: DB, events: seq<Event>)
    requires ValidDB(db) && DatesFrom(src, db.records)
    requires forall i :: 0 <= i < |events| && events[i].Send? ==> OpFrom(src, events[i].op)
    ensures DatesFrom(src, Run(fix, Boot(db), events).s.db.records)
  {
    hide ValidDB, Run, OpFrom, DatesFrom;
    InvOpen(db);
    MergedNothing(Open(db));
    RunSourced(fix, src, Boot(db), events);
  }
}
