/** One apex's counter over whole runs: exactly when it is the number of records. */
module StoreCounts {
  import opened ByteStrings
  import opened StoreModel
  import opened StoreInvariants
  import opened StoreRuns
  import opened StoreCounters

  /** A tally of one apex's misses, kept from outside the store. A miss is a new name of the
      apex that is handled when its counter cannot be found. */
  datatype Tally = Tally(
    right: bool,       // the counter was right at the start, or has been recounted since
    stored: nat,       // misses committed since then
    open: nat)         // misses in the open window

  predicate RightFor(db: DB, a: Bytes) { Num(db.counts, a) == CountOf(db.records, a) }

  /** The loop handles a new name of the apex after `closed` is set, with the counter not
      cached and one stored. */
  predicate Misses(fix: Repairs, y: Sys, ev: Event, a: Bytes) {
    ev.Deliver? && y.ch != [] && y.ch[0].Ingest? && y.ch[0].key.apex == a && Lookup(y.s, y.ch[0].key) == None
    && y.s.closed && !fix.counts && a !in y.s.pendingCounts && Num(y.s.db.counts, a) != 0
  }

  function Begin(db: DB, a: Bytes): Tally { Tally(RightFor(db, a), 0, 0) }

  function Noted(t: Tally, miss: bool, committed: bool): Tally {
    var n := t.open + if miss then 1 else 0;
    if committed then t.(stored := t.stored + n, open := 0) else t.(open := n)
  }

  /** A recount, complete or far enough to have written this apex's counter. */
  predicate Recounts(y: Sys, ev: Event, a: Bytes) {
    Recounting(y) && (ev.Deliver? || (ev.CrashInRecount? && a in ev.written))
  }

  function Tallied(fix: Repairs, y: Sys, events: seq<Event>, a: Bytes): Tally {
    if events == [] then Begin(y.s.db, a)
    else
      var n := |events| - 1;
      Next(fix, Run(fix, y, events[..n]), events[n], a, Tallied(fix, y, events[..n], a))
  }

  /** A recount starts a new tally, a crash loses the open window, and a commit stores it. */
  function Next(fix: Repairs, y: Sys, ev: Event, a: Bytes, t: Tally): Tally {
    if Recounts(y, ev, a) then Tally(true, 0, 0)
    else if ev.Crash? then t.(open := 0)
    else Noted(t, Misses(fix, y, ev, a), Step(fix, y, ev).s.batch == [])
  }

  ghost predicate TallyInv(s: State, a: Bytes, t: Tally) {
    && (RightFor(s.db, a) <==> t.right && t.stored == 0)
    && (RightFor(Merged(s), a) <==> t.right && t.stored + t.open == 0)
    && (s.batch == [] ==> t.open == 0)
  }

  // ----- Each step keeps the tally

  lemma TallyApply(fix: Repairs, s: State, a: Bytes, t: Tally, k: Key, firstSeen: int, source: byte)
    requires Inv(s) && CountsInv(false, s) && TallyInv(s, a, t)
    ensures var miss := k.apex == a && Lookup(s, k) == None && !CountSafe(fix, s, Ingest(k, firstSeen, source));
            TallyInv(Counted(Apply(fix, s, k, firstSeen, source)), a, Noted(t, miss, false))
  {
    hide Merged, Inv, Insert, Refresh, CountsInv, TallyInv, CountSafe;
    match Lookup(s, k)
    case None => TallyInsert(fix, s, a, t, k, firstSeen, source);
    case Some(st) =>
      InMerged(s, k, st);
      TallyRefresh(fix, s, a, t, k, firstSeen, st);
  }

  lemma TallyRefresh(fix: Repairs, s: State, a: Bytes, t: Tally, k: Key, firstSeen: int, st: Rec)
    requires TallyInv(s, a, t) && k in Merged(s).records
    ensures TallyInv(Counted(Refresh(fix, s, k, firstSeen, st)), a, t)
  {
    hide Merged, CountOf;
    var u := Counted(Refresh(fix, s, k, firstSeen, st));
    RefreshKeeps(fix, s, k, firstSeen, st);
    CountSameKeys(Merged(s).records, Merged(u).records, a);
  }

  lemma TallyInsert(fix: Repairs, s: State, a: Bytes, t: Tally, k: Key, firstSeen: int, source: byte)
    requires Inv(s) && CountsInv(false, s) && TallyInv(s, a, t) && Lookup(s, k) == None
    ensures var miss := k.apex == a && !CountSafe(fix, s, Ingest(k, firstSeen, source));
            TallyInv(Counted(Insert(fix, s, k, firstSeen, source)), a, Noted(t, miss, false))
  {
    hide Merged, Inv, CountOf, CountSafe, PendingCount, CacheCounts, Lookup;
    var m, u := Merged(s), Insert(fix, s, k, firstSeen, source);
    Unmerged(s, k);
    PendingCountBound(fix, s, k, firstSeen, source);
    MergedIgnores(u, Counted(u));
    MergedInsert(fix, s, k, firstSeen, source);
    CountInsert(m.records, k, Rec(firstSeen, source, s.seqno + 1), a);
    assert Num(m.counts, a) <= CountOf(m.records, a);
  }

  lemma TallyFlush(fix: Repairs, s: State, a: Bytes, t: Tally, pending: nat)
    requires TallyInv(s, a, t)
    ensures var f := Flush(fix, s);
            && f.batch == []
            && TallyInv(f, a, Noted(t, false, true)) && TallyInv(f.(pending := pending), a, Noted(t, false, true))
  {
    hide CountOf;
    var f := Flush(fix, s);
    MergedNothing(f);
    MergedNothing(f.(pending := pending));
    FlushRecords(fix, s);
  }

  lemma TallySame(s: State, u: State, a: Bytes, t: Tally)
    requires TallyInv(s, a, t) && u.db == s.db && u.batch == s.batch
    ensures TallyInv(u, a, t)
  {
    MergedIgnores(s, u);
  }

  lemma TallyFresh(s: State, a: Bytes, t: Tally)
    requires s.batch == [] && t.open == 0 && (RightFor(s.db, a) <==> t.right && t.stored == 0)
    ensures TallyInv(s, a, t)
  {
    MergedNothing(s);
  }

  lemma TallyParts(s: State, a: Bytes, t: Tally)
    requires TallyInv(s, a, t)
    ensures RightFor(s.db, a) <==> t.right && t.stored == 0
    ensures RightFor(Merged(s), a) <==> t.right && t.stored + t.open == 0
    ensures s.batch == [] ==> t.open == 0
  {
  }

  lemma NotedTwice(t: Tally, miss: bool)
    ensures Noted(Noted(t, miss, false), false, true) == Noted(t, miss, true)
    ensures Noted(t, miss, false).open == 0 ==> Noted(t, miss, true) == Noted(t, miss, false)
    ensures t.open == 0 ==> Noted(t, false, true) == t
    ensures Noted(t, false, false) == t
  {
  }

  lemma TallyIngest(fix: Repairs, s: State, a: Bytes, t: Tally, op: Op)
    requires Inv(s) && CountsInv(false, s) && TallyInv(s, a, t) && op.Ingest?
    ensures var u := Handle(fix, s, op);
            var miss := op.key.apex == a && Lookup(s, op.key) == None && !CountSafe(fix, s, op);
            TallyInv(u, a, Noted(t, miss, u.batch == []))
  {
    hide Inv, CountsInv, TallyInv, Flush, Apply, Noted, Handle, Counted, CountSafe, Lookup;
    var h := s.(history := s.history + [op]);
    var miss := op.key.apex == a && Lookup(s, op.key) == None && !CountSafe(fix, s, op);
    HandleIngestIs(fix, s, op);
    InvHistory(s, op);
    CountsSame(false, s, h);
    TallySame(s, h, a, t);
    SafeSame(fix, s, h, op);
    TallyApply(fix, h, a, t, op.key, op.firstSeen, op.source);
    var u := Counted(Apply(fix, h, op.key, op.firstSeen, op.source));
    TallyFlush(fix, u, a, Noted(t, miss, false), 0);
    TallyParts(u, a, Noted(t, miss, false));
    NotedTwice(t, miss);
  }

  lemma SafeSame(fix: Repairs, s: State, h: State, op: Op)
    requires op.Ingest? && h == s.(history := h.history)
    ensures Lookup(h, op.key) == Lookup(s, op.key)
    ensures CountSafe(fix, h, Ingest(op.key, op.firstSeen, op.source)) == CountSafe(fix, s, op)
  {
  }

  /** A recount sets the counters it writes to the truth; without strays that is all of
      them. */
  lemma RecountedRight(db: DB, apexes: set<Bytes>, a: Bytes)
    requires Bounded(false, db.counts, db.records)
    ensures var some := apexes * Apexes(db.records);
            RightFor(Recounted(db, some), a) <==> a in apexes || RightFor(db, a)
  {
    hide CountOf, Apexes, Recounted;
    RecountedNum(db, apexes * Apexes(db.records), a);
    RecountedKeeps(db, apexes * Apexes(db.records));
    CountZero(db.records, a);
    assert Num(db.counts, a) <= CountOf(db.records, a);
  }

  lemma RecountedAll(fix: Repairs, s: State, a: Bytes)
    requires CountsInv(false, s)
    ensures TallyInv(Handle(fix, s, Recount), a, Tally(true, 0, 0))
  {
    hide CountOf, Flush, Recounted, Bounded, CountsInv, Merged, CacheCounts;
    var h := s.(history := s.history + [Recount]);
    var f, t := Flush(fix, h), Handle(fix, s, Recount);
    CountsSame(false, s, h);
    CountsFlush(false, fix, h, 0);
    CountsBound(f);
    RecountedRight(f.db, Apexes(f.db.records) + {a}, a);
    Restricted(f.db, a);
    RecountedKeeps(f.db, Apexes(f.db.records));
    TallyFresh(t, a, Tally(true, 0, 0));
  }

  lemma Restricted(db: DB, a: Bytes)
    ensures (Apexes(db.records) + {a}) * Apexes(db.records) == Apexes(db.records)
  {
  }

  lemma CountsBound(s: State)
    requires CountsInv(false, s)
    ensures Bounded(false, s.db.counts, s.db.records)
  {
    hide Bounded, CacheCounts;
  }

  lemma TallyDeliver(fix: Repairs, y: Sys, a: Bytes, t: Tally)
    requires Inv(y.s) && CountsInv(false, y.s) && TallyInv(y.s, a, t) && y.ch != []
    ensures TallyInv(Step(fix, y, Deliver).s, a, Next(fix, y, Deliver, a, t))
  {
    hide Inv, CountsInv, TallyInv, Handle, Noted, Lookup;
    var op := y.ch[0];
    match op
    case Ingest(k, firstSeen, source) =>
      TallyIngest(fix, y.s, a, t, op);
    case Advance(log, wm) =>
      TallyAdvance(fix, y.s, a, t, log, wm);
    case Recount => RecountedAll(fix, y.s, a);
  }

  lemma TallyAdvance(fix: Repairs, s: State, a: Bytes, t: Tally, log: Bytes, wm: int)
    requires TallyInv(s, a, t)
    ensures var u := Handle(fix, s, Advance(log, wm)); TallyInv(u, a, Noted(t, false, u.batch == []))
  {
    hide TallyInv, Noted;
    var u := Handle(fix, s, Advance(log, wm));
    TallySame(s, u, a, t);
    TallyParts(u, a, t);
    NotedTwice(t, false);
  }

  lemma TallyStep(fix: Repairs, y: Sys, ev: Event, a: Bytes, t: Tally)
    requires Inv(y.s) && CountsInv(false, y.s) && TallyInv(y.s, a, t)
    ensures TallyInv(Step(fix, y, ev).s, a, Next(fix, y, ev, a, t))
  {
    hide Inv, CountsInv, TallyInv, Handle, Flush, Noted, Recounted, RightFor, CountOf, Apexes;
    TallyParts(y.s, a, t);
    NotedTwice(t, false);
    TallyFlush(fix, y.s, a, t, 0);
    match ev
    case Send(op) =>
    case Deliver => if y.ch != [] { TallyDeliver(fix, y, a, t); }
    case Timer => TickIs(fix, y.s);
    case Close => TallySame(y.s, y.s.(closed := true), a, t);
    case Stop =>
      if y.s.closed {
        TallyParts(Flush(fix, y.s), a, Noted(t, false, true));
        TallyFresh(Open(Flush(fix, y.s).db), a, Noted(t, false, true));
      }
    case Crash => TallyFresh(Open(y.s.db), a, t.(open := 0));
    case CrashInRecount(written) => if Recounting(y) { TallyCrash(fix, y, a, t, written); }
  }

  lemma TickIs(fix: Repairs, s: State)
    ensures Tick(fix, s) == s || Tick(fix, s) == Flush(fix, s).(pending := 0)
  {
  }

  lemma TallyCrash(fix: Repairs, y: Sys, a: Bytes, t: Tally, written: set<Bytes>)
    requires CountsInv(false, y.s) && TallyInv(y.s, a, t) && Recounting(y)
    ensures TallyInv(Step(fix, y, CrashInRecount(written)).s, a, Next(fix, y, CrashInRecount(written), a, t))
  {
    hide CountsInv, TallyInv, Flush, Recounted, CountOf, Apexes, Bounded;
    var h := y.s.(history := y.s.history + [Recount]);
    var f, u := Flush(fix, h), Noted(t, false, true);
    CountsSame(false, y.s, h);
    CountsFlush(false, fix, h, 0);
    CountsBound(f);
    TallySame(y.s, h, a, t);
    TallyFlush(fix, h, a, t, 0);
    TallyParts(f, a, u);
    RecountedRight(f.db, written, a);
    var db := Recounted(f.db, written * Apexes(f.db.records));
    TallyFresh(Open(db), a, if a in written then Tally(true, 0, 0) else u);
  }

  lemma {:induction false} RunTally(fix: Repairs, y: Sys, events: seq<Event>, a: Bytes)
    requires Inv(y.s) && CountersInv(false, false, y.s) && TallyInv(y.s, a, Begin(y.s.db, a))
    ensures TallyInv(Run(fix, y, events).s, a, Tallied(fix, y, events, a))
    decreases |events|
  {
    hide Inv, CountsInv, TotalsInv, TallyInv, Step, Begin, Next;
    if events != [] {
      var n := |events| - 1;
      RunInv(fix, y, events[..n]);
      RunCounters(false, false, fix, y, events[..n]);
      RunTally(fix, y, events[..n], a);
      TallyStep(fix, Run(fix, y, events[..n]), events[n], a, Tallied(fix, y, events[..n], a));
    }
  }

  /** On every run from a database that does not over-report, an apex's counter is the
      number of its records if and only if it was right at the start, or has been recounted,
      and no new name since has missed it; misses in the open window count for the merged
      view, and for the database once they are committed. */
  lemma {:induction false} CounterExactIff(fix: Repairs, db: DB, events: seq<Event>, a: Bytes)
    requires ValidDB(db) && Bounded(false, db.counts, db.records) && db.total <= |db.records|
    ensures var s, t := Run(fix, Boot(db), events).s, Tallied(fix, Boot(db), events, a);
            && (Num(s.db.counts, a) == CountOf(s.db.records, a) <==> t.right && t.stored == 0)
            && (Num(Merged(s).counts, a) == CountOf(Merged(s).records, a) <==> t.right && t.stored + t.open == 0)
  {
    hide ValidDB, Bounded, Inv, Run, Tallied, TallyInv, CountersInv, CountOf;
    InvOpen(db);
    CountersOpen(false, false, db);
    TallyFresh(Open(db), a, Begin(db, a));
    RunTally(fix, Boot(db), events, a);
    TallyParts(Run(fix, Boot(db), events).s, a, Tallied(fix, Boot(db), events, a));
  }
}
