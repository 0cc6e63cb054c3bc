/** The per-apex counters and the total: never above the truth, exact under
    stated conditions, and repaired by Recount. */
module StoreCounters {
  import opened ByteStrings
  import opened StoreModel
  import opened StoreInvariants
  import opened StoreRuns

  /** No counter exceeds the number of records of its apex; none falls short when `exact`. */
  ghost predicate Bounded(exact: bool, counts: map<Bytes, nat>, records: Records) {
    forall a :: Num(counts, a) <= CountOf(records, a) && (exact ==> Num(counts, a) == CountOf(records, a))
  }

  /** The counter cache holds the merged counters, and covers every one the batch changed. */
  ghost predicate CacheCounts(d: map<Bytes, nat>, m: map<Bytes, nat>, p: map<Bytes, nat>) {
    && (forall a :: a in p ==> p[a] == Num(m, a))
    && (forall a :: a !in p ==> Num(m, a) == Num(d, a))
  }

  ghost predicate CountsInv(exact: bool, s: State) {
    && Bounded(exact, s.db.counts, s.db.records)
    && Bounded(exact, Merged(s).counts, Merged(s).records)
    && CacheCounts(s.db.counts, Merged(s).counts, s.pendingCounts)
  }

  /** `base` plus the inserts of the open window account for the records. */
  ghost predicate TotalsInv(exact: bool, s: State) {
    && s.db.total <= |s.db.records| && (exact ==> s.db.total == |s.db.records|)
    && Merged(s).total <= |Merged(s).records| && (exact ==> Merged(s).total == |Merged(s).records|)
    && s.totalBase + s.pendingTotal <= |Merged(s).records|
    && (exact ==> s.totalBase + s.pendingTotal == |Merged(s).records|)
  }

  // ----- Counting

  lemma CountInsert(records: Records, k: Key, r: Rec, a: Bytes)
    requires k !in records
    ensures CountOf(records[k := r], a) == CountOf(records, a) + if a == k.apex then 1 else 0
    ensures |records[k := r]| == |records| + 1
  {
    var s, t := RecordsOf(records, a), RecordsOf(records[k := r], a);
    if a == k.apex {
      assert t == s + {k};
    } else {
      assert t == s;
    }
  }

  lemma CountSameKeys(records: Records, records': Records, a: Bytes)
    requires records.Keys == records'.Keys
    ensures CountOf(records, a) == CountOf(records', a) && |records| == |records'|
  {
    assert RecordsOf(records, a) == RecordsOf(records', a);
    assert |records.Keys| == |records'.Keys|;
  }

  lemma BoundedInsert(exact: bool, counts: map<Bytes, nat>, records: Records, k: Key, r: Rec, n: nat)
    requires Bounded(exact, counts, records) && k !in records
    requires n <= Num(counts, k.apex) && (exact ==> n == Num(counts, k.apex))
    ensures Bounded(exact, counts[k.apex := n + 1], records[k := r])
  {
    hide CountOf;
    var counts', records' := counts[k.apex := n + 1], records[k := r];
    forall a
      ensures Num(counts', a) <= CountOf(records', a) && (exact ==> Num(counts', a) == CountOf(records', a))
    {
      CountInsert(records, k, r, a);
    }
  }

  lemma BoundedSameKeys(exact: bool, counts: map<Bytes, nat>, records: Records, records': Records)
    requires Bounded(exact, counts, records) && records.Keys == records'.Keys
    ensures Bounded(exact, counts, records')
  {
    hide CountOf;
    forall a ensures CountOf(records, a) == CountOf(records', a) { CountSameKeys(records, records', a); }
  }

  // ----- One operation

  /** The insert finds the true counter: it is cached, or the database may be read,
      or the database has none. */
  ghost predicate CountSafe(fix: Repairs, s: State, op: Op) {
    op.Ingest? && Lookup(s, op.key) == None ==>
      fix.counts || !s.closed || op.key.apex in s.pendingCounts || Num(s.db.counts, op.key.apex) == 0
  }

  lemma PendingCountBound(fix: Repairs, s: State, k: Key, firstSeen: int, source: byte)
    requires CacheCounts(s.db.counts, Merged(s).counts, s.pendingCounts) && Lookup(s, k) == None
    ensures PendingCount(fix, s, k.apex) <= Num(Merged(s).counts, k.apex)
    ensures PendingCount(fix, s, k.apex) == Num(Merged(s).counts, k.apex)
            <==> CountSafe(fix, s, Ingest(k, firstSeen, source))
  {
    hide Merged;
  }

  lemma CacheInsert(d: map<Bytes, nat>, m: map<Bytes, nat>, p: map<Bytes, nat>, a: Bytes, n: nat)
    requires CacheCounts(d, m, p)
    ensures CacheCounts(d, m[a := n], p[a := n])
  {
  }

  lemma CountsInsert(exact: bool, fix: Repairs, s: State, k: Key, firstSeen: int, source: byte)
    requires Inv(s) && CountsInv(exact, s) && Lookup(s, k) == None
    requires exact ==> CountSafe(fix, s, Ingest(k, firstSeen, source))
    ensures CountsInv(exact, Counted(Insert(fix, s, k, firstSeen, source)))
  {
    hide Merged, Bounded, CacheCounts, CountSafe, Lookup, PendingCount, Inv;
    var m, t := Merged(s), Insert(fix, s, k, firstSeen, source);
    var n := PendingCount(fix, s, k.apex);
    Unmerged(s, k);
    PendingCountBound(fix, s, k, firstSeen, source);
    MergedIgnores(t, Counted(t));
    MergedInsert(fix, s, k, firstSeen, source);
    BoundedInsert(exact, m.counts, m.records, k, Rec(firstSeen, source, s.seqno + 1), n);
    CacheInsert(s.db.counts, m.counts, s.pendingCounts, k.apex, n + 1);
  }

  /** A refresh changes at most the date of a stored record. */
  lemma RefreshKeeps(fix: Repairs, s: State, k: Key, firstSeen: int, st: Rec)
    requires k in Merged(s).records
    ensures var m, t := Merged(s), Counted(Refresh(fix, s, k, firstSeen, st));
            && Merged(t).records.Keys == m.records.Keys && Merged(t).counts == m.counts && Merged(t).total == m.total
            && t.db == s.db && t.pendingCounts == s.pendingCounts
            && t.totalBase == s.totalBase && t.pendingTotal == s.pendingTotal
  {
    hide Merged;
    var t := Refresh(fix, s, k, firstSeen, st);
    MergedIgnores(t, Counted(t));
    MergedRefresh(fix, s, k, firstSeen, st);
    var m := Merged(s).records;
    assert m[k := st.(firstSeen := firstSeen)].Keys == m.Keys;
  }

  lemma CountsApply(exact: bool, fix: Repairs, s: State, k: Key, firstSeen: int, source: byte)
    requires Inv(s) && CountsInv(exact, s)
    requires exact ==> CountSafe(fix, s, Ingest(k, firstSeen, source))
    ensures CountsInv(exact, Counted(Apply(fix, s, k, firstSeen, source)))
  {
    hide Merged, Bounded, CacheCounts, CountSafe, Inv, Insert, Refresh;
    match Lookup(s, k)
    case None => CountsInsert(exact, fix, s, k, firstSeen, source);
    case Some(st) =>
      InMerged(s, k, st);
      RefreshKeeps(fix, s, k, firstSeen, st);
      BoundedSameKeys(exact, Merged(s).counts, Merged(s).records,
        Merged(Counted(Refresh(fix, s, k, firstSeen, st))).records);
  }

  lemma CountsFlush(exact: bool, fix: Repairs, s: State, pending: nat)
    requires CountsInv(exact, s)
    ensures CountsInv(exact, Flush(fix, s)) && CountsInv(exact, Flush(fix, s).(pending := pending))
  {
    hide Bounded;
    MergedIgnores(Flush(fix, s), Flush(fix, s).(pending := pending));
    if !Idle(s) {
      MergedNothing(Flush(fix, s));
    }
  }

  lemma CountsSame(exact: bool, s: State, t: State)
    requires CountsInv(exact, s) && t.db == s.db && t.batch == s.batch && t.pendingCounts == s.pendingCounts
    ensures CountsInv(exact, t)
  {
    MergedIgnores(s, t);
  }

  // ----- Recount

  /** Every counter in the database belongs to an apex with records, or is zero. */
  ghost predicate NoStrayCounts(db: DB) {
    forall a :: a in db.counts && a !in Apexes(db.records) ==> db.counts[a] == 0
  }

  lemma CountZero(records: Records, a: Bytes)
    ensures CountOf(records, a) == 0 <==> a !in Apexes(records)
  {
    if CountOf(records, a) == 0 {
      assert RecordsOf(records, a) == {};
      forall k | k in records ensures k.apex != a { assert k !in RecordsOf(records, a); }
    } else {
      assert RecordsOf(records, a) != {};
      var k :| k in RecordsOf(records, a);
    }
  }

  lemma RecountedNum(db: DB, apexes: set<Bytes>, a: Bytes)
    ensures Num(Recounted(db, apexes).counts, a) == if a in apexes then CountOf(db.records, a) else Num(db.counts, a)
  {
    hide CountOf;
  }

  /** Recount makes every counter exact if and only if no stray counter is there. */
  lemma RecountExactIff(db: DB)
    ensures Bounded(true, Recounted(db, Apexes(db.records)).counts, db.records) <==> NoStrayCounts(db)
  {
    hide CountOf, Apexes, Recounted;
    var counts := Recounted(db, Apexes(db.records)).counts;
    forall a ensures Num(counts, a) == CountOf(db.records, a) <==> (a in Apexes(db.records) || Num(db.counts, a) == 0) {
      RecountedNum(db, Apexes(db.records), a);
      CountZero(db.records, a);
    }
    if NoStrayCounts(db) {
      forall a ensures Num(counts, a) == CountOf(db.records, a) { }
    } else {
      var a :| a in db.counts && a !in Apexes(db.records) && db.counts[a] != 0;
      assert Num(counts, a) != CountOf(db.records, a);
    }
  }

  /** A recount cut short leaves each counter old or exact, and running it again
      reaches the counters that an uninterrupted recount reaches. */
  lemma {:induction false} RecountConverges(db: DB, written: set<Bytes>)
    requires written <= Apexes(db.records)
    ensures forall a :: var n := Num(Recounted(db, written).counts, a);
                        n == Num(db.counts, a) || n == CountOf(db.records, a)
    ensures Recounted(Recounted(db, written), Apexes(db.records)) == Recounted(db, Apexes(db.records))
  {
    hide CountOf, Apexes;
    forall a ensures var n := Num(Recounted(db, written).counts, a);
           n == Num(db.counts, a) || n == CountOf(db.records, a) {
      RecountedNum(db, written, a);
    }
    var x, y := Recounted(Recounted(db, written), Apexes(db.records)).counts, Recounted(db, Apexes(db.records)).counts;
    assert x.Keys == y.Keys;
    assert forall a :: a in x ==> x[a] == y[a];
  }

  lemma BoundedRecounted(exact: bool, db: DB, apexes: set<Bytes>)
    requires Bounded(exact, db.counts, db.records)
    ensures Bounded(exact, Recounted(db, apexes).counts, db.records)
  {
    hide CountOf, Recounted;
    forall a ensures Num(Recounted(db, apexes).counts, a) <= CountOf(db.records, a)
             ensures exact ==> Num(Recounted(db, apexes).counts, a) == CountOf(db.records, a)
    {
      RecountedNum(db, apexes, a);
    }
  }

  lemma CountsReset(exact: bool, s: State)
    requires Bounded(exact, s.db.counts, s.db.records) && s.batch == []
    ensures CountsInv(exact, s.(pendingCounts := map[]))
  {
    hide Bounded;
    MergedNothing(s.(pendingCounts := map[]));
  }

  lemma CountsRecount(exact: bool, fix: Repairs, s: State)
    requires CountsInv(exact, s)
    ensures CountsInv(exact, HandleRecount(fix, s))
  {
    hide Bounded, Recounted, Flush, CacheCounts;
    var f, t := Flush(fix, s), HandleRecount(fix, s);
    CountsFlush(exact, fix, s, 0);
    RecountedKeeps(f.db, Apexes(f.db.records));
    BoundedRecounted(exact, f.db, Apexes(f.db.records));
    CountsReset(exact, t);
    assert t == t.(pendingCounts := map[]);
  }

  /** After a recount that meets no stray counter everything is exact, however far
      the counters had drifted, and no record has changed. */
  lemma {:induction false} RecountRepairs(fix: Repairs, s: State)
    requires Inv(s)
    ensures var f, t := Flush(fix, s), HandleRecount(fix, s);
            && t.db.records == f.db.records
            && (CountsInv(true, t) <==> NoStrayCounts(f.db))
            && TotalsInv(true, t)
  {
    hide Bounded, Recounted, Flush, NoStrayCounts, Inv;
    var f, t := Flush(fix, s), HandleRecount(fix, s);
    RecountedKeeps(f.db, Apexes(f.db.records));
    RecountExactIff(f.db);
    MergedNothing(t);
    if Bounded(true, t.db.counts, t.db.records) {
      CountsReset(true, t);
      assert t == t.(pendingCounts := map[]);
    }
  }

  // ----- The total

  lemma TotalAfterInsert(fix: Repairs, s: State, k: Key, firstSeen: int, source: byte)
    requires Inv(s) && Lookup(s, k) == None
    ensures var t := Counted(Insert(fix, s, k, firstSeen, source));
            && Merged(t).total == t.totalBase + t.pendingTotal == s.totalBase + s.pendingTotal + 1
            && |Merged(t).records| == |Merged(s).records| + 1 && t.db == s.db
  {
    hide Merged, Inv;
    var t := Insert(fix, s, k, firstSeen, source);
    MergedIgnores(t, Counted(t));
    MergedInsert(fix, s, k, firstSeen, source);
    Unmerged(s, k);
    CountInsert(Merged(s).records, k, Rec(firstSeen, source, s.seqno + 1), k.apex);
  }

  lemma TotalsInsert(exact: bool, fix: Repairs, s: State, k: Key, firstSeen: int, source: byte)
    requires Inv(s) && TotalsInv(exact, s) && Lookup(s, k) == None
    ensures TotalsInv(exact, Counted(Insert(fix, s, k, firstSeen, source)))
  {
    hide Merged, Inv;
    TotalAfterInsert(fix, s, k, firstSeen, source);
  }

  lemma TotalsApply(exact: bool, fix: Repairs, s: State, k: Key, firstSeen: int, source: byte)
    requires Inv(s) && TotalsInv(exact, s)
    ensures TotalsInv(exact, Counted(Apply(fix, s, k, firstSeen, source)))
  {
    hide Merged, Inv, Insert, Refresh;
    match Lookup(s, k)
    case None => TotalsInsert(exact, fix, s, k, firstSeen, source);
    case Some(st) =>
      InMerged(s, k, st);
      RefreshKeeps(fix, s, k, firstSeen, st);
      CountSameKeys(Merged(s).records, Merged(Counted(Refresh(fix, s, k, firstSeen, st))).records, k.apex);
  }

  lemma TotalsFlush(exact: bool, fix: Repairs, s: State, pending: nat)
    requires TotalsInv(exact, s) && (exact ==> fix.total)
    ensures TotalsInv(exact, Flush(fix, s)) && TotalsInv(exact, Flush(fix, s).(pending := pending))
  {
    MergedIgnores(Flush(fix, s), Flush(fix, s).(pending := pending));
    if !Idle(s) {
      MergedNothing(Flush(fix, s));
    }
  }

  lemma TotalsSame(exact: bool, s: State, t: State)
    requires TotalsInv(exact, s) && t.db == s.db && t.batch == s.batch
    requires t.totalBase == s.totalBase && t.pendingTotal == s.pendingTotal
    ensures TotalsInv(exact, t)
  {
    MergedIgnores(s, t);
  }

  // ----- Every run

  /** Counters and total together; `ec` and `et` say which are exact. */
  ghost predicate CountersInv(ec: bool, et: bool, s: State) { CountsInv(ec, s) && TotalsInv(et, s) }

  ghost predicate CountersSafe(fix: Repairs, y: Sys, ev: Event) {
    ev.Deliver? && y.ch != [] ==> CountSafe(fix, y.s, y.ch[0])
  }

  lemma CountersHandle(ec: bool, et: bool, fix: Repairs, s: State, op: Op)
    requires Inv(s) && CountersInv(ec, et, s) && (ec ==> CountSafe(fix, s, op)) && (et ==> fix.total)
    ensures CountersInv(ec, et, Handle(fix, s, op))
  {
    hide CountsInv, TotalsInv, Inv, Flush, Apply, HandleRecount;
    var t := s.(history := s.history + [op]);
    InvHistory(s, op);
    CountsSame(ec, s, t);
    TotalsSame(et, s, t);
    match op
    case Ingest(k, firstSeen, source) =>
      CountsApply(ec, fix, t, k, firstSeen, source);
      TotalsApply(et, fix, t, k, firstSeen, source);
      var u := Counted(Apply(fix, t, k, firstSeen, source));
      CountsFlush(ec, fix, u, 0);
      TotalsFlush(et, fix, u, 0);
    case Advance(log, wm) =>
      CountsSame(ec, t, HandleAdvance(t, log, wm));
      TotalsSame(et, t, HandleAdvance(t, log, wm));
    case Recount =>
      CountsRecount(ec, fix, t);
      TotalsRecount(et, fix, t);
  }

  lemma TotalsRecount(exact: bool, fix: Repairs, s: State)
    requires Inv(s)
    ensures TotalsInv(exact, HandleRecount(fix, s))
  {
    RecountRepairs(fix, s);
  }

  lemma CountersOpen(ec: bool, et: bool, db: DB)
    requires Bounded(ec, db.counts, db.records) && db.total <= |db.records| && (et ==> db.total == |db.records|)
    ensures CountersInv(ec, et, Open(db))
  {
    hide Bounded;
    MergedNothing(Open(db));
  }

  lemma CountersReopen(ec: bool, et: bool, s: State, apexes: set<Bytes>)
    requires CountersInv(ec, et, s)
    ensures CountersInv(ec, et, Open(s.db)) && CountersInv(ec, et, Open(Recounted(s.db, apexes)))
  {
    hide Bounded, CountersInv, Open, CacheCounts;
    CountersDb(ec, et, s);
    CountersOpen(ec, et, s.db);
    BoundedRecounted(ec, s.db, apexes);
    RecountedKeeps(s.db, apexes);
    RecountedTotal(s.db, apexes);
    CountersOpen(ec, et, Recounted(s.db, apexes));
  }

  lemma CountersDb(ec: bool, et: bool, s: State)
    requires CountersInv(ec, et, s)
    ensures Bounded(ec, s.db.counts, s.db.records) && s.db.total <= |s.db.records| &&
            (et ==> s.db.total == |s.db.records|)
  {
  }

  lemma RecountedTotal(db: DB, apexes: set<Bytes>)
    ensures Recounted(db, apexes).total == db.total
  {
  }

  lemma CountersStep(ec: bool, et: bool, fix: Repairs, y: Sys, ev: Event)
    requires Inv(y.s) && CountersInv(ec, et, y.s) && (ec ==> CountersSafe(fix, y, ev)) && (et ==> fix.total)
    ensures CountersInv(ec, et, Step(fix, y, ev).s)
  {
    hide CountsInv, TotalsInv, Inv, CountSafe, Handle, Flush, Recounted, Open;
    match ev
    case Send(op) =>
    case Deliver => if y.ch != [] { CountersHandle(ec, et, fix, y.s, y.ch[0]); }
    case Timer => CountersTick(ec, et, fix, y.s);
    case Close =>
      CountsSame(ec, y.s, y.s.(closed := true));
      TotalsSame(et, y.s, y.s.(closed := true));
    case Stop =>
      CountersFlush(ec, et, fix, y.s);
      CountersReopen(ec, et, Flush(fix, y.s), {});
    case Crash => CountersReopen(ec, et, y.s, {});
    case CrashInRecount(written) =>
      var t := y.s.(history := y.s.history + [Recount]);
      CountsSame(ec, y.s, t);
      TotalsSame(et, y.s, t);
      CountersFlush(ec, et, fix, t);
      CountersReopen(ec, et, Flush(fix, t), written * Apexes(Flush(fix, t).db.records));
  }

  lemma CountersFlush(ec: bool, et: bool, fix: Repairs, s: State)
    requires CountersInv(ec, et, s) && (et ==> fix.total)
    ensures CountersInv(ec, et, Flush(fix, s))
  {
    CountsFlush(ec, fix, s, 0);
    TotalsFlush(et, fix, s, 0);
  }

  lemma CountersTick(ec: bool, et: bool, fix: Repairs, s: State)
    requires CountersInv(ec, et, s) && (et ==> fix.total)
    ensures CountersInv(ec, et, Tick(fix, s))
  {
    hide CountsInv, TotalsInv, Flush;
    CountsFlush(ec, fix, s, 0);
    TotalsFlush(et, fix, s, 0);
  }

  ghost predicate CountsSafe(fix: Repairs, y: Sys, events: seq<Event>)
    decreases |events|
  {
    events == [] ||
    var n := |events| - 1;
    CountsSafe(fix, y, events[..n]) && CountersSafe(fix, Run(fix, y, events[..n]), events[n])
  }

  lemma {:induction false} RunCounters(ec: bool, et: bool, fix: Repairs, y: Sys, events: seq<Event>)
    requires Inv(y.s) && CountersInv(ec, et, y.s) && (ec ==> CountsSafe(fix, y, events)) && (et ==> fix.total)
    ensures CountersInv(ec, et, Run(fix, y, events).s)
    decreases |events|
  {
    hide CountersInv, Inv, Step, CountersSafe;
    if events != [] {
      var n := |events| - 1;
      RunInv(fix, y, events[..n]);
      RunCounters(ec, et, fix, y, events[..n]);
      CountersStep(ec, et, fix, Run(fix, y, events[..n]), events[n]);
    }
  }

  /** Counters never over-report, in the database or in the merged view. They are
      exact as long as every insert found its counter; the total is exact when the
      flush is repaired. */
  lemma {:induction false} NeverOverReports(ec: bool, et: bool, fix: Repairs, db: DB, events: seq<Event>)
    requires ValidDB(db) && Bounded(ec, db.counts, db.records)
    requires db.total <= |db.records| && (et ==> db.total == |db.records|)
    requires (ec ==> CountsSafe(fix, Boot(db), events)) && (et ==> fix.total)
    ensures var y := Run(fix, Boot(db), events);
            && Bounded(ec, y.s.db.counts, y.s.db.records)
            && Bounded(ec, Merged(y.s).counts, Merged(y.s).records)
            && y.s.db.total <= |y.s.db.records| && (et ==> y.s.db.total == |y.s.db.records|)
  {
    hide Bounded, ValidDB, Inv, CountsSafe, Run;
    InvOpen(db);
    CountersOpen(ec, et, db);
    RunCounters(ec, et, fix, Boot(db), events);
  }

  /** From exact counters, an insert keeps them exact if and only if it finds its own. */
  lemma CountExactIff(fix: Repairs, s: State, k: Key, firstSeen: int, source: byte)
    requires Inv(s) && CountsInv(true, s) && Lookup(s, k) == None
    ensures var t := Merged(Counted(Insert(fix, s, k, firstSeen, source)));
            Bounded(true, t.counts, t.records) <==> CountSafe(fix, s, Ingest(k, firstSeen, source))
  {
    hide Merged, Inv, CountSafe, CountOf, Lookup, PendingCount;
    var m, t := Merged(s), Insert(fix, s, k, firstSeen, source);
    if CountSafe(fix, s, Ingest(k, firstSeen, source)) {
      CountsInsert(true, fix, s, k, firstSeen, source);
    } else {
      Unmerged(s, k);
      PendingCountBound(fix, s, k, firstSeen, source);
      MergedIgnores(t, Counted(t));
      MergedInsert(fix, s, k, firstSeen, source);
      CountInsert(m.records, k, Rec(firstSeen, source, s.seqno + 1), k.apex);
      assert Num(Merged(t).counts, k.apex) < CountOf(Merged(t).records, k.apex);
    }
  }

  /** No insert is handled once `closed` is set. */
  ghost predicate NoLateInsert(fix: Repairs, y: Sys, events: seq<Event>)
    decreases |events|
  {
    events == [] ||
    var n := |events| - 1;
    var z := Run(fix, y, events[..n]);
    NoLateInsert(fix, y, events[..n]) &&
      (events[n].Deliver? && z.ch != [] && z.ch[0].Ingest? ==> !z.s.closed || fix.counts)
  }

  lemma {:induction false} NoLateInsertIsSafe(fix: Repairs, y: Sys, events: seq<Event>)
    requires fix.counts || NoLateInsert(fix, y, events)
    ensures CountsSafe(fix, y, events)
    decreases |events|
  {
    hide Run;
    if events != [] {
      NoLateInsertIsSafe(fix, y, events[..|events| - 1]);
    }
  }

  /** With the flush and the counter read repaired, all counters are exact on every run. */
  lemma RepairedCountersExact(fix: Repairs, db: DB, events: seq<Event>)
    requires ValidDB(db) && Bounded(true, db.counts, db.records) && db.total == |db.records|
    requires fix.counts && fix.total
    ensures var d := Run(fix, Boot(db), events).s.db;
            Bounded(true, d.counts, d.records) && d.total == |d.records|
  {
    hide Bounded, ValidDB, Run, CountsSafe;
    NoLateInsertIsSafe(fix, Boot(db), events);
    NeverOverReports(true, true, fix, db, events);
  }

  /** On every run from a database that does not over-report, a recount makes every
      counter and the total exact, and changes no record. */
  lemma {:induction false} RecountAfterRun(fix: Repairs, db: DB, events: seq<Event>)
    requires ValidDB(db) && Bounded(false, db.counts, db.records) && db.total <= |db.records|
    ensures var s := Run(fix, Boot(db), events).s;
            var t := HandleRecount(fix, s);
            && t.db.records == Merged(s).records
            && Bounded(true, t.db.counts, t.db.records) && t.db.total == |t.db.records|
            && CountsInv(true, t) && TotalsInv(true, t)
  {
    hide Bounded, ValidDB, Inv, CountsInv, TotalsInv, Run, Merged, HandleRecount, Flush;
    var s := Run(fix, Boot(db), events).s;
    InvOpen(db);
    RunInv(fix, Boot(db), events);
    NeverOverReports(false, false, fix, db, events);
    RecountRepairs(fix, s);
    FlushRecords(fix, s);
    BoundedNoStray(Flush(fix, s).db);
    ExactParts(HandleRecount(fix, s));
  }

  lemma ExactParts(s: State)
    requires CountsInv(true, s) && TotalsInv(true, s)
    ensures Bounded(true, s.db.counts, s.db.records) && s.db.total == |s.db.records|
  {
  }

  lemma BoundedNoStray(db: DB)
    requires Bounded(false, db.counts, db.records)
    ensures NoStrayCounts(db)
  {
    hide CountOf, Apexes;
    forall a | a in db.counts && a !in Apexes(db.records) ensures db.counts[a] == 0 {
      CountZero(db.records, a);
      assert Num(db.counts, a) <= CountOf(db.records, a);
    }
  }

  /** A crash between the commits of a recount leaves the records as flushed, each
      counter old or exact and the total old; and a second recount then reaches the very
      database that the first would have reached uninterrupted. */
  lemma {:induction false} RecountAfterCrash(fix: Repairs, y: Sys, written: set<Bytes>)
    requires Recounting(y)
    ensures var f, z := Flush(fix, y.s).db, Step(fix, y, CrashInRecount(written));
            && z.s.db.records == f.records && z.s.db.total == f.total
            && (forall a :: var n := Num(z.s.db.counts, a); n == Num(f.counts, a) || n == CountOf(f.records, a))
            && Run(fix, z, [Send(Recount), Deliver]).s.db == Step(fix, y, Deliver).s.db
  {
    hide CountOf, Apexes, Recounted, Run;
    var h := y.s.(history := y.s.history + [Recount]);
    var f, z := Flush(fix, y.s).db, Step(fix, y, CrashInRecount(written));
    FlushIgnores(fix, y.s, h);
    var some := written * Apexes(f.records);
    RecountConverges(f, some);
    RecountedKeeps(f, some);
    RecountedTotal(f, some);
    RecountedTotal(Recounted(f, some), Apexes(f.records));
    NoEvents(fix, z);
    TakeOne(fix, z, [], Recount);
    assert [] + [Send(Recount), Deliver] == [Send(Recount), Deliver];
    RecountOpened(fix, z.s);
  }

  lemma FlushIgnores(fix: Repairs, s: State, t: State)
    requires t == s.(history := t.history)
    ensures Flush(fix, t).db == Flush(fix, s).db
  {
    MergedIgnores(s, t);
  }

  lemma RecountOpened(fix: Repairs, s: State)
    requires s.batch == [] && s.pendingWM == map[]
    ensures Handle(fix, s, Recount).db == Recounted(s.db, Apexes(s.db.records)).(total := |s.db.records|)
  {
    hide Recounted;
  }

  /** As written, a new name that is handled between Close and the final flush resets the
      counter of its apex to one, however many records it has. */
  lemma {:induction false} ShutdownMiscounts(db: DB, k: Key, firstSeen: int, source: byte)
    requires ValidDB(db) && Bounded(true, db.counts, db.records) && k !in db.records && Num(db.counts, k.apex) >= 2
    ensures var events := [Send(Ingest(k, firstSeen, source)), Close, Deliver, Stop];
            var d := Run(AsWritten, Boot(db), events).s.db;
            Num(d.counts, k.apex) == 1 && CountOf(d.records, k.apex) == Num(db.counts, k.apex) + 1 >= 3
  {
    hide Merged, Run, Handle, CountOf, ValidDB;
    var op := Ingest(k, firstSeen, source);
    var y := Boot(db);
    var s := y.s.(closed := true);
    NoEvents(AsWritten, y);
    RunOne(AsWritten, y, [], Send(op));
    RunOne(AsWritten, y, [Send(op)], Close);
    RunOne(AsWritten, y, [Send(op), Close], Deliver);
    RunOne(AsWritten, y, [Send(op), Close, Deliver], Stop);
    assert [] + [Send(op)] == [Send(op)] && [Send(op)] + [Close] == [Send(op), Close];
    assert [Send(op), Close] + [Deliver] == [Send(op), Close, Deliver];
    assert [Send(op), Close, Deliver] + [Stop] == [Send(op), Close, Deliver, Stop];
    ClosedInsert(s, k, firstSeen, source);
    CountInsert(db.records, k, Rec(firstSeen, source, s.seqno + 1), k.apex);
  }

  lemma ClosedInsert(s: State, k: Key, firstSeen: int, source: byte)
    requires s.closed && s.batch == [] && s.pending < 511 && s.pendingRecords == map[] && s.pendingCounts == map[]
    requires k !in s.db.records
    ensures var u := Handle(AsWritten, s, Ingest(k, firstSeen, source));
            var d := Flush(AsWritten, u).db;
            && u.closed
            && d.records == s.db.records[k := Rec(firstSeen, source, s.seqno + 1)]
            && Num(d.counts, k.apex) == 1
  {
    hide Merged;
    var h := s.(history := s.history + [Ingest(k, firstSeen, source)]);
    var u := Insert(AsWritten, h, k, firstSeen, source);
    MergedNothing(h);
    MergedInsert(AsWritten, h, k, firstSeen, source);
    MergedIgnores(u, Counted(u));
    assert Handle(AsWritten, s, Ingest(k, firstSeen, source)) == Counted(u);
  }

  /** Nothing is pending: the last window has just been flushed. */
  predicate Quiet(s: State) { Idle(s) && s.pending == 0 && s.pendingTotal == 0 && s.pendingRecords == map[] }

  /** A window that holds a single insert, flushed by the timer. */
  lemma OneInsertWindow(fix: Repairs, s: State, k: Key, firstSeen: int, source: byte)
    requires Quiet(s) && k !in s.db.records
    ensures var t := Tick(fix, Handle(fix, s, Ingest(k, firstSeen, source)));
            && Quiet(t)
            && t.db.records == s.db.records[k := Rec(firstSeen, source, s.seqno + 1)]
            && t.db.total == s.totalBase + 1
            && t.totalBase == s.totalBase + if fix.total then 1 else 0
  {
    hide Merged;
    var h := s.(history := s.history + [Ingest(k, firstSeen, source)]);
    var u := Insert(fix, h, k, firstSeen, source);
    MergedNothing(h);
    MergedInsert(fix, h, k, firstSeen, source);
    MergedIgnores(u, Counted(u));
    assert Handle(fix, s, Ingest(k, firstSeen, source)) == Counted(u);
  }

  /** As written, two inserts in different windows of one process leave the total at one. */
  lemma TotalUnderReports(k1: Key, k2: Key)
    requires k1 != k2
    ensures var s := Tick(AsWritten, Handle(AsWritten, Open(EmptyDB), Ingest(k1, 1, 1)));
            var t := Tick(AsWritten, Handle(AsWritten, s, Ingest(k2, 1, 1)));
            s.db.total == 1 && t.db.total == 1 && |t.db.records| == 2
  {
    hide Tick, Handle;
    OneInsertWindow(AsWritten, Open(EmptyDB), k1, 1, 1);
    var s := Tick(AsWritten, Handle(AsWritten, Open(EmptyDB), Ingest(k1, 1, 1)));
    OneInsertWindow(AsWritten, s, k2, 1, 1);
  }
}
