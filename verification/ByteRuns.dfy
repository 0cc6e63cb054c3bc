/** The store's own commits at the level of bytes: on every run with 64-bit values the
    batch is one that the byte database can hold. */
module ByteRuns {
  import opened ByteStrings
  import opened StoreModel
  import opened StoreInvariants
  import opened StoreRuns
  import opened Keys

  ghost predicate ValidBatch(batch: seq<Write>) { forall i :: 0 <= i < |batch| ==> ValidWrite(batch[i]) }

  ghost predicate ValidRecords(records: Records) {
    forall k :: k in records ==> ValidKey(k) && ValidRec(records[k])
  }

  ghost predicate Below(n: nat, counts: map<Bytes, nat>) { forall a :: a in counts ==> counts[a] <= n }

  ghost predicate ValidWMs(wms: map<Bytes, int>) { forall id :: id in wms ==> Int64(wms[id]) }

  /** Every number in the database is at most n. */
  ghost predicate DBFits(n: nat, db: DB) {
    && ValidRecords(db.records) && |db.records| <= n && Below(n, db.counts)
    && db.total <= n && db.seqno <= n && ValidWMs(db.wms)
  }

  ghost predicate Fits(n: nat, s: State) {
    && n < Two64 && DBFits(n, s.db) && ValidBatch(s.batch) && DBFits(n, Merged(s))
    && s.seqno <= n && s.totalBase + s.pendingTotal <= n
    && ValidRecords(s.pendingRecords) && Below(n, s.pendingCounts) && ValidWMs(s.pendingWM)
  }

  /** NUL-free apexes, 64-bit dates and watermarks. */
  predicate ValidOp(op: Op) {
    match op
    case Ingest(k, firstSeen, source) => ValidKey(k) && Int64(firstSeen)
    case Advance(log, wm) => Int64(wm)
    case Recount => true
  }

  lemma DBFitsMore(n: nat, db: DB)
    requires DBFits(n, db)
    ensures DBFits(n + 1, db)
  {
    hide ValidRecords;
  }

  lemma DBFitsInsert(n: nat, db: DB, k: Key, r: Rec, c: nat, total: nat)
    requires DBFits(n, db) && k !in db.records && ValidKey(k) && ValidRec(r) && c <= n + 1 && total <= n + 1
    ensures DBFits(n + 1, db.(records := db.records[k := r], counts := db.counts[k.apex := c], total := total))
  {
    assert |db.records[k := r]| == |db.records| + 1;
  }

  lemma DBFitsRefresh(n: nat, db: DB, k: Key, r: Rec)
    requires DBFits(n, db) && k in db.records && ValidKey(k) && ValidRec(r)
    ensures DBFits(n + 1, db.(records := db.records[k := r]))
  {
    assert db.records[k := r].Keys == db.records.Keys;
    assert |db.records[k := r]| == |db.records[k := r].Keys| && |db.records| == |db.records.Keys|;
  }

  lemma FitsInsert(n: nat, fix: Repairs, s: State, k: Key, firstSeen: int, source: byte)
    requires Inv(s) && Fits(n, s) && n + 1 < Two64 && ValidKey(k) && Int64(firstSeen) && Lookup(s, k) == None
    ensures Fits(n + 1, Counted(Insert(fix, s, k, firstSeen, source)))
  {
    hide Merged, Inv, DBFits;
    var t, r := Insert(fix, s, k, firstSeen, source), Rec(firstSeen, source, s.seqno + 1);
    var c := PendingCount(fix, s, k.apex) + 1;
    MergedIgnores(t, Counted(t));
    MergedInsert(fix, s, k, firstSeen, source);
    Unmerged(s, k);
    DBFitsMore(n, s.db);
    PendingFits(n, fix, s, k.apex);
    DBFitsInsert(n, Merged(s), k, r, c, s.totalBase + s.pendingTotal + 1);
  }

  lemma PendingFits(n: nat, fix: Repairs, s: State, a: Bytes)
    requires Fits(n, s)
    ensures PendingCount(fix, s, a) <= n
  {
    hide Merged;
  }

  lemma FitsTouch(n: nat, s: State, k: Key, st: Rec)
    requires Fits(n, s) && n + 1 < Two64 && ValidKey(k) && ValidRec(st)
    ensures Fits(n + 1, Counted(s.(pendingRecords := s.pendingRecords[k := st])))
  {
    hide Merged, DBFits;
    MergedIgnores(s, Counted(s.(pendingRecords := s.pendingRecords[k := st])));
    DBFitsMore(n, s.db);
    DBFitsMore(n, Merged(s));
  }

  lemma FitsLower(n: nat, fix: Repairs, s: State, k: Key, firstSeen: int, st: Rec)
    requires Fits(n, s) && n + 1 < Two64 && ValidKey(k) && ValidRec(st) && Int64(firstSeen)
    requires k in Merged(s).records && firstSeen < st.firstSeen
    ensures Fits(n + 1, Counted(Refresh(fix, s, k, firstSeen, st)))
  {
    hide Merged, DBFits;
    var t := Refresh(fix, s, k, firstSeen, st);
    MergedIgnores(t, Counted(t));
    MergedRefresh(fix, s, k, firstSeen, st);
    DBFitsMore(n, s.db);
    DBFitsRefresh(n, Merged(s), k, st.(firstSeen := firstSeen));
  }

  lemma FitsRefresh(n: nat, fix: Repairs, s: State, k: Key, firstSeen: int, st: Rec)
    requires Inv(s) && Fits(n, s) && n + 1 < Two64 && ValidKey(k) && Int64(firstSeen) && Lookup(s, k) == Some(st)
    ensures Fits(n + 1, Counted(Refresh(fix, s, k, firstSeen, st)))
  {
    hide Merged, Inv, Fits, Refresh;
    InMerged(s, k, st);
    LookupFits(n, s, k, st);
    if st.firstSeen <= firstSeen {
      RefreshTouches(fix, s, k, firstSeen, st);
      FitsTouch(n, s, k, st);
    } else {
      FitsLower(n, fix, s, k, firstSeen, st);
    }
  }

  lemma LookupFits(n: nat, s: State, k: Key, st: Rec)
    requires Fits(n, s) && Lookup(s, k) == Some(st)
    ensures ValidRec(st)
  {
    hide Merged;
  }

  lemma FitsApply(n: nat, fix: Repairs, s: State, k: Key, firstSeen: int, source: byte)
    requires Inv(s) && Fits(n, s) && n + 1 < Two64 && ValidKey(k) && Int64(firstSeen)
    ensures Fits(n + 1, Counted(Apply(fix, s, k, firstSeen, source)))
  {
    hide Merged, Inv, Insert, Refresh, Fits;
    match Lookup(s, k)
    case None => FitsInsert(n, fix, s, k, firstSeen, source);
    case Some(st) => FitsRefresh(n, fix, s, k, firstSeen, st);
  }

  lemma FitsMore(n: nat, s: State)
    requires Fits(n, s) && n + 1 < Two64
    ensures Fits(n + 1, s)
  {
    hide Merged, DBFits;
    DBFitsMore(n, s.db);
    DBFitsMore(n, Merged(s));
  }

  /** The database of the next flush. */
  lemma FlushFits(n: nat, fix: Repairs, s: State)
    requires Fits(n, s)
    ensures DBFits(n, Flush(fix, s).db)
  {
    hide Merged;
  }

  lemma FitsFlush(n: nat, fix: Repairs, s: State, pending: nat)
    requires Fits(n, s)
    ensures Fits(n, Flush(fix, s)) && Fits(n, Flush(fix, s).(pending := pending))
  {
    hide DBFits;
    FlushFits(n, fix, s);
    MergedIgnores(Flush(fix, s), Flush(fix, s).(pending := pending));
    if !Idle(s) { MergedNothing(Flush(fix, s)); }
  }

  lemma FitsSame(n: nat, s: State, t: State)
    requires Fits(n, s) && t.db == s.db && t.batch == s.batch && t.seqno == s.seqno
    requires t.totalBase == s.totalBase && t.pendingTotal == s.pendingTotal && t.pendingRecords == s.pendingRecords
    requires t.pendingCounts == s.pendingCounts && ValidWMs(t.pendingWM)
    ensures Fits(n, t)
  {
    MergedIgnores(s, t);
  }

  /** Nothing open on a database that fits. */
  lemma FitsFresh(n: nat, s: State)
    requires n < Two64 && DBFits(n, s.db) && s.batch == [] && s.seqno <= n && s.totalBase + s.pendingTotal <= n
    requires s.pendingRecords == map[] && s.pendingCounts == map[] && ValidWMs(s.pendingWM)
    ensures Fits(n, s)
  {
    MergedNothing(s);
  }

  lemma CountFits(records: Records, a: Bytes)
    ensures CountOf(records, a) <= |records|
  {
    assert RecordsOf(records, a) <= records.Keys;
    Smaller(RecordsOf(records, a), records.Keys);
  }

  lemma RecountedFits(n: nat, db: DB, apexes: set<Bytes>)
    requires DBFits(n, db)
    ensures DBFits(n, Recounted(db, apexes)) && DBFits(n, Recounted(db, apexes).(total := |db.records|))
  {
    hide CountOf, ValidRecords;
    forall a ensures CountOf(db.records, a) <= |db.records| { CountFits(db.records, a); }
  }

  lemma FitsHandle(n: nat, fix: Repairs, s: State, op: Op)
    requires Inv(s) && Fits(n, s) && n + 1 < Two64 && ValidOp(op)
    ensures Fits(n + 1, Handle(fix, s, op))
  {
    hide Inv, Fits, Apply, Flush, DBFits, Recounted, Merged;
    var h := s.(history := s.history + [op]);
    InvHistory(s, op);
    FitsWMs(n, s);
    FitsSame(n, s, h);
    match op
    case Ingest(k, firstSeen, source) =>
      HandleIngestIs(fix, s, op);
      FitsApply(n, fix, h, k, firstSeen, source);
      FitsFlush(n + 1, fix, Counted(Apply(fix, h, k, firstSeen, source)), 0);
    case Advance(log, wm) =>
      FitsSame(n, h, HandleAdvance(h, log, wm));
      FitsMore(n, HandleAdvance(h, log, wm));
    case Recount =>
      FitsRecount(n, fix, h);
      FitsMore(n, HandleRecount(fix, h));
  }

  lemma FitsWMs(n: nat, s: State)
    requires Fits(n, s)
    ensures ValidWMs(s.pendingWM) && n < Two64 && DBFits(n, s.db) && s.seqno <= n
  {
    hide DBFits, Merged;
  }

  lemma FitsRecount(n: nat, fix: Repairs, s: State)
    requires Fits(n, s)
    ensures Fits(n, HandleRecount(fix, s))
  {
    hide Fits, Flush, Recounted, Merged, DBFits;
    var f := Flush(fix, s);
    FitsFlush(n, fix, s, 0);
    FitsWMs(n, f);
    RecountedFits(n, f.db, Apexes(f.db.records));
    RecordsFit(n, f.db);
    FitsFresh(n, HandleRecount(fix, s));
  }

  lemma RecordsFit(n: nat, db: DB)
    requires DBFits(n, db)
    ensures |db.records| <= n && db.total <= n && db.seqno <= n
  {
  }

  lemma FitsOpen(n: nat, db: DB)
    requires n < Two64 && DBFits(n, db)
    ensures Fits(n, Open(db))
  {
    hide DBFits;
    RecordsFit(n, db);
    FitsFresh(n, Open(db));
  }

  lemma FitsStep(n: nat, fix: Repairs, y: Sys, ev: Event)
    requires Inv(y.s) && Fits(n, y.s) && n + 1 < Two64 && (forall i :: 0 <= i < |y.ch| ==> ValidOp(y.ch[i]))
    ensures Fits(n + 1, Step(fix, y, ev).s)
  {
    hide Inv, Fits, Handle, Flush, DBFits, Recounted, Merged, ValidOp;
    FitsWMs(n, y.s);
    FitsMore(n, y.s);
    match ev
    case Send(op) =>
    case Deliver => if y.ch != [] { FitsHandle(n, fix, y.s, y.ch[0]); }
    case Timer => FitsFlush(n + 1, fix, y.s, 0);
    case Close => FitsSame(n + 1, y.s, y.s.(closed := true));
    case Stop =>
      FitsFlush(n + 1, fix, y.s, 0);
      FitsWMs(n + 1, Flush(fix, y.s));
      FitsOpen(n + 1, Flush(fix, y.s).db);
    case Crash =>
      FitsWMs(n + 1, y.s);
      FitsOpen(n + 1, y.s.db);
    case CrashInRecount(written) =>
      var t := y.s.(history := y.s.history + [Recount]);
      var f := Flush(fix, t);
      FitsSame(n + 1, y.s, t);
      FitsFlush(n + 1, fix, t, 0);
      FitsWMs(n + 1, f);
      RecountedFits(n + 1, f.db, written * Apexes(f.db.records));
      FitsOpen(n + 1, Recounted(f.db, written * Apexes(f.db.records)));
  }

  /** Only operations with valid values are sent. */
  ghost predicate ValidSends(events: seq<Event>) {
    forall i :: 0 <= i < |events| && events[i].Send? ==> ValidOp(events[i].op)
  }

  lemma ChannelStep(fix: Repairs, y: Sys, ev: Event)
    requires (forall i :: 0 <= i < |y.ch| ==> ValidOp(y.ch[i])) && (ev.Send? ==> ValidOp(ev.op))
    ensures var ch := Step(fix, y, ev).ch; forall i :: 0 <= i < |ch| ==> ValidOp(ch[i])
  {
    hide Handle, Flush, Tick, Recounted, ValidOp;
  }

  /** On every run of fewer than 2^64 events whose operations have NUL-free apexes and
      64-bit values, every number stays a 64-bit one and the batch is always valid. */
  lemma {:induction false} RunFits(n: nat, fix: Repairs, y: Sys, events: seq<Event>)
    requires Inv(y.s) && Fits(n, y.s) && n + |events| < Two64 && ValidSends(events)
    requires forall i :: 0 <= i < |y.ch| ==> ValidOp(y.ch[i])
    ensures var z := Run(fix, y, events);
            Fits(n + |events|, z.s) && forall i :: 0 <= i < |z.ch| ==> ValidOp(z.ch[i])
    decreases |events|
  {
    hide Inv, Fits, Step, ValidOp;
    if events != [] {
      var m := |events| - 1;
      RunInv(fix, y, events[..m]);
      RunFits(n, fix, y, events[..m]);
      FitsStep(n + m, fix, Run(fix, y, events[..m]), events[m]);
      ChannelStep(fix, Run(fix, y, events[..m]), events[m]);
    }
  }

  // ----- The next flush, in bytes

  /** The watermarks of these logs. */
  function Chosen(wms: map<Bytes, int>, ids: seq<Bytes>): map<Bytes, int>
    requires forall i :: 0 <= i < |ids| ==> ids[i] in wms
  {
    map id | id in ids :: wms[id]
  }

  /** The batch of the next flush: the records and counters gathered so far, the sequence
      number, and the pending watermarks in any order. */
  function FlushWrites(s: State, ids: seq<Bytes>): seq<Write>
    requires forall i :: 0 <= i < |ids| ==> ids[i] in s.pendingWM
    decreases |ids|
  {
    if ids == [] then s.batch + [SetSeq(s.seqno)]
    else
      var id := ids[|ids| - 1];
      FlushWrites(s, ids[..|ids| - 1]) + [SetWM(id, s.pendingWM[id])]
  }

  lemma ChosenOne(wms: map<Bytes, int>, ids: seq<Bytes>, id: Bytes)
    requires (forall i :: 0 <= i < |ids| ==> ids[i] in wms) && id in wms
    ensures Chosen(wms, ids + [id]) == Chosen(wms, ids)[id := wms[id]]
  {
  }

  lemma FlushWritesBegin(n: nat, s: State)
    requires Fits(n, s)
    ensures ValidBatch(s.batch + [SetSeq(s.seqno)])
    ensures Commit(s.db, s.batch + [SetSeq(s.seqno)]) == Merged(s).(seqno := s.seqno)
  {
    hide Commit, DBFits;
    CommitOne(s.db, s.batch, SetSeq(s.seqno));
  }

  lemma {:induction false} FlushWritesAre(n: nat, s: State, ids: seq<Bytes>)
    requires Fits(n, s) && forall i :: 0 <= i < |ids| ==> ids[i] in s.pendingWM
    ensures ValidBatch(FlushWrites(s, ids))
    ensures Commit(s.db, FlushWrites(s, ids)) ==
            Merged(s).(seqno := s.seqno, wms := Merged(s).wms + Chosen(s.pendingWM, ids))
    decreases |ids|
  {
    hide Commit, Merged, Fits, Chosen, ValidBatch;
    FitsWMs(n, s);
    if ids == [] {
      FlushWritesBegin(n, s);
      ChosenNone(s.pendingWM);
      assert Merged(s).wms + map[] == Merged(s).wms;
    } else {
      var m := |ids| - 1;
      var writes, wm := FlushWrites(s, ids[..m]), s.pendingWM[ids[m]];
      FlushWritesAre(n, s, ids[..m]);
      CommitOne(s.db, writes, SetWM(ids[m], wm));
      ValidOne(writes, SetWM(ids[m], wm));
      ChosenOne(s.pendingWM, ids[..m], ids[m]);
      AddOne(Merged(s).wms, Chosen(s.pendingWM, ids[..m]), ids[m], wm);
      assert ids == ids[..m] + [ids[m]];
    }
  }

  lemma ValidOne(batch: seq<Write>, w: Write)
    requires ValidBatch(batch) && ValidWrite(w)
    ensures ValidBatch(batch + [w])
  {
  }

  lemma AddOne(a: map<Bytes, int>, b: map<Bytes, int>, id: Bytes, wm: int)
    ensures (a + b)[id := wm] == a + b[id := wm]
  {
  }

  lemma ChosenNone(wms: map<Bytes, int>)
    ensures Chosen(wms, []) == map[]
  {
  }

  /** The writes are valid, and their bytes, put into m, represent db. */
  ghost predicate Leads(m: ByteDB, writes: seq<Write>, db: DB) {
    ValidBatch(writes) && Represents(CommitBytes(m, writes), db)
  }

  lemma BatchLeads(m: ByteDB, db: DB, writes: seq<Write>)
    requires Represents(m, db) && ValidBatch(writes)
    ensures Leads(m, writes, Commit(db, writes))
  {
    hide Represents, CommitBytes, Commit;
    CommitCommutes(m, db, writes);
  }

  /** For every byte database that represents the durable one: writing the bytes of the
      next flush, its watermarks in any order, gives one that represents the flushed
      database. `RunFits` has the first condition on every run. */
  lemma {:induction false} FlushInBytes(n: nat, fix: Repairs, s: State, m: ByteDB, ids: seq<Bytes>)
    requires Fits(n, s) && Represents(m, s.db) && !Idle(s)
    requires forall id :: id in ids <==> id in s.pendingWM
    ensures Leads(m, FlushWrites(s, ids), Flush(fix, s).db)
  {
    hide Represents, Fits, Commit, FlushWrites, Merged, Leads;
    FlushWritesAre(n, s, ids);
    assert Chosen(s.pendingWM, ids) == s.pendingWM;
    BatchLeads(m, s.db, FlushWrites(s, ids));
  }
}
