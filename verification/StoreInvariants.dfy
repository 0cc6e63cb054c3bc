/** What every operation of the ingest loop keeps. */
module StoreInvariants {
  import opened ByteStrings
  import opened StoreModel

  type Records = map<Key, Rec>

  /** Source and sequence number are fixed when a record is first stored. */
  predicate SameRecord(r: Rec, r': Rec) { r.source == r'.source && r.seqno == r'.seqno }

  /** Durable records d, merged records m and the cache p agree; a date only falls. */
  ghost predicate RecordsInv(d: Records, m: Records, p: Records) {
    && (forall k :: k in p ==> k in m && SameRecord(m[k], p[k]) && m[k].firstSeen <= p[k].firstSeen)
    && (forall k :: k in m && k !in p ==> k in d && m[k] == d[k])
    && (forall k :: k in d ==> k in m && SameRecord(m[k], d[k]) && m[k].firstSeen <= d[k].firstSeen)
    && (forall k :: k in d && k in p ==> p[k].firstSeen <= d[k].firstSeen)
  }

  /** Sequence numbers are distinct; those committed lie at or below the durable
      counter, those still in the batch above it. */
  ghost predicate SeqInv(d: Records, m: Records, dseq: nat, seqno: nat) {
    && dseq <= seqno
    && (forall k :: k in m ==> 0 < m[k].seqno <= seqno)
    && (forall k :: k in m ==> (k in d <==> m[k].seqno <= dseq))
    && (forall k, k' :: k in m && k' in m && k != k' ==> m[k].seqno != m[k'].seqno)
  }

  ghost predicate Inv(s: State) {
    var m := Merged(s);
    && RecordsInv(s.db.records, m.records, s.pendingRecords)
    && SeqInv(s.db.records, m.records, s.db.seqno, s.seqno)
    && m.seqno == s.db.seqno && m.wms == s.db.wms
    && s.durable <= |s.history|
  }

  /** A database the store can be opened on. */
  ghost predicate ValidDB(db: DB) { SeqInv(db.records, db.records, db.seqno, db.seqno) }

  /** How a later database relates to an earlier one. */
  ghost predicate Extends(a: DB, b: DB) {
    && a.seqno <= b.seqno
    && (forall k :: k in a.records ==> k in b.records && SameRecord(a.records[k], b.records[k])
                                       && b.records[k].firstSeen <= a.records[k].firstSeen)
    && (forall k :: k in b.records && k !in a.records ==> b.records[k].seqno > a.seqno)
  }

  lemma ExtendsTransitive(a: DB, b: DB, c: DB)
    requires Extends(a, b) && Extends(b, c)
    ensures Extends(a, c)
  {
  }

  // ----- Each piece keeps the invariant

  lemma RecordsInsert(d: Records, m: Records, p: Records, k: Key, r: Rec)
    requires RecordsInv(d, m, p) && k !in p && k !in d
    ensures k !in m && RecordsInv(d, m[k := r], p[k := r])
  {
  }

  lemma RecordsRefresh(d: Records, m: Records, p: Records, k: Key, st: Rec, date: int, cached: int)
    requires RecordsInv(d, m, p)
    requires if k in p then st == p[k] else k in d && st == d[k]
    requires date < st.firstSeen && date <= cached <= st.firstSeen
    ensures k in m && RecordsInv(d, m[k := st.(firstSeen := date)], p[k := st.(firstSeen := cached)])
  {
  }

  lemma RecordsTouch(d: Records, m: Records, p: Records, k: Key, st: Rec)
    requires RecordsInv(d, m, p)
    requires if k in p then st == p[k] else k in d && st == d[k]
    ensures RecordsInv(d, m, p[k := st])
  {
    if k !in p {
      assert k in m && m[k] == d[k];
    }
  }

  lemma SeqInsert(d: Records, m: Records, dseq: nat, seqno: nat, k: Key, r: Rec)
    requires SeqInv(d, m, dseq, seqno) && k !in m && k !in d && r.seqno == seqno + 1
    ensures SeqInv(d, m[k := r], dseq, seqno + 1)
  {
  }

  lemma SeqRefresh(d: Records, m: Records, dseq: nat, seqno: nat, k: Key, r: Rec)
    requires SeqInv(d, m, dseq, seqno) && k in m && SameRecord(m[k], r)
    ensures SeqInv(d, m[k := r], dseq, seqno + 1)
  {
  }

  /** The loop's bookkeeping after a record has been applied. */
  function Counted(s: State): State { s.(seqno := s.seqno + 1, pending := s.pending + 1) }

  lemma InvInsert(fix: Repairs, s: State, k: Key, firstSeen: int, source: byte)
    requires Inv(s) && Lookup(s, k) == None
    ensures Inv(Counted(Insert(fix, s, k, firstSeen, source)))
  {
    hide Merged, RecordsInv, SeqInv;
    var m := Merged(s);
    var t := Insert(fix, s, k, firstSeen, source);
    var r := Rec(firstSeen, source, s.seqno + 1);
    MergedIgnores(t, Counted(t));
    MergedInsert(fix, s, k, firstSeen, source);
    RecordsInsert(s.db.records, m.records, s.pendingRecords, k, r);
    SeqInsert(s.db.records, m.records, s.db.seqno, s.seqno, k, r);
  }

  lemma InvTouch(s: State, k: Key, st: Rec)
    requires Inv(s) && Lookup(s, k) == Some(st)
    ensures Inv(Counted(s.(pendingRecords := s.pendingRecords[k := st])))
  {
    hide Merged, RecordsInv, SeqInv;
    var m := Merged(s);
    MergedIgnores(s, Counted(s.(pendingRecords := s.pendingRecords[k := st])));
    RecordsTouch(s.db.records, m.records, s.pendingRecords, k, st);
    SeqBump(s.db.records, m.records, s.db.seqno, s.seqno);
  }

  lemma InvLower(fix: Repairs, s: State, k: Key, firstSeen: int, st: Rec)
    requires Inv(s) && Lookup(s, k) == Some(st) && firstSeen < st.firstSeen
    ensures Inv(Counted(Refresh(fix, s, k, firstSeen, st)))
  {
    hide Merged, RecordsInv, SeqInv, Lookup;
    var m, p := Merged(s), s.pendingRecords;
    var t := Refresh(fix, s, k, firstSeen, st);
    var cached := if fix.dates then firstSeen else st.firstSeen;
    MergedIgnores(t, Counted(t));
    MergedRefresh(fix, s, k, firstSeen, st);
    InMerged(s, k, st);
    LookupCases(s, k, st);
    RecordsRefresh(s.db.records, m.records, p, k, st, firstSeen, cached);
    SeqRefresh(s.db.records, m.records, s.db.seqno, s.seqno, k, st.(firstSeen := firstSeen));
    assert t.pendingRecords == p[k := st.(firstSeen := cached)];
  }

  lemma LookupCases(s: State, k: Key, st: Rec)
    requires Lookup(s, k) == Some(st)
    ensures if k in s.pendingRecords then st == s.pendingRecords[k] else k in s.db.records && st == s.db.records[k]
  {
  }

  lemma RefreshTouches(fix: Repairs, s: State, k: Key, firstSeen: int, st: Rec)
    requires st.firstSeen <= firstSeen
    ensures Refresh(fix, s, k, firstSeen, st) == s.(pendingRecords := s.pendingRecords[k := st])
  {
  }

  lemma InvApply(fix: Repairs, s: State, k: Key, firstSeen: int, source: byte)
    requires Inv(s)
    ensures Inv(Counted(Apply(fix, s, k, firstSeen, source)))
  {
    hide Inv, Insert, Refresh;
    match Lookup(s, k)
    case None => InvInsert(fix, s, k, firstSeen, source);
    case Some(st) =>
      if st.firstSeen <= firstSeen {
        RefreshTouches(fix, s, k, firstSeen, st);
        InvTouch(s, k, st);
      } else {
        InvLower(fix, s, k, firstSeen, st);
      }
  }

  /** The merged view depends on the database and the batch only. */
  lemma MergedIgnores(s: State, t: State)
    requires s.db == t.db && s.batch == t.batch
    ensures Merged(s) == Merged(t)
  {
  }

  lemma InMerged(s: State, k: Key, st: Rec)
    requires Inv(s) && Lookup(s, k) == Some(st)
    ensures k in Merged(s).records && SameRecord(Merged(s).records[k], st)
  {
  }

  lemma Unmerged(s: State, k: Key)
    requires Inv(s) && Lookup(s, k) == None
    ensures k !in Merged(s).records
  {
  }

  lemma SeqBump(d: Records, m: Records, dseq: nat, seqno: nat)
    requires SeqInv(d, m, dseq, seqno)
    ensures SeqInv(d, m, dseq, seqno + 1)
  {
  }

  lemma InvFlush(fix: Repairs, s: State)
    requires Inv(s)
    ensures Inv(Flush(fix, s)) && Extends(s.db, Flush(fix, s).db)
  {
    hide RecordsInv, SeqInv;
    if Idle(s) {
      ExtendsReflexive(s.db);
    } else {
      var m, t := Merged(s), Flush(fix, s);
      MergedNothing(t);
      RecordsSame(m.records);
      SeqCommitted(s.db.records, m.records, s.db.seqno, s.seqno);
      CommitExtends(s.db, t.db, s.pendingRecords);
    }
  }

  lemma SeqCommitted(d: Records, m: Records, dseq: nat, seqno: nat)
    requires SeqInv(d, m, dseq, seqno)
    ensures SeqInv(m, m, seqno, seqno)
  {
  }

  lemma CommitExtends(a: DB, b: DB, p: Records)
    requires RecordsInv(a.records, b.records, p) && SeqInv(a.records, b.records, a.seqno, b.seqno)
    ensures Extends(a, b)
  {
  }

  lemma InvPending(s: State, n: nat)
    requires Inv(s)
    ensures Inv(s.(pending := n))
  {
    MergedIgnores(s, s.(pending := n));
  }

  lemma InvHandleIngest(fix: Repairs, s: State, k: Key, firstSeen: int, source: byte)
    requires Inv(s)
    ensures var t := HandleIngest(fix, s, k, firstSeen, source); Inv(t) && Extends(s.db, t.db)
  {
    hide Inv, Extends, Merged, Apply, Flush;
    var u := Counted(Apply(fix, s, k, firstSeen, source));
    InvApply(fix, s, k, firstSeen, source);
    ExtendsReflexive(s.db);
    ApplyFrame(fix, s, k, firstSeen, source);
    if u.pending >= 512 {
      InvFlush(fix, u);
      InvPending(Flush(fix, u), 0);
    }
  }

  lemma ExtendsReflexive(db: DB)
    ensures Extends(db, db)
  {
  }

  lemma InvHandleAdvance(s: State, log: Bytes, wm: int)
    requires Inv(s)
    ensures Inv(HandleAdvance(s, log, wm)) && HandleAdvance(s, log, wm).db == s.db
  {
    MergedIgnores(s, HandleAdvance(s, log, wm));
  }

  lemma InvHandleRecount(fix: Repairs, s: State)
    requires Inv(s)
    ensures var t := HandleRecount(fix, s); Inv(t) && Extends(s.db, t.db) && t.db.records == Flush(fix, s).db.records
  {
    hide Flush, Extends, Inv;
    InvFlush(fix, s);
    var f, t := Flush(fix, s), HandleRecount(fix, s);
    InvReset(f, t);
    ExtendsRecount(s.db, f.db, t.db);
  }

  /** The counters and the caches may be rebuilt at any commit. */
  lemma InvReset(s: State, t: State)
    requires Inv(s) && t.db.records == s.db.records && t.db.seqno == s.db.seqno && t.db.wms == s.db.wms
    requires t.batch == [] && t.pendingRecords == map[]
    requires t.seqno == s.seqno && t.history == s.history && t.durable == s.durable
    ensures Inv(t)
  {
    hide Merged, RecordsInv;
    MergedNothing(t);
    RecordsSame(t.db.records);
    InvDurable(s);
  }

  lemma MergedNothing(s: State)
    requires s.batch == []
    ensures Merged(s) == s.db
  {
  }

  /** A flush stores the merged records and counters. */
  lemma FlushRecords(fix: Repairs, s: State)
    ensures Flush(fix, s).db.records == Merged(s).records && Flush(fix, s).db.counts == Merged(s).counts
  {
    if Idle(s) { MergedNothing(s); }
  }

  lemma RecordsSame(d: Records)
    ensures RecordsInv(d, d, map[])
  {
  }

  lemma RecountedKeeps(db: DB, apexes: set<Bytes>)
    ensures var r := Recounted(db, apexes); r.records == db.records && r.seqno == db.seqno && r.wms == db.wms
  {
  }

  lemma ExtendsRecount(a: DB, b: DB, c: DB)
    requires Extends(a, b) && c.records == b.records && c.seqno == b.seqno
    ensures Extends(a, c)
  {
  }

  lemma InvHandle(fix: Repairs, s: State, op: Op)
    requires Inv(s)
    ensures Inv(Handle(fix, s, op)) && Extends(s.db, Handle(fix, s, op).db)
  {
    hide Inv, Extends, Merged, Flush;
    var t := s.(history := s.history + [op]);
    InvHistory(s, op);
    ExtendsReflexive(s.db);
    match op
    case Ingest(k, firstSeen, source) => InvHandleIngest(fix, t, k, firstSeen, source);
    case Advance(log, wm) => InvHandleAdvance(t, log, wm);
    case Recount => InvHandleRecount(fix, t);
  }

  lemma InvHistory(s: State, op: Op)
    requires Inv(s)
    ensures Inv(s.(history := s.history + [op]))
  {
    MergedIgnores(s, s.(history := s.history + [op]));
  }

  lemma InvTick(fix: Repairs, s: State)
    requires Inv(s)
    ensures Inv(Tick(fix, s)) && Extends(s.db, Tick(fix, s).db)
  {
    hide Inv, Extends, Merged;
    InvFlush(fix, s);
    InvPending(Flush(fix, s), 0);
    ExtendsReflexive(s.db);
  }

  lemma InvOpen(db: DB)
    requires ValidDB(db)
    ensures Inv(Open(db))
  {
    assert Merged(Open(db)) == db;
  }

  /** What a crash leaves behind can be opened again. */
  lemma InvDurable(s: State)
    requires Inv(s)
    ensures ValidDB(s.db)
  {
  }
}
