/** The batched store refines a store that takes one operation at a time and
    makes each durable at once. */
module StoreRefinement {
  import opened ByteStrings
  import opened StoreModel
  import opened StoreInvariants

  /** The plain store: no batch, no caches, a date that only falls. */
  datatype Simple = Simple(records: Records, seqno: nat, wms: map<Bytes, int>, high: map<Bytes, int>)

  function Min(a: int, b: int): int { if a <= b then a else b }

  function SimpleStep(x: Simple, op: Op): Simple {
    match op
    case Ingest(k, firstSeen, source) =>
      var r := if k in x.records then x.records[k].(firstSeen := Min(x.records[k].firstSeen, firstSeen))
               else Rec(firstSeen, source, x.seqno + 1);
      x.(records := x.records[k := r], seqno := x.seqno + 1)
    case Advance(log, wm) =>
      if log !in x.high || wm > x.high[log] then x.(wms := x.wms[log := wm], high := x.high[log := wm]) else x
    case Recount => x
  }

  function SimpleRun(x: Simple, ops: seq<Op>): Simple {
    if ops == [] then x else SimpleStep(SimpleRun(x, ops[..|ops| - 1]), ops[|ops| - 1])
  }

  function SimpleOpen(db: DB): Simple { Simple(db.records, db.seqno, db.wms, map[]) }

  /** Several epochs, each ended by a crash or an orderly stop: the high-water
      cache is empty again after each. */
  function SimpleEpochs(x: Simple, epochs: seq<seq<Op>>): Simple {
    if epochs == [] then x
    else SimpleRun(SimpleEpochs(x, epochs[..|epochs| - 1]), epochs[|epochs| - 1]).(high := map[])
  }

  lemma SimpleRunOne(x: Simple, ops: seq<Op>, op: Op)
    ensures SimpleRun(x, ops + [op]) == SimpleStep(SimpleRun(x, ops), op)
  {
    assert (ops + [op])[..|ops|] == ops;
  }

  lemma SimpleEpochsOne(x: Simple, epochs: seq<seq<Op>>, e: seq<Op>)
    ensures SimpleEpochs(x, epochs + [e]) == SimpleRun(SimpleEpochs(x, epochs), e).(high := map[])
  {
    assert (epochs + [e])[..|epochs|] == epochs;
  }

  // ----- What the plain store holds after some operations, in terms of those operations

  ghost predicate IngestsAt(ops: seq<Op>, k: Key, j: int) {
    0 <= j < |ops| && ops[j].Ingest? && ops[j].key == k
  }

  ghost predicate AdvancesAt(ops: seq<Op>, id: Bytes, j: int) {
    0 <= j < |ops| && ops[j].Advance? && ops[j].log == id
  }

  function Ingests(ops: seq<Op>): nat {
    if ops == [] then 0 else Ingests(ops[..|ops| - 1]) + if ops[|ops| - 1].Ingest? then 1 else 0
  }

  /** Every ingest counts in the sequence number. */
  lemma {:induction false} PlainSeq(x: Simple, ops: seq<Op>)
    ensures SimpleRun(x, ops).seqno == x.seqno + Ingests(ops)
    decreases |ops|
  {
    if ops != [] { PlainSeq(x, ops[..|ops| - 1]); }
  }

  /** The first ingest of k, if any, is at j. */
  ghost predicate FirstAt(ops: seq<Op>, k: Key, j: int) {
    IngestsAt(ops, k, j) && forall i :: 0 <= i < j ==> !IngestsAt(ops, k, i)
  }

  /** A new record has the source of its first ingest, and as number how many ingests there
      have been up to that one, on top of the earlier count. */
  ghost predicate NewAt(x: Simple, ops: seq<Op>, r: Rec, k: Key, j: int) {
    FirstAt(ops, k, j) && r.source == ops[j].source && r.seqno == x.seqno + Ingests(ops[..j + 1])
  }

  /** A record is there if it was, or was ingested; a record that was there keeps source and
      number, a new one has those of its first ingest; the date is the least of all. */
  ghost predicate RecordAfter(x: Simple, ops: seq<Op>, m: Records, k: Key) {
    && (k in m <==> k in x.records || exists j :: IngestsAt(ops, k, j))
    && (k in x.records ==> k in m && SameRecord(m[k], x.records[k]) && m[k].firstSeen <= x.records[k].firstSeen)
    && (k in m && k !in x.records ==>
          exists j :: NewAt(x, ops, m[k], k, j))
    && (forall j :: IngestsAt(ops, k, j) ==> k in m && m[k].firstSeen <= ops[j].firstSeen)
    && (k in m ==> (k in x.records && m[k].firstSeen == x.records[k].firstSeen) ||
                   exists j :: IngestsAt(ops, k, j) && m[k].firstSeen == ops[j].firstSeen)
  }

  lemma {:induction false} PlainRecord(x: Simple, ops: seq<Op>, k: Key)
    ensures RecordAfter(x, ops, SimpleRun(x, ops).records, k)
    decreases |ops|
  {
    hide RecordAfter, SimpleStep;
    if ops == [] {
      RecordAtFirst(x, k);
    } else {
      var n := |ops| - 1;
      PlainRecord(x, ops[..n], k);
      PlainSeq(x, ops[..n]);
      RecordStep(x, ops[..n], SimpleRun(x, ops[..n]), ops[n], k);
      assert ops == ops[..n] + [ops[n]];
    }
  }

  lemma RecordAtFirst(x: Simple, k: Key)
    ensures RecordAfter(x, [], x.records, k)
  {
  }

  lemma RecordStep(x: Simple, ops: seq<Op>, y: Simple, op: Op, k: Key)
    requires RecordAfter(x, ops, y.records, k) && y.seqno == x.seqno + Ingests(ops)
    ensures RecordAfter(x, ops + [op], SimpleStep(y, op).records, k)
  {
    hide RecordAfter;
    if op.Ingest? && op.key == k {
      if k in y.records { RecordKnown(x, ops, y, op); } else { RecordNew(x, ops, y, op); }
    } else {
      RecordElse(x, ops, y.records, SimpleStep(y, op).records, op, k);
    }
  }

  /** What was said of the operations so far holds of them with one more behind. */
  lemma Prefixed(ops: seq<Op>, op: Op, k: Key)
    ensures var all := ops + [op];
            && (forall j :: 0 <= j < |ops| ==> (IngestsAt(all, k, j) <==> IngestsAt(ops, k, j)) && all[j] == ops[j])
            && (IngestsAt(all, k, |ops|) <==> op.Ingest? && op.key == k)
  {
    var all := ops + [op];
    assert forall j :: 0 <= j < |ops| ==> (IngestsAt(all, k, j) <==> IngestsAt(ops, k, j));
  }

  lemma RecordKnown(x: Simple, ops: seq<Op>, y: Simple, op: Op)
    requires op.Ingest? && op.key in y.records && RecordAfter(x, ops, y.records, op.key)
    ensures RecordAfter(x, ops + [op], SimpleStep(y, op).records, op.key)
  {
    hide NewAt, IngestsAt;
    var all, k := ops + [op], op.key;
    Prefixed(ops, op, k);
    BelowAll(ops, k);
    assert IngestsAt(all, k, |ops|) && all[|ops|] == op;
    if k !in x.records {
      var j :| NewAt(x, ops, y.records[k], k, j);
      NewStays(x, ops, op, y.records[k], SimpleStep(y, op).records[k], k, j);
    }
    BelowAll(all, k);
  }

  lemma BelowAll(ops: seq<Op>, k: Key)
    ensures forall j :: IngestsAt(ops, k, j) ==> 0 <= j < |ops|
  {
  }

  lemma NewStays(x: Simple, ops: seq<Op>, op: Op, r: Rec, r': Rec, k: Key, j: int)
    requires NewAt(x, ops, r, k, j) && SameRecord(r, r')
    ensures NewAt(x, ops + [op], r', k, j)
  {
    var all := ops + [op];
    assert forall i :: 0 <= i < |ops| ==> (IngestsAt(all, k, i) <==> IngestsAt(ops, k, i));
    assert all[..j + 1] == ops[..j + 1];
  }

  lemma RecordNew(x: Simple, ops: seq<Op>, y: Simple, op: Op)
    requires op.Ingest? && op.key !in y.records && RecordAfter(x, ops, y.records, op.key)
    requires y.seqno == x.seqno + Ingests(ops)
    ensures RecordAfter(x, ops + [op], SimpleStep(y, op).records, op.key)
  {
    hide Ingests;
    var all, n, k := ops + [op], |ops|, op.key;
    Prefixed(ops, op, k);
    assert FirstAt(all, k, n) && all[..n + 1] == all;
    OneIngest(ops, op);
    assert NewAt(x, all, SimpleStep(y, op).records[k], k, n);
  }

  lemma OneIngest(ops: seq<Op>, op: Op)
    requires op.Ingest?
    ensures Ingests(ops + [op]) == Ingests(ops) + 1
  {
    assert (ops + [op])[..|ops|] == ops;
  }

  lemma RecordElse(x: Simple, ops: seq<Op>, m: Records, m': Records, op: Op, k: Key)
    requires RecordAfter(x, ops, m, k) && !(op.Ingest? && op.key == k)
    requires (k in m <==> k in m') && (k in m ==> m[k] == m'[k])
    ensures RecordAfter(x, ops + [op], m', k)
  {
    hide NewAt, IngestsAt;
    var all := ops + [op];
    Prefixed(ops, op, k);
    BelowAll(ops, k);
    BelowAll(all, k);
    if k in m && k !in x.records {
      var j :| NewAt(x, ops, m[k], k, j);
      NewStays(x, ops, op, m[k], m[k], k, j);
    }
  }

  /** In an epoch, which begins without high-water marks, the watermark of a log becomes the
      greatest one advanced to, if any. */
  ghost predicate WatermarkAfter(x: Simple, ops: seq<Op>, y: Simple, id: Bytes) {
    && (forall j :: AdvancesAt(ops, id, j) ==> id in y.wms && ops[j].wm <= y.wms[id])
    && (id in y.high ==> id in y.wms && y.high[id] == y.wms[id] &&
                         exists j :: AdvancesAt(ops, id, j) && y.wms[id] == ops[j].wm)
    && (id !in y.high ==>
          && (forall j :: !AdvancesAt(ops, id, j))
          && (id in y.wms <==> id in x.wms) && (id in x.wms ==> y.wms[id] == x.wms[id]))
  }

  lemma {:induction false} PlainWatermark(x: Simple, ops: seq<Op>, id: Bytes)
    requires id !in x.high
    ensures WatermarkAfter(x, ops, SimpleRun(x, ops), id)
    decreases |ops|
  {
    hide WatermarkAfter, SimpleStep;
    if ops == [] {
      WatermarkAtFirst(x, id);
    } else {
      var n := |ops| - 1;
      PlainWatermark(x, ops[..n], id);
      WatermarkStep(x, ops[..n], SimpleRun(x, ops[..n]), ops[n], id);
      assert ops == ops[..n] + [ops[n]];
    }
  }

  lemma WatermarkAtFirst(x: Simple, id: Bytes)
    requires id !in x.high
    ensures WatermarkAfter(x, [], x, id)
  {
  }

  lemma WatermarkStep(x: Simple, ops: seq<Op>, y: Simple, op: Op, id: Bytes)
    requires WatermarkAfter(x, ops, y, id)
    ensures WatermarkAfter(x, ops + [op], SimpleStep(y, op), id)
  {
    var all, n := ops + [op], |ops|;
    assert forall j :: 0 <= j < n ==> (AdvancesAt(all, id, j) <==> AdvancesAt(ops, id, j));
    if op.Advance? && op.log == id {
      assert AdvancesAt(all, id, n);
    }
  }

  /** The same keys, sources and sequence numbers; stored dates are never earlier
      than the earliest ingested, and are exactly the earliest when `exact`. */
  ghost predicate SameRecords(exact: bool, plain: Records, stored: Records) {
    && plain.Keys == stored.Keys
    && forall k :: k in plain ==>
         && SameRecord(plain[k], stored[k])
         && plain[k].firstSeen <= stored[k].firstSeen
         && (exact ==> plain[k].firstSeen == stored[k].firstSeen)
  }

  /** The loop's whole state stands for x. */
  ghost predicate Stands(exact: bool, x: Simple, s: State) {
    && SameRecords(exact, x.records, Merged(s).records)
    && x.seqno == s.seqno
    && x.wms == s.db.wms + s.pendingWM
    && x.high == s.wmHigh
  }

  /** The database alone stands for y. */
  ghost predicate StandsDurably(exact: bool, y: Simple, db: DB) {
    && SameRecords(exact, y.records, db.records)
    && y.seqno == db.seqno
    && y.wms == db.wms
  }

  /** When ingesting date d for k leaves the earliest date in the merged view: the
      cache must not hold a date above d while the view already holds one below. */
  ghost predicate DateSafe(fix: Repairs, s: State, op: Op) {
    op.Ingest? && Lookup(s, op.key).Some? && op.key in Merged(s).records ==>
      fix.dates
      || op.firstSeen >= Lookup(s, op.key).value.firstSeen
      || op.firstSeen <= Merged(s).records[op.key].firstSeen
  }

  // ----- One operation

  lemma SameInsert(exact: bool, plain: Records, stored: Records, k: Key, r: Rec)
    requires SameRecords(exact, plain, stored) && k !in stored
    ensures SameRecords(exact, plain[k := r], stored[k := r])
  {
  }

  lemma SameLower(exact: bool, plain: Records, stored: Records, k: Key, r: Rec, date: int)
    requires SameRecords(exact, plain, stored) && k in stored && SameRecord(stored[k], r)
    requires exact ==> r.firstSeen == Min(stored[k].firstSeen, date)
    requires Min(stored[k].firstSeen, date) <= r.firstSeen
    ensures k in plain
    ensures SameRecords(exact, plain[k := plain[k].(firstSeen := Min(plain[k].firstSeen, date))], stored[k := r])
  {
  }

  lemma StandsInsert(exact: bool, fix: Repairs, x: Simple, s: State, k: Key, firstSeen: int, source: byte)
    requires Inv(s) && Stands(exact, x, s) && Lookup(s, k) == None
    ensures Stands(exact, SimpleStep(x, Ingest(k, firstSeen, source)), Counted(Insert(fix, s, k, firstSeen, source)))
  {
    hide Merged, SameRecords, SeqInv;
    var t := Insert(fix, s, k, firstSeen, source);
    MergedIgnores(t, Counted(t));
    MergedInsert(fix, s, k, firstSeen, source);
    assert k !in Merged(s).records && k !in x.records by { NotMerged(exact, x, s, k); }
    SameInsert(exact, x.records, Merged(s).records, k, Rec(firstSeen, source, s.seqno + 1));
  }

  lemma NotMerged(exact: bool, x: Simple, s: State, k: Key)
    requires Inv(s) && Stands(exact, x, s) && Lookup(s, k) == None
    ensures k !in Merged(s).records && k !in x.records
  {
  }

  /** The date the merged view holds after a refresh. */
  function Refreshed(m: Records, k: Key, firstSeen: int, st: Rec): Rec
    requires k in m
  {
    if st.firstSeen <= firstSeen then m[k] else st.(firstSeen := firstSeen)
  }

  lemma RefreshedDate(exact: bool, fix: Repairs, s: State, k: Key, firstSeen: int, source: byte, st: Rec)
    requires Inv(s) && Lookup(s, k) == Some(st)
    requires exact ==> DateSafe(fix, s, Ingest(k, firstSeen, source)) && (fix.dates ==> CacheDates(s))
    ensures k in Merged(s).records
    ensures var m := Merged(s).records;
            var r := Refreshed(m, k, firstSeen, st);
            && SameRecord(m[k], r)
            && Min(m[k].firstSeen, firstSeen) <= r.firstSeen
            && (exact ==> Min(m[k].firstSeen, firstSeen) == r.firstSeen)
  {
    hide Inv, Merged;
    InMerged(s, k, st);
    DateFalls(s, k, st);
  }

  lemma MergedRefreshed(fix: Repairs, s: State, k: Key, firstSeen: int, st: Rec)
    requires k in Merged(s).records
    ensures var t := Counted(Refresh(fix, s, k, firstSeen, st));
            && Merged(t).records == Merged(s).records[k := Refreshed(Merged(s).records, k, firstSeen, st)]
            && t.db == s.db && t.pendingWM == s.pendingWM && t.wmHigh == s.wmHigh && t.seqno == s.seqno + 1
  {
    hide Merged;
    var m := Merged(s).records;
    MergedIgnores(Refresh(fix, s, k, firstSeen, st), Counted(Refresh(fix, s, k, firstSeen, st)));
    MergedRefresh(fix, s, k, firstSeen, st);
    assert m[k := m[k]] == m;
  }

  lemma StandsRefresh(exact: bool, fix: Repairs, x: Simple, s: State, k: Key, firstSeen: int, source: byte, st: Rec)
    requires Inv(s) && Stands(exact, x, s) && Lookup(s, k) == Some(st)
    requires exact ==> DateSafe(fix, s, Ingest(k, firstSeen, source)) && (fix.dates ==> CacheDates(s))
    ensures Stands(exact, SimpleStep(x, Ingest(k, firstSeen, source)), Counted(Refresh(fix, s, k, firstSeen, st)))
  {
    hide Merged, SameRecords, Inv, Refresh, Refreshed, DateSafe, CacheDates, Lookup;
    RefreshedDate(exact, fix, s, k, firstSeen, source, st);
    MergedRefreshed(fix, s, k, firstSeen, st);
    var m := Merged(s).records;
    SameLower(exact, x.records, m, k, Refreshed(m, k, firstSeen, st), firstSeen);
  }

  /** With the repaired cache, the cached date is the merged one. */
  ghost predicate CacheDates(s: State) {
    forall k :: k in s.pendingRecords && k in Merged(s).records ==>
           s.pendingRecords[k].firstSeen == Merged(s).records[k].firstSeen
  }

  lemma DateFalls(s: State, k: Key, st: Rec)
    requires Inv(s) && Lookup(s, k) == Some(st)
    ensures k in Merged(s).records && Merged(s).records[k].firstSeen <= st.firstSeen
    ensures CacheDates(s) ==> Merged(s).records[k].firstSeen == st.firstSeen
  {
  }

  lemma StandsApply(exact: bool, fix: Repairs, x: Simple, s: State, k: Key, firstSeen: int, source: byte)
    requires Inv(s) && Stands(exact, x, s)
    requires exact ==> DateSafe(fix, s, Ingest(k, firstSeen, source)) && (fix.dates ==> CacheDates(s))
    ensures Stands(exact, SimpleStep(x, Ingest(k, firstSeen, source)), Counted(Apply(fix, s, k, firstSeen, source)))
  {
    hide Stands, Inv, DateSafe, CacheDates, SimpleStep, Insert, Refresh;
    match Lookup(s, k)
    case None => StandsInsert(exact, fix, x, s, k, firstSeen, source);
    case Some(st) => StandsRefresh(exact, fix, x, s, k, firstSeen, source, st);
  }

  /** A flush makes the whole state durable. */
  lemma StandsFlush(exact: bool, fix: Repairs, x: Simple, s: State)
    requires Inv(s) && Stands(exact, x, s)
    ensures Stands(exact, x, Flush(fix, s))
    ensures !Idle(s) ==> StandsDurably(exact, x, Flush(fix, s).db)
  {
    hide SameRecords, SeqInv, RecordsInv;
    if !Idle(s) {
      var t := Flush(fix, s);
      MergedNothing(t);
      assert t.db.wms + map[] == t.db.wms;
    }
  }

  /** What the database stands for after a step: the new plain state if the step
      committed, the old one otherwise. */
  ghost predicate StepsTo(exact: bool, x: Simple, y: Simple, n: nat, t: State) {
    && Stands(exact, x, t)
    && (t.durable == |t.history| || t.durable == n)
    && StandsDurably(exact, if t.durable == |t.history| then x else y, t.db)
  }

  lemma StepsFlush(exact: bool, fix: Repairs, x: Simple, y: Simple, s: State)
    requires Inv(s) && Stands(exact, x, s) && StandsDurably(exact, y, s.db)
    requires s.durable == |s.history| ==> x == y
    ensures StepsTo(exact, x, y, s.durable, Flush(fix, s))
  {
    hide Inv, Stands, StandsDurably;
    StandsFlush(exact, fix, x, s);
  }

  lemma StepsPending(exact: bool, x: Simple, y: Simple, n: nat, s: State, pending: nat)
    requires StepsTo(exact, x, y, n, s)
    ensures StepsTo(exact, x, y, n, s.(pending := pending))
  {
    MergedIgnores(s, s.(pending := pending));
  }

  lemma StepsIngest(exact: bool, fix: Repairs, x: Simple, y: Simple, s: State, k: Key, firstSeen: int, source: byte)
    requires Inv(s) && Stands(exact, x, s) && StandsDurably(exact, y, s.db) && s.durable < |s.history|
    requires exact ==> DateSafe(fix, s, Ingest(k, firstSeen, source)) && (fix.dates ==> CacheDates(s))
    ensures StepsTo(exact, SimpleStep(x, Ingest(k, firstSeen, source)), y, s.durable,
            HandleIngest(fix, s, k, firstSeen, source))
  {
    hide Inv, Stands, StandsDurably, DateSafe, CacheDates, SimpleStep, Apply, Flush;
    var x' := SimpleStep(x, Ingest(k, firstSeen, source));
    var u := Counted(Apply(fix, s, k, firstSeen, source));
    InvApply(fix, s, k, firstSeen, source);
    StandsApply(exact, fix, x, s, k, firstSeen, source);
    ApplyFrame(fix, s, k, firstSeen, source);
    if u.pending >= 512 {
      StepsFlush(exact, fix, x', y, u);
      StepsPending(exact, x', y, s.durable, Flush(fix, u), 0);
    }
  }

  lemma StepsAdvance(exact: bool, x: Simple, y: Simple, s: State, log: Bytes, wm: int)
    requires Stands(exact, x, s) && StandsDurably(exact, y, s.db) && s.durable < |s.history|
    ensures StepsTo(exact, SimpleStep(x, Advance(log, wm)), y, s.durable, HandleAdvance(s, log, wm))
  {
    hide Merged, SameRecords;
    MergedIgnores(s, HandleAdvance(s, log, wm));
    assert s.db.wms + s.pendingWM[log := wm] == (s.db.wms + s.pendingWM)[log := wm];
  }

  lemma StandsReset(exact: bool, x: Simple, s: State, t: State)
    requires Stands(exact, x, s) && Merged(s) == s.db
    requires t.db.records == s.db.records && t.db.wms == s.db.wms && t.batch == []
    requires t.seqno == s.seqno && t.pendingWM == s.pendingWM && t.wmHigh == s.wmHigh
    ensures Stands(exact, x, t)
  {
    MergedNothing(t);
  }

  lemma StepsRecount(exact: bool, fix: Repairs, x: Simple, y: Simple, s: State)
    requires Inv(s) && Stands(exact, x, s) && StandsDurably(exact, y, s.db) && s.durable < |s.history|
    ensures StepsTo(exact, x, y, s.durable, HandleRecount(fix, s))
  {
    hide Inv, Stands, Recounted, Merged;
    var f := Flush(fix, s);
    StepsFlush(exact, fix, x, y, s);
    FlushEmpties(fix, s);
    RecountedKeeps(f.db, Apexes(f.db.records));
    StandsReset(exact, x, f, HandleRecount(fix, s));
  }

  lemma FlushEmpties(fix: Repairs, s: State)
    ensures var t := Flush(fix, s); t.batch == [] && t.pendingWM == map[] && Merged(t) == t.db
  {
    MergedNothing(Flush(fix, s));
  }

  lemma HistoryIrrelevant(exact: bool, fix: Repairs, x: Simple, s: State, op: Op)
    requires Inv(s) && Stands(exact, x, s)
    ensures var t := s.(history := s.history + [op]);
            && Inv(t) && Stands(exact, x, t)
            && (CacheDates(s) ==> CacheDates(t))
            && (DateSafe(fix, s, op) ==> DateSafe(fix, t, op))
  {
    hide RecordsInv, SeqInv, SameRecords;
    MergedIgnores(s, s.(history := s.history + [op]));
  }

  lemma StepsHandle(exact: bool, fix: Repairs, x: Simple, y: Simple, s: State, op: Op)
    requires Inv(s) && Stands(exact, x, s) && StandsDurably(exact, y, s.db)
    requires exact ==> DateSafe(fix, s, op) && (fix.dates ==> CacheDates(s))
    ensures StepsTo(exact, SimpleStep(x, op), y, s.durable, Handle(fix, s, op))
  {
    hide Stands, StandsDurably, DateSafe, CacheDates, SimpleStep, HandleIngest, HandleAdvance, HandleRecount;
    var t := s.(history := s.history + [op]);
    HistoryIrrelevant(exact, fix, x, s, op);
    match op
    case Ingest(k, firstSeen, source) => StepsIngest(exact, fix, x, y, t, k, firstSeen, source);
    case Advance(log, wm) => StepsAdvance(exact, x, y, t, log, wm);
    case Recount =>
      StepsRecount(exact, fix, x, y, t);
      SimpleRecount(x);
  }

  lemma SimpleRecount(x: Simple)
    ensures SimpleStep(x, Recount) == x
  {
  }

  lemma StepsTick(exact: bool, fix: Repairs, x: Simple, y: Simple, s: State)
    requires Inv(s) && Stands(exact, x, s) && StandsDurably(exact, y, s.db)
    requires s.durable == |s.history| ==> x == y
    ensures StepsTo(exact, x, y, s.durable, Tick(fix, s))
  {
    hide Inv, Stands, StandsDurably, Flush;
    if s.pending > 0 || s.pendingWM != map[] {
      StepsFlush(exact, fix, x, y, s);
      StepsPending(exact, x, y, s.durable, Flush(fix, s), 0);
    }
  }

  // ----- The repaired cache follows the batch

  lemma CacheDatesInsert(fix: Repairs, s: State, k: Key, firstSeen: int, source: byte)
    requires CacheDates(s)
    ensures CacheDates(Counted(Insert(fix, s, k, firstSeen, source)))
  {
    hide Merged;
    MergedIgnores(Insert(fix, s, k, firstSeen, source), Counted(Insert(fix, s, k, firstSeen, source)));
    MergedInsert(fix, s, k, firstSeen, source);
  }

  lemma CacheDatesRefresh(fix: Repairs, s: State, k: Key, firstSeen: int, st: Rec)
    requires fix.dates && CacheDates(s) && k in Merged(s).records && Merged(s).records[k].firstSeen == st.firstSeen
    ensures CacheDates(Counted(Refresh(fix, s, k, firstSeen, st)))
  {
    hide Merged;
    MergedIgnores(Refresh(fix, s, k, firstSeen, st), Counted(Refresh(fix, s, k, firstSeen, st)));
    MergedRefresh(fix, s, k, firstSeen, st);
  }

  lemma CacheDatesApply(fix: Repairs, s: State, k: Key, firstSeen: int, source: byte)
    requires fix.dates && Inv(s) && CacheDates(s)
    ensures CacheDates(Counted(Apply(fix, s, k, firstSeen, source)))
  {
    hide Merged, Inv, Insert, Refresh;
    match Lookup(s, k)
    case None => CacheDatesInsert(fix, s, k, firstSeen, source);
    case Some(st) =>
      DateFalls(s, k, st);
      CacheDatesRefresh(fix, s, k, firstSeen, st);
  }

  lemma CacheDatesEmpty(s: State)
    requires s.pendingRecords == map[]
    ensures CacheDates(s)
  {
  }

  lemma CacheDatesSame(s: State, t: State)
    requires CacheDates(s) && t.pendingRecords == s.pendingRecords && t.db == s.db && t.batch == s.batch
    ensures CacheDates(t)
  {
    MergedIgnores(s, t);
  }

  lemma CacheDatesFlush(fix: Repairs, s: State, pending: nat)
    requires CacheDates(s)
    ensures CacheDates(Flush(fix, s)) && CacheDates(Flush(fix, s).(pending := pending))
  {
    hide CacheDates, Merged;
    if Idle(s) {
      CacheDatesSame(s, s.(pending := pending));
    } else {
      CacheDatesEmpty(Flush(fix, s));
      CacheDatesEmpty(Flush(fix, s).(pending := pending));
    }
  }

  lemma CacheDatesHandle(fix: Repairs, s: State, op: Op)
    requires fix.dates && Inv(s) && CacheDates(s)
    ensures CacheDates(Handle(fix, s, op))
  {
    hide CacheDates, Inv, Flush, Apply;
    var t := s.(history := s.history + [op]);
    InvHistory(s, op);
    CacheDatesSame(s, t);
    match op
    case Ingest(k, firstSeen, source) =>
      CacheDatesApply(fix, t, k, firstSeen, source);
      CacheDatesFlush(fix, Counted(Apply(fix, t, k, firstSeen, source)), 0);
    case Advance(log, wm) => CacheDatesSame(t, HandleAdvance(t, log, wm));
    case Recount => CacheDatesEmpty(HandleRecount(fix, t));
  }

  /** A step keeps the earliest date exactly when it is safe: `DateSafe` is not
      only sufficient but necessary. */
  lemma {:induction false} DateSafeIff(s: State, k: Key, firstSeen: int, source: byte)
    requires Inv(s) && k in Merged(s).records
    ensures var t := Apply(AsWritten, s, k, firstSeen, source);
            && k in Merged(t).records
            && (Merged(t).records[k].firstSeen == Min(Merged(s).records[k].firstSeen, firstSeen)
                <==> DateSafe(AsWritten, s, Ingest(k, firstSeen, source)))
  {
    hide Merged, SeqInv;
    assert Lookup(s, k).Some?;
    var st := Lookup(s, k).value;
    DateFalls(s, k, st);
    MergedRefresh(AsWritten, s, k, firstSeen, st);
  }
}
