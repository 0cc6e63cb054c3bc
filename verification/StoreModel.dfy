/** The ingest loop of internal/store/store.go as functions on values: a durable
    database, the open batch on top of it, and the caches the loop keeps. */
module StoreModel {
  import opened ByteStrings

  datatype Option<T> = None | Some(value: T)

  datatype Key = Key(apex: Bytes, sub: Bytes)

  datatype Rec = Rec(firstSeen: int, source: byte, seqno: nat)

  /** What the channel carries. */
  datatype Op =
    | Ingest(key: Key, firstSeen: int, source: byte)
    | Advance(log: Bytes, wm: int)
    | Recount

  /** The database, one map per key space (module Keys relates them to byte keys).
      Absent `total` and `seq` entries read as zero. */
  datatype DB = DB(
    records: map<Key, Rec>,
    counts: map<Bytes, nat>,
    total: nat,
    seqno: nat,
    wms: map<Bytes, int>)

  datatype Write =
    | SetRecord(key: Key, rec: Rec)
    | SetCount(apex: Bytes, n: nat)
    | SetTotal(n: nat)
    | SetSeq(n: nat)
    | SetWM(log: Bytes, wm: int)

  /** One call of the OnNew hook. */
  datatype Hook = Hook(key: Key, firstSeen: int, source: byte, seqno: nat)

  function Put(db: DB, w: Write): DB {
    match w
    case SetRecord(k, r) => db.(records := db.records[k := r])
    case SetCount(a, n) => db.(counts := db.counts[a := n])
    case SetTotal(n) => db.(total := n)
    case SetSeq(n) => db.(seqno := n)
    case SetWM(id, n) => db.(wms := db.wms[id := n])
  }

  /** The atomic commit of a batch. */
  function Commit(db: DB, batch: seq<Write>): DB {
    if batch == [] then db else Put(Commit(db, batch[..|batch| - 1]), batch[|batch| - 1])
  }

  lemma CommitOne(db: DB, batch: seq<Write>, w: Write)
    ensures Commit(db, batch + [w]) == Put(Commit(db, batch), w)
  {
    assert (batch + [w])[..|batch|] == batch;
  }

  /** Which of three departures from the plain intention are repaired: the cached
      first-seen date follows the batch; a flush moves the pending total into the
      base; counters are read from the database even when `closed` is set. */
  datatype Repairs = Repairs(dates: bool, total: bool, counts: bool)

  const AsWritten := Repairs(false, false, false)

  datatype State = State(
    db: DB,
    batch: seq<Write>,
    seqno: nat,
    closed: bool,
    pending: nat,
    pendingRecords: map<Key, Rec>,
    pendingCounts: map<Bytes, nat>,
    pendingWM: map<Bytes, int>,
    wmHigh: map<Bytes, int>,
    pendingTotal: nat,
    totalBase: nat,
    hooks: seq<Hook>,     // OnNew calls since the store was opened
    history: seq<Op>,     // operations handled since the store was opened
    durable: nat)         // how many of them the last commit covered

  /** The database as it would be if the open batch were committed now. */
  function Merged(s: State): DB { Commit(s.db, s.batch) }

  function Num(m: map<Bytes, nat>, a: Bytes): nat { if a in m then m[a] else 0 }

  function Open(db: DB): State {
    State(db, [], db.seqno, false, 0, map[], map[], map[], map[], 0, db.total, [], [], 0)
  }

  /** The loop's view of a key: its cache first, then the database. */
  function Lookup(s: State, k: Key): Option<Rec> {
    if k in s.pendingRecords then Some(s.pendingRecords[k])
    else if k in s.db.records then Some(s.db.records[k])
    else None
  }

  function PendingCount(fix: Repairs, s: State, a: Bytes): nat {
    if a in s.pendingCounts then s.pendingCounts[a]
    else if s.closed && !fix.counts then 0
    else Num(s.db.counts, a)
  }

  function Insert(fix: Repairs, s: State, k: Key, firstSeen: int, source: byte): State {
    var rec := Rec(firstSeen, source, s.seqno + 1);
    var n := PendingCount(fix, s, k.apex) + 1;
    s.(pendingRecords := s.pendingRecords[k := rec],
       pendingCounts := s.pendingCounts[k.apex := n],
       pendingTotal := s.pendingTotal + 1,
       batch := s.batch + [SetRecord(k, rec)] + [SetCount(k.apex, n)] + [SetTotal(s.totalBase + s.pendingTotal + 1)],
       hooks := s.hooks + [Hook(k, firstSeen, source, s.seqno + 1)])
  }

  function Refresh(fix: Repairs, s: State, k: Key, firstSeen: int, st: Rec): State {
    if st.firstSeen <= firstSeen then s.(pendingRecords := s.pendingRecords[k := st])
    else
      var lowered := st.(firstSeen := firstSeen);
      s.(pendingRecords := s.pendingRecords[k := if fix.dates then lowered else st],
         batch := s.batch + [SetRecord(k, lowered)])
  }

  function Apply(fix: Repairs, s: State, k: Key, firstSeen: int, source: byte): State {
    match Lookup(s, k)
    case None => Insert(fix, s, k, firstSeen, source)
    case Some(st) => Refresh(fix, s, k, firstSeen, st)
  }

  /** Nothing is written when the batch is empty and no watermark is pending. */
  predicate Idle(s: State) { s.batch == [] && s.pendingWM == map[] }

  function Flush(fix: Repairs, s: State): State {
    if Idle(s) then s
    else
      var merged := Merged(s);
      s.(db := merged.(seqno := s.seqno, wms := merged.wms + s.pendingWM),
         batch := [], pending := 0,
         pendingRecords := map[], pendingCounts := map[], pendingWM := map[],
         pendingTotal := 0,
         totalBase := if fix.total then s.totalBase + s.pendingTotal else s.totalBase,
         durable := |s.history|)
  }

  function HandleIngest(fix: Repairs, s: State, k: Key, firstSeen: int, source: byte): State {
    var t := Apply(fix, s, k, firstSeen, source);
    var u := t.(seqno := t.seqno + 1, pending := t.pending + 1);
    if u.pending >= 512 then Flush(fix, u).(pending := 0) else u
  }

  function HandleAdvance(s: State, log: Bytes, wm: int): State {
    if log !in s.wmHigh || wm > s.wmHigh[log] then
      s.(wmHigh := s.wmHigh[log := wm], pendingWM := s.pendingWM[log := wm])
    else s
  }

  function RecordsOf(records: map<Key, Rec>, a: Bytes): set<Key> {
    set k | k in records && k.apex == a
  }

  /** The number of records an apex has. */
  function CountOf(records: map<Key, Rec>, a: Bytes): nat { |RecordsOf(records, a)| }

  function Apexes(records: map<Key, Rec>): set<Bytes> { set k | k in records :: k.apex }

  /** The database once the exact counters of some apexes have been written. */
  function Recounted(db: DB, apexes: set<Bytes>): DB {
    db.(counts := db.counts + map a | a in apexes :: CountOf(db.records, a))
  }

  function HandleRecount(fix: Repairs, s: State): State {
    var t := Flush(fix, s);
    var n := |t.db.records|;
    t.(db := Recounted(t.db, Apexes(t.db.records)).(total := n),
       totalBase := n, pendingTotal := 0,
       pendingCounts := map[], pendingRecords := map[], batch := [])
  }

  function Handle(fix: Repairs, s: State, op: Op): State {
    var t := s.(history := s.history + [op]);
    match op
    case Ingest(k, firstSeen, source) => HandleIngest(fix, t, k, firstSeen, source)
    case Advance(log, wm) => HandleAdvance(t, log, wm)
    case Recount => HandleRecount(fix, t)
  }

  /** The 20 ms timer. */
  function Tick(fix: Repairs, s: State): State {
    if s.pending > 0 || s.pendingWM != map[] then Flush(fix, s).(pending := 0) else s
  }

  /** The fields an insert or a refresh leaves alone. */
  ghost predicate SameFrame(s: State, t: State) {
    && t.db == s.db && t.seqno == s.seqno && t.closed == s.closed
    && t.pendingWM == s.pendingWM && t.wmHigh == s.wmHigh
    && t.history == s.history && t.durable == s.durable
  }

  lemma InsertFrame(fix: Repairs, s: State, k: Key, firstSeen: int, source: byte)
    ensures SameFrame(s, Insert(fix, s, k, firstSeen, source))
  {
  }

  lemma RefreshFrame(fix: Repairs, s: State, k: Key, firstSeen: int, st: Rec)
    ensures SameFrame(s, Refresh(fix, s, k, firstSeen, st))
  {
  }

  lemma ApplyFrame(fix: Repairs, s: State, k: Key, firstSeen: int, source: byte)
    ensures SameFrame(s, Apply(fix, s, k, firstSeen, source))
  {
    hide SameFrame, Insert, Refresh;
    match Lookup(s, k)
    case None => InsertFrame(fix, s, k, firstSeen, source);
    case Some(st) => RefreshFrame(fix, s, k, firstSeen, st);
  }

  // ----- The merged view after each operation

  lemma MergedInsert(fix: Repairs, s: State, k: Key, firstSeen: int, source: byte)
    ensures var n := PendingCount(fix, s, k.apex) + 1;
            Merged(Insert(fix, s, k, firstSeen, source)) ==
            Merged(s).(records := Merged(s).records[k := Rec(firstSeen, source, s.seqno + 1)],
                       counts := Merged(s).counts[k.apex := n],
                       total := s.totalBase + s.pendingTotal + 1)
  {
    var r, c := SetRecord(k, Rec(firstSeen, source, s.seqno + 1)), SetCount(k.apex, PendingCount(fix, s, k.apex) + 1);
    CommitOne(s.db, s.batch, r);
    CommitOne(s.db, s.batch + [r], c);
    CommitOne(s.db, s.batch + [r] + [c], SetTotal(s.totalBase + s.pendingTotal + 1));
  }

  lemma MergedRefresh(fix: Repairs, s: State, k: Key, firstSeen: int, st: Rec)
    ensures Merged(Refresh(fix, s, k, firstSeen, st)) ==
            if st.firstSeen <= firstSeen then Merged(s)
            else Merged(s).(records := Merged(s).records[k := st.(firstSeen := firstSeen)])
  {
    CommitOne(s.db, s.batch, SetRecord(k, st.(firstSeen := firstSeen)));
  }
}
