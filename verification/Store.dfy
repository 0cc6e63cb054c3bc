/** The store object of internal/store/store.go: its fields, and the parts of the
    ingest loop as methods that update them. */
module StoreLoop {
  import opened ByteStrings
  import opened StoreModel
  import opened StoreInvariants
  import opened StoreCounters
  import opened StoreRuns

  class Store {
    var db: DB
    var batch: seq<Write>
    var seqno: nat
    var closed: bool
    var pending: nat
    var pendingRecords: map<Key, Rec>
    var pendingCounts: map<Bytes, nat>
    var pendingWM: map<Bytes, int>
    var wmHigh: map<Bytes, int>
    var pendingTotal: nat
    var totalBase: nat
    var hooks: seq<Hook>
    ghost var history: seq<Op>
    ghost var durable: nat
    ghost var commits: seq<DB>   // every value the database has had since the store was opened

    ghost function View(): State
      reads this
    {
      State(db, batch, seqno, closed, pending, pendingRecords, pendingCounts, pendingWM, wmHigh,
            pendingTotal, totalBase, hooks, history, durable)
    }

    constructor (db: DB)
      ensures View() == Open(db) && commits == [db]
    {
      this.db, batch, seqno, closed, pending := db, [], db.seqno, false, 0;
      pendingRecords, pendingCounts, pendingWM, wmHigh := map[], map[], map[], map[];
      pendingTotal, totalBase, hooks := 0, db.total, [];
      history, durable, commits := [], 0, [db];
    }

    /** batch.Commit: the only way the database changes. */
    method CommitBatch(writes: seq<Write>)
      modifies this`db, this`commits
      ensures db == Commit(old(db), writes) && commits == old(commits) + [db]
    {
      db := Commit(db, writes);
      commits := commits + [db];
    }

    /** Adds the sequence counter and the pending watermarks to the batch. */
    method StageMeta()
      modifies this`batch
      ensures var merged := Commit(db, old(batch));
              Commit(db, batch) == merged.(seqno := seqno, wms := merged.wms + pendingWM)
    {
      hide Commit;
      ghost var merged := Commit(db, batch);
      CommitOne(db, batch, SetSeq(seqno));
      batch := batch + [SetSeq(seqno)];
      var todo := pendingWM.Keys;
      while todo != {}
        invariant todo <= pendingWM.Keys
        invariant Commit(db, batch) == merged.(seqno := seqno, wms := merged.wms + (pendingWM - todo))
      {
        var id :| id in todo;
        CommitOne(db, batch, SetWM(id, pendingWM[id]));
        assert pendingWM - (todo - {id}) == (pendingWM - todo)[id := pendingWM[id]];
        batch := batch + [SetWM(id, pendingWM[id])];
        todo := todo - {id};
      }
      assert pendingWM - {} == pendingWM;
    }

    /** Empties the caches after a commit; only the high-water marks survive. */
    method ResetPending()
      modifies this`pendingRecords, this`pendingCounts, this`pendingWM,
               this`pendingTotal, this`pending, this`batch, this`durable
      ensures pendingRecords == map[] && pendingCounts == map[] && pendingWM == map[]
      ensures pendingTotal == 0 && pending == 0 && batch == [] && durable == |history|
    {
      pendingRecords, pendingCounts, pendingWM := map[], map[], map[];
      pendingTotal, pending, batch := 0, 0, [];
      durable := |history|;
    }

    method FlushBatch()
      modifies this
      ensures View() == Flush(AsWritten, old(View()))
      ensures commits == if Idle(old(View())) then old(commits) else old(commits) + [db]
    {
      hide Commit, Flush;
      IdleFlush(AsWritten, View());
      if batch == [] && pendingWM == map[] { return; }
      StageMeta();
      CommitBatch(batch);
      ResetPending();
    }

    /** The counter before an insert; it stays cached. */
    method CountPending(a: Bytes) returns (n: nat)
      modifies this`pendingCounts
      ensures n == PendingCount(AsWritten, old(View()), a)
      ensures pendingCounts == old(pendingCounts)[a := n]
    {
      if a in pendingCounts {
        n := pendingCounts[a];
      } else {
        n := if closed then 0 else if a in db.counts then db.counts[a] else 0;
      }
      pendingCounts := pendingCounts[a := n];
    }

    method InsertRecord(k: Key, firstSeen: int, source: byte)
      modifies this`pendingRecords, this`pendingCounts, this`pendingTotal, this`batch, this`hooks
      ensures View() == Insert(AsWritten, old(View()), k, firstSeen, source)
    {
      hide PendingCount;
      var rec := Rec(firstSeen, source, seqno + 1);
      var n := CountPending(k.apex);
      pendingRecords := pendingRecords[k := rec];
      pendingCounts := pendingCounts[k.apex := n + 1];
      assert pendingCounts == old(pendingCounts)[k.apex := n + 1];
      pendingTotal := pendingTotal + 1;
      batch := batch + [SetRecord(k, rec)] + [SetCount(k.apex, n + 1)] + [SetTotal(totalBase + pendingTotal)];
      hooks := hooks + [Hook(k, firstSeen, source, seqno + 1)];
    }

    method ApplyRecord(k: Key, firstSeen: int, source: byte)
      modifies this
      ensures View() == Apply(AsWritten, old(View()), k, firstSeen, source)
      ensures commits == old(commits)
    {
      hide Insert;
      var st: Option<Rec> := None;
      if k in pendingRecords {
        st := Some(pendingRecords[k]);
      } else if k in db.records {
        st := Some(db.records[k]);
      }
      if st == None {
        InsertRecord(k, firstSeen, source);
        return;
      }
      var known := st.value;
      pendingRecords := pendingRecords[k := known];
      if known.firstSeen > firstSeen {
        batch := batch + [SetRecord(k, known.(firstSeen := firstSeen))];
      }
    }

    method IngestRecord(k: Key, firstSeen: int, source: byte)
      modifies this
      ensures View() == HandleIngest(AsWritten, old(View()), k, firstSeen, source)
      ensures commits == if FillsWindow(old(View()), k, firstSeen, source) then old(commits) + [db] else old(commits)
    {
      hide Flush, Apply, Commit, Idle;
      ApplyRecord(k, firstSeen, source);
      seqno := seqno + 1;
      pending := pending + 1;
      PacedApply(AsWritten, old(View()), k, firstSeen, source);
      assert View() == Counted(Apply(AsWritten, old(View()), k, firstSeen, source));
      if pending >= 512 {
        FlushBatch();
        pending := 0;
      }
    }

    method HandleOp(op: Op)
      modifies this
      ensures View() == Handle(AsWritten, old(View()), op)
      ensures CommitsOf(old(View()), op, old(commits), commits)
    {
      hide HandleIngest, HandleRecount, FillsWindow, Traced, Flush;
      history := history + [op];
      match op {
        case Advance(log, wm) =>
          if log !in wmHigh || wm > wmHigh[log] {
            wmHigh := wmHigh[log := wm];
            pendingWM := pendingWM[log := wm];
          }
        case Recount =>
          var total := RecountInLoop();
        case Ingest(k, firstSeen, source) =>
          IngestRecord(k, firstSeen, source);
      }
    }

    /** The shutdown branch of the loop: what is queued is handled, then flushed. */
    method DrainAndStop(queue: seq<Op>)
      modifies this
      ensures View() == Flush(AsWritten, HandleAll(old(View()), queue))
      ensures var s := HandleAll(old(View()), queue);
              exists mid :: CommitsOfAll(old(View()), queue, old(commits), mid)
                            && commits == if Idle(s) then mid else mid + [db]
    {
      hide Handle, Flush, CommitsOf, Idle;
      for i := 0 to |queue|
        invariant View() == HandleAll(old(View()), queue[..i])
        invariant CommitsOfAll(old(View()), queue[..i], old(commits), commits)
      {
        assert queue[..i + 1][..i] == queue[..i];
        ghost var before := commits;
        HandleOp(queue[i]);
        assert CommitsOf(HandleAll(old(View()), queue[..i]), queue[i], before, commits);
      }
      assert queue[..|queue|] == queue;
      ghost var mid := commits;
      FlushBatch();
      assert CommitsOfAll(old(View()), queue, old(commits), mid);
    }

    method TimerTick()
      modifies this
      ensures View() == Tick(AsWritten, old(View()))
      ensures commits == if (old(pending) > 0 || old(pendingWM) != map[]) && !Idle(old(View()))
                         then old(commits) + [db] else old(commits)
    {
      hide Flush, Idle;
      if pending > 0 || pendingWM != map[] {
        FlushBatch();
        pending := 0;
      }
    }

    /** The scan of all records: how many each apex has, and how many in all. */
    method CountRecords() returns (counts: map<Bytes, nat>, total: nat)
      ensures counts == Tally(db.records) && total == |db.records|
    {
      hide Tally, CountOf, Apexes;
      counts, total := map[], 0;
      var records, todo := db.records, db.records.Keys;
      ghost var done: Records := map[];
      TallyNone();
      while todo != {}
        invariant todo <= records.Keys && done == records - todo
        invariant counts == Tally(done) && total == |done|
      {
        var k :| k in todo;
        TallyOne(done, k, records[k]);
        Taken(records, todo, k);
        counts := counts[k.apex := Num(counts, k.apex) + 1];
        total := total + 1;
        done := done[k := records[k]];
        todo := todo - {k};
      }
      assert records - {} == records;
    }

    /** Writes the counters, committing a batch of its own whenever it is full; what
        is left over is returned. */
    method WriteCounts(counts: map<Bytes, nat>) returns (rc: seq<Write>)
      requires counts == Tally(db.records)
      modifies this`db, this`commits
      ensures Commit(db, rc) == Recounted(old(db), Apexes(old(db).records))
      ensures old(commits) <= commits && Traced(old(db), commits[|old(commits)|..])
    {
      hide Commit, Recounted, Tally, Apexes, CountOf;
      rc := [];
      var todo := counts.Keys;
      RecountedNone(db);
      CommitNone(db);
      TallyKeys(db.records);
      assert counts.Keys - todo == {};
      while todo != {}
        invariant todo <= counts.Keys
        invariant Commit(db, rc) == Recounted(old(db), counts.Keys - todo)
        invariant old(commits) <= commits && Traced(old(db), commits[|old(commits)|..])
      {
        var a :| a in todo;
        CommitOne(db, rc, SetCount(a, counts[a]));
        RecountedOne(old(db), counts.Keys - todo, a);
        assert counts.Keys - (todo - {a}) == counts.Keys - todo + {a};
        rc := rc + [SetCount(a, counts[a])];
        todo := todo - {a};
        if |rc| >= 4096 {
          CommitBatch(rc);
          CommitNone(db);
          rc := [];
        }
      }
      assert counts.Keys - {} == Apexes(old(db).records);
    }

    /** Every database committed on the way carries some exact counters and otherwise
        what was there before. */
    method RebuildCounters() returns (total: nat)
      modifies this`db, this`commits
      ensures db == Recounted(old(db), Apexes(old(db).records)).(total := total) && total == |old(db).records|
      ensures |commits| > |old(commits)| && old(commits) <= commits && commits[|commits| - 1] == db
      ensures Traced(old(db), commits[|old(commits)|..|commits| - 1])
    {
      hide Commit, Recounted, Traced, Tally, Apexes;
      var counts;
      counts, total := CountRecords();
      var rc := WriteCounts(counts);
      CommitOne(db, rc, SetTotal(total));
      ghost var before := commits;
      CommitBatch(rc + [SetTotal(total)]);
      assert commits[|old(commits)|..|commits| - 1] == before[|old(commits)|..];
    }

    method RecountInLoop() returns (total: nat)
      modifies this
      ensures View() == HandleRecount(AsWritten, old(View())) && total == |db.records|
      ensures |commits| > |old(commits)| && old(commits) <= commits && commits[|commits| - 1] == db
      ensures Traced(Flush(AsWritten, old(View())).db, commits[|old(commits)|..|commits| - 1])
    {
      hide Commit, Flush, Recounted, Traced, Idle, Apexes;
      FlushBatch();
      ghost var f, before := View(), commits;
      FlushTrace(AsWritten, old(View()), old(commits), commits);
      total := RebuildCounters();
      RecountedKeeps(f.db, Apexes(f.db.records));
      TracedJoin(f.db, old(commits), before, commits);
      ResetCounters(total);
    }

    method ResetCounters(total: nat)
      modifies this`totalBase, this`pendingTotal, this`pendingCounts, this`pendingRecords, this`batch
      ensures totalBase == total && pendingTotal == 0
      ensures pendingCounts == map[] && pendingRecords == map[] && batch == []
    {
      totalBase, pendingTotal := total, 0;
      pendingCounts, pendingRecords, batch := map[], map[], [];
    }
  }

  ghost function HandleAll(s: State, ops: seq<Op>): State {
    if ops == [] then s else Handle(AsWritten, HandleAll(s, ops[..|ops| - 1]), ops[|ops| - 1])
  }

  // ----- The databases on the way

  /** The ingest is the 512th operation of its window, and the window has something to write. */
  ghost predicate FillsWindow(s: State, k: Key, firstSeen: int, source: byte) {
    s.pending + 1 >= 512 && !Idle(Counted(Apply(AsWritten, s, k, firstSeen, source)))
  }

  /** What handling one operation commits: nothing for a watermark; one database for an
      ingest that fills the window, and else nothing; for a recount the counters in some
      batches, each leaving a database part way, and last the one it ends with. */
  ghost predicate CommitsOf(s: State, op: Op, before: seq<DB>, after: seq<DB>) {
    var h, db := s.(history := s.history + [op]), Handle(AsWritten, s, op).db;
    match op
    case Ingest(k, firstSeen, source) =>
      after == if FillsWindow(h, k, firstSeen, source) then before + [db] else before
    case Advance(log, wm) => after == before
    case Recount =>
      && before <= after && |before| < |after| && after[|after| - 1] == db
      && Traced(Flush(AsWritten, h).db, after[|before|..|after| - 1])
  }

  ghost predicate CommitsOfAll(s: State, ops: seq<Op>, before: seq<DB>, after: seq<DB>)
    decreases |ops|
  {
    if ops == [] then after == before
    else
      var n := |ops| - 1;
      exists mid :: CommitsOfAll(s, ops[..n], before, mid) && CommitsOf(HandleAll(s, ops[..n]), ops[n], mid, after)
  }

  /** A database on the way of a recount is one that a crash can leave. */
  lemma TracedIsCrash(y: Sys, db: DB)
    requires Recounting(y) && PartWay(Flush(AsWritten, y.s.(history := y.s.history + [Recount])).db, db)
    ensures exists written :: Step(AsWritten, y, CrashInRecount(written)).s.db == db
  {
    hide Flush, Recounted, Apexes;
    var f := Flush(AsWritten, y.s.(history := y.s.history + [Recount])).db;
    var written :| written <= Apexes(f.records) && db == Recounted(f, written);
    assert written * Apexes(f.records) == written;
    assert Step(AsWritten, y, CrashInRecount(written)).s.db == db;
  }

  /** A database is f with some exact counters written. */
  ghost predicate PartWay(f: DB, db: DB) {
    exists written :: written <= Apexes(f.records) && db == Recounted(f, written)
  }

  ghost predicate Traced(f: DB, dbs: seq<DB>) {
    forall i :: 0 <= i < |dbs| ==> PartWay(f, dbs[i])
  }

  lemma TracedJoin(f: DB, first: seq<DB>, second: seq<DB>, third: seq<DB>)
    requires first <= second <= third && |second| < |third|
    requires Traced(f, second[|first|..]) && Traced(f, third[|second|..|third| - 1])
    ensures Traced(f, third[|first|..|third| - 1])
  {
    hide PartWay;
    assert third[|first|..|third| - 1] == second[|first|..] + third[|second|..|third| - 1];
  }

  lemma IdleFlush(fix: Repairs, s: State)
    ensures Idle(s) ==> Flush(fix, s) == s
    ensures !Idle(s) ==>
            var m := Commit(s.db, s.batch);
            Flush(fix, s) == s.(db := m.(seqno := s.seqno, wms := m.wms + s.pendingWM),
                                pendingRecords := map[], pendingCounts := map[], pendingWM := map[],
                                pendingTotal := 0, pending := 0, batch := [], durable := |s.history|,
                                totalBase := if fix.total then s.totalBase + s.pendingTotal else s.totalBase)
  {
    hide Commit;
  }

  lemma FlushTrace(fix: Repairs, s: State, before: seq<DB>, after: seq<DB>)
    requires after == if Idle(s) then before else before + [Flush(fix, s).db]
    ensures before <= after && Traced(Flush(fix, s).db, after[|before|..])
  {
    var f := Flush(fix, s).db;
    assert Recounted(f, {}) == f;
  }

  lemma RecountedOne(db: DB, apexes: set<Bytes>, a: Bytes)
    ensures Put(Recounted(db, apexes), SetCount(a, CountOf(db.records, a))) == Recounted(db, apexes + {a})
  {
    hide CountOf;
    assert Recounted(db, apexes).counts[a := CountOf(db.records, a)] == Recounted(db, apexes + {a}).counts;
  }

  /** The number of records of each apex that has any. */
  function Tally(records: Records): map<Bytes, nat> {
    map a | a in Apexes(records) :: CountOf(records, a)
  }

  lemma TallyNone()
    ensures Tally(map[]) == map[]
  {
  }

  lemma TallyKeys(records: Records)
    ensures Tally(records).Keys == Apexes(records)
    ensures forall a :: a in Tally(records) ==> Tally(records)[a] == CountOf(records, a)
  {
  }

  lemma Taken(records: Records, todo: set<Key>, k: Key)
    requires k in todo && todo <= records.Keys
    ensures k !in records - todo && (records - todo)[k := records[k]] == records - (todo - {k})
  {
  }

  lemma TallyOne(done: Records, k: Key, r: Rec)
    requires k !in done
    ensures |done[k := r]| == |done| + 1
    ensures Tally(done[k := r]) == Tally(done)[k.apex := Num(Tally(done), k.apex) + 1]
  {
    hide CountOf;
    var more, t := done[k := r], Tally(done)[k.apex := Num(Tally(done), k.apex) + 1];
    assert Apexes(more) == Apexes(done) + {k.apex};
    forall a | a in Apexes(more) ensures CountOf(more, a) == t[a] {
      CountInsert(done, k, r, a);
      CountZero(done, a);
    }
  }

  lemma RecountedNone(db: DB)
    ensures Recounted(db, {}) == db
  {
  }

  lemma CommitNone(db: DB)
    ensures Commit(db, []) == db
  {
  }
}
