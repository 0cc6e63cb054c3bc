/** The change-tracking cursor: polls of ScanAfter, each from the previous poll's
    largest sequence number, over a database that lives through any run. */
module Cursor {
  import opened ByteStrings
  import opened StoreModel
  import opened StoreInvariants
  import opened StoreRuns
  import opened Scans
  import opened Keys

  // ----- From bytes to rows

  /** What the database iterator yields between two bounds. */
  ghost predicate IsIteration(m: ByteDB, lo: Bytes, hi: Bytes, it: seq<Entry>) {
    && (forall i, j :: 0 <= i < j < |it| ==> Less(it[i].key, it[j].key))
    && (forall i :: 0 <= i < |it| ==> it[i].key in m && InRange(it[i].key, lo, hi) && it[i].value == m[it[i].key])
    && (forall k :: k in m && InRange(k, lo, hi) ==> exists i :: 0 <= i < |it| && it[i].key == k)
  }

  function RowFor(k: Key, r: Rec): Row { Row(k.sub, r.firstSeen, r.seqno) }

  /** These rows are the records of the apex, each once. */
  ghost predicate IsScan(records: map<Key, Rec>, apex: Bytes, rows: seq<Row>) {
    && (forall i :: 0 <= i < |rows| ==> Key(apex, rows[i].sub) in records &&
                                        rows[i] == RowFor(Key(apex, rows[i].sub), records[Key(apex, rows[i].sub)]))
    && (forall k :: k in RecordsOf(records, apex) ==> exists i :: 0 <= i < |rows| && rows[i].sub == k.sub)
    && Distinct(rows)
  }

  lemma {:induction false} LessIrreflexive(a: Bytes)
    ensures !Less(a, a)
    decreases |a|
  {
    if a != [] { LessIrreflexive(a[1..]); }
  }

  /** An entry of an apex's range is the encoding of one of its records. */
  lemma EntryIsRecord(m: ByteDB, db: DB, apex: Bytes, e: Entry)
    requires RepsRecords(m, db.records) && ValidApex(apex)
    requires e.key in m && InRange(e.key, apex + [0x00], apex + [0x01]) && e.value == m[e.key]
    ensures |e.key| > |apex| && e.key == apex + [0x00] + e.key[|apex| + 1..]
    ensures var k := Key(apex, e.key[|apex| + 1..]);
            k in db.records && RowOf(|apex| + 1, e) == Some(RowFor(k, db.records[k]))
  {
    hide EncodeValue, DecodeValue, InRange;
    ApexRange(apex, e.key);
    var k := Key(apex, e.key[|apex| + 1..]);
    assert e.key == RecordKey(k);
    assert ValidKey(k);
    ValueRoundTrip(db.records[k]);
  }

  lemma {:induction false} RowsOfAll(m: ByteDB, db: DB, apex: Bytes, it: seq<Entry>)
    requires RepsRecords(m, db.records) && ValidApex(apex)
    requires forall i :: 0 <= i < |it| ==>
               it[i].key in m && InRange(it[i].key, apex + [0x00], apex + [0x01]) && it[i].value == m[it[i].key]
    ensures |Rows(|apex| + 1, it)| == |it|
    ensures forall i :: 0 <= i < |it| ==> RowOf(|apex| + 1, it[i]) == Some(Rows(|apex| + 1, it)[i])
    decreases |it|
  {
    hide RepsRecords, RowOf, InRange;
    if it != [] {
      var n := |it| - 1;
      RowsOfAll(m, db, apex, it[..n]);
      EntryIsRecord(m, db, apex, it[n]);
      forall i | 0 <= i < |it| ensures RowOf(|apex| + 1, it[i]) == Some(Rows(|apex| + 1, it)[i]) {
        if i < n { assert it[..n][i] == it[i]; }
      }
    }
  }

  lemma RowsOfRecords(m: ByteDB, db: DB, apex: Bytes, it: seq<Entry>)
    requires RepsRecords(m, db.records) && ValidApex(apex) && IsIteration(m, apex + [0x00], apex + [0x01], it)
    ensures var rows := Rows(|apex| + 1, it);
            && |rows| == |it|
            && forall i :: 0 <= i < |it| ==>
                 && it[i].key == apex + [0x00] + rows[i].sub
                 && Key(apex, rows[i].sub) in db.records
                 && rows[i] == RowFor(Key(apex, rows[i].sub), db.records[Key(apex, rows[i].sub)])
  {
    hide RepsRecords, RowOf, Rows, Less, InRange;
    RowsOfAll(m, db, apex, it);
    forall i | 0 <= i < |it|
      ensures |it[i].key| > |apex| && it[i].key == apex + [0x00] + it[i].key[|apex| + 1..]
      ensures var k := Key(apex, it[i].key[|apex| + 1..]);
              k in db.records && RowOf(|apex| + 1, it[i]) == Some(RowFor(k, db.records[k]))
    {
      EntryIsRecord(m, db, apex, it[i]);
    }
  }

  lemma RowsDistinct(lo: Bytes, it: seq<Entry>, rows: seq<Row>)
    requires |rows| == |it| && forall i :: 0 <= i < |it| ==> it[i].key == lo + rows[i].sub
    requires forall i, j :: 0 <= i < j < |it| ==> Less(it[i].key, it[j].key)
    ensures Distinct(rows)
  {
    hide Less;
    forall i, j | 0 <= i < j < |rows| ensures rows[i].sub != rows[j].sub {
      LessIrreflexive(it[i].key);
      assert Less(it[i].key, it[j].key);
    }
  }

  /** Iterating an apex's byte range gives exactly its records, each once. */
  lemma IterationIsScan(m: ByteDB, db: DB, apex: Bytes, it: seq<Entry>)
    requires Represents(m, db) && ValidApex(apex) && IsIteration(m, apex + [0x00], apex + [0x01], it)
    ensures IsScan(db.records, apex, Rows(|apex| + 1, it))
  {
    hide RepsRecords, RepsCounts, RepsNumber, RepsWMs, RowOf, Rows, RecordKey, InRange, Less, Distinct;
    var lo, rows := apex + [0x00], Rows(|apex| + 1, it);
    RowsOfRecords(m, db, apex, it);
    RowsDistinct(lo, it, rows);
    forall k | k in RecordsOf(db.records, apex) ensures exists i :: 0 <= i < |rows| && rows[i].sub == k.sub {
      RecordInRange(m, db, apex, k);
      var i :| 0 <= i < |it| && it[i].key == RecordKey(k);
      RecordKeyIs(apex, k);
      assert (lo + k.sub)[|lo|..] == k.sub && (lo + rows[i].sub)[|lo|..] == rows[i].sub;
    }
  }

  lemma RecordKeyIs(apex: Bytes, k: Key)
    requires k.apex == apex
    ensures RecordKey(k) == apex + [0x00] + k.sub
  {
  }

  lemma RecordInRange(m: ByteDB, db: DB, apex: Bytes, k: Key)
    requires RepsRecords(m, db.records) && k in RecordsOf(db.records, apex)
    ensures RecordKey(k) in m && InRange(RecordKey(k), apex + [0x00], apex + [0x01])
  {
    hide InRange;
    ApexRangeExact(apex, k);
  }

  // ----- What a poll returns

  /** The records of the apex beyond the cursor. */
  ghost function NewSince(records: map<Key, Rec>, apex: Bytes, cursor: nat): set<Key> {
    set k | k in RecordsOf(records, apex) && records[k].seqno > cursor
  }

  /** The largest sequence number of the apex, zero if it has none. */
  ghost predicate IsMaxSeq(records: map<Key, Rec>, apex: Bytes, m: nat) {
    && (forall k :: k in RecordsOf(records, apex) ==> records[k].seqno <= m)
    && (m > 0 ==> exists k :: k in RecordsOf(records, apex) && records[k].seqno == m)
  }

  ghost predicate Distinct(rows: seq<Row>) {
    forall i, j :: 0 <= i < j < |rows| ==> rows[i].sub != rows[j].sub
  }

  lemma {:induction false} AfterRows(rows: seq<Row>, cursor: nat)
    ensures forall r :: r in After(rows, cursor) <==> r in rows && r.seqno > cursor
    decreases |rows|
  {
    if rows != [] {
      var n := |rows| - 1;
      AfterRows(rows[..n], cursor);
      assert rows == rows[..n] + [rows[n]];
    }
  }

  /** The places of the rows beyond the cursor, in order, and those rows. */
  ghost predicate BeyondAt(rows: seq<Row>, cursor: nat, idx: seq<nat>, out: seq<Row>) {
    && |out| == |idx| && (forall i, j :: 0 <= i < j < |idx| ==> idx[i] < idx[j])
    && (forall i: nat :: i in idx <==> i < |rows| && rows[i].seqno > cursor)
    && forall j :: 0 <= j < |idx| ==> idx[j] < |rows| && out[j] == rows[idx[j]]
  }

  /** The rows beyond the cursor stand as they stood. */
  lemma {:induction false} AfterInOrder(rows: seq<Row>, cursor: nat) returns (idx: seq<nat>)
    ensures BeyondAt(rows, cursor, idx, After(rows, cursor))
    decreases |rows|
  {
    hide After, BeyondAt;
    if rows == [] {
      AfterNone(cursor);
      idx := BeyondNone(cursor);
    } else {
      var n := |rows| - 1;
      assert rows == rows[..n] + [rows[n]];
      idx := AfterInOrder(rows[..n], cursor);
      AddRow(rows[..n], rows[n], cursor);
      if rows[n].seqno > cursor {
        BeyondHit(rows[..n], cursor, idx, After(rows[..n], cursor), rows[n]);
        idx := idx + [n];
      } else {
        BeyondMiss(rows[..n], cursor, idx, After(rows[..n], cursor), rows[n]);
      }
    }
  }

  lemma BeyondNone(cursor: nat) returns (idx: seq<nat>)
    ensures BeyondAt([], cursor, idx, [])
  {
    idx := [];
  }

  lemma BeyondMiss(rows: seq<Row>, cursor: nat, idx: seq<nat>, out: seq<Row>, r: Row)
    requires BeyondAt(rows, cursor, idx, out) && r.seqno <= cursor
    ensures BeyondAt(rows + [r], cursor, idx, out)
  {
    assert forall i :: 0 <= i < |rows| ==> (rows + [r])[i] == rows[i];
  }

  lemma BeyondHit(rows: seq<Row>, cursor: nat, idx: seq<nat>, out: seq<Row>, r: Row)
    requires BeyondAt(rows, cursor, idx, out) && r.seqno > cursor
    ensures BeyondAt(rows + [r], cursor, idx + [|rows|], out + [r])
  {
    var all, more := rows + [r], idx + [|rows|];
    assert forall i :: 0 <= i < |rows| ==> all[i] == rows[i];
    forall i: nat ensures i in more <==> i < |all| && all[i].seqno > cursor {
      assert i in more <==> i in idx || i == |rows|;
    }
    forall i, j | 0 <= i < j < |more| ensures more[i] < more[j] {
      assert idx[i] in idx;
    }
  }

  lemma AfterNone(cursor: nat)
    ensures After([], cursor) == []
  {
  }

  lemma {:induction false} AfterDistinct(rows: seq<Row>, cursor: nat)
    requires Distinct(rows)
    ensures Distinct(After(rows, cursor))
    decreases |rows|
  {
    if rows != [] {
      var n := |rows| - 1;
      var rest := After(rows[..n], cursor);
      AfterDistinct(rows[..n], cursor);
      AfterRows(rows[..n], cursor);
      forall i | 0 <= i < |rest| ensures rest[i].sub != rows[n].sub {
        assert rest[i] in rows[..n];
      }
    }
  }

  ghost function SubsOf(apex: Bytes, rows: seq<Row>): set<Key> { set r | r in rows :: Key(apex, r.sub) }

  /** A poll that is not truncated returns exactly what lies beyond the cursor, no row
      twice, and the apex's largest sequence number. */
  lemma PollReturns(records: map<Key, Rec>, apex: Bytes, rows: seq<Row>, cursor: nat)
    requires IsScan(records, apex, rows)
    ensures SubsOf(apex, After(rows, cursor)) == NewSince(records, apex, cursor)
    ensures Distinct(After(rows, cursor))
    ensures IsMaxSeq(records, apex, MaxSeq(rows))
  {
    hide MaxSeq, After;
    AfterRows(rows, cursor);
    AfterDistinct(rows, cursor);
    forall k | k in NewSince(records, apex, cursor) ensures k in SubsOf(apex, After(rows, cursor)) {
      var i :| 0 <= i < |rows| && rows[i].sub == k.sub;
      assert rows[i] in After(rows, cursor);
    }
    MaxSeqIsMax(rows);
    forall k | k in RecordsOf(records, apex) ensures records[k].seqno <= MaxSeq(rows) {
      var i :| 0 <= i < |rows| && rows[i].sub == k.sub;
      assert Key(apex, k.sub) == k;
    }
    if MaxSeq(rows) > 0 {
      if rows == [] { NoRows(); }
      var i :| 0 <= i < |rows| && rows[i].seqno == MaxSeq(rows);
      assert Key(apex, rows[i].sub) in RecordsOf(records, apex);
    }
  }

  lemma NoRows()
    ensures MaxSeq([]) == 0
  {
  }

  // ----- Polls over a run

  /** Between two moments of a run, a poll from the earlier maximum returns exactly
      the records committed in between. */
  lemma {:induction false} PollIsDelta(a: DB, b: DB, apex: Bytes, cursor: nat)
    requires ValidDB(a) && Extends(a, b) && IsMaxSeq(a.records, apex, cursor)
    ensures NewSince(b.records, apex, cursor) == RecordsOf(b.records, apex) - RecordsOf(a.records, apex)
  {
    assert cursor <= a.seqno by {
      if cursor > 0 { var k :| k in RecordsOf(a.records, apex) && a.records[k].seqno == cursor; }
    }
  }

  /** The rows a client collects that polls after each stretch of the run. */
  ghost function Collected(fix: Repairs, y: Sys, stretches: seq<seq<Event>>, apex: Bytes,
                           cursors: seq<nat>): multiset<Key>
    requires |cursors| == |stretches|
    decreases |stretches|
  {
    if stretches == [] then multiset{}
    else
      var z := Run(fix, y, stretches[0]);
      multiset(NewSince(z.s.db.records, apex, cursors[0])) + Collected(fix, z, stretches[1..], apex, cursors[1..])
  }

  ghost function Finally(fix: Repairs, y: Sys, stretches: seq<seq<Event>>): Sys
    decreases |stretches|
  {
    if stretches == [] then y else Finally(fix, Run(fix, y, stretches[0]), stretches[1..])
  }

  /** Each cursor is the maximum at the poll before it; the first at the start. */
  ghost predicate Chained(fix: Repairs, y: Sys, stretches: seq<seq<Event>>, apex: Bytes, cursors: seq<nat>)
    requires |cursors| == |stretches|
    decreases |stretches|
  {
    stretches == [] ||
    (IsMaxSeq(y.s.db.records, apex, cursors[0]) &&
      Chained(fix, Run(fix, y, stretches[0]), stretches[1..], apex, cursors[1..]))
  }

  /** No gaps and no repeats: whatever happens between the polls, crashes included,
      the client has collected each record committed since it started exactly once. */
  lemma {:induction false} NoGapsNoRepeats(fix: Repairs, y: Sys, stretches: seq<seq<Event>>, apex: Bytes,
                                           cursors: seq<nat>)
    requires Inv(y.s) && |cursors| == |stretches| && Chained(fix, y, stretches, apex, cursors)
    ensures Extends(y.s.db, Finally(fix, y, stretches).s.db)
    ensures Collected(fix, y, stretches, apex, cursors) ==
            multiset(RecordsOf(Finally(fix, y, stretches).s.db.records, apex) - RecordsOf(y.s.db.records, apex))
    decreases |stretches|
  {
    hide Inv, Run, Extends, ValidDB, IsMaxSeq, NewSince, RecordsOf;
    if stretches == [] {
      ExtendsReflexive(y.s.db);
      assert RecordsOf(y.s.db.records, apex) - RecordsOf(y.s.db.records, apex) == {};
    } else {
      var z := Run(fix, y, stretches[0]);
      RunInv(fix, y, stretches[0]);
      InvDurable(y.s);
      PollIsDelta(y.s.db, z.s.db, apex, cursors[0]);
      NoGapsNoRepeats(fix, z, stretches[1..], apex, cursors[1..]);
      var w := Finally(fix, z, stretches[1..]);
      ExtendsTransitive(y.s.db, z.s.db, w.s.db);
      Telescope(y.s.db, z.s.db, w.s.db, apex);
    }
  }

  lemma Telescope(a: DB, b: DB, c: DB, apex: Bytes)
    requires Extends(a, b) && Extends(b, c)
    ensures multiset(RecordsOf(b.records, apex) - RecordsOf(a.records, apex)) +
            multiset(RecordsOf(c.records, apex) - RecordsOf(b.records, apex))
            == multiset(RecordsOf(c.records, apex) - RecordsOf(a.records, apex))
  {
    hide CountOf;
    var A, B, C := RecordsOf(a.records, apex), RecordsOf(b.records, apex), RecordsOf(c.records, apex);
    assert A <= B <= C;
  }
}
