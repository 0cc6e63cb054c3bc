/** The live client of frontend/src/App.svelte against the store: what it shows after
    a catch-up, and what a resync cannot promise. */
module Live {
  import opened ByteStrings
  import opened StoreModel
  import opened StoreInvariants
  import opened StoreRefinement
  import opened StoreRuns
  import opened Cursor
  import Scans

  /** A row on the page: the name and its lower-case form. */
  datatype LiveRow = LiveRow(sub: Bytes, lc: Bytes)

  function Lcs(rows: seq<LiveRow>): set<Bytes> { set r | r in rows :: r.lc }

  /** No two rows show the same name. */
  ghost predicate NoRepeats(rows: seq<LiveRow>) {
    forall i, j :: 0 <= i < j < |rows| ==> rows[i].lc != rows[j].lc
  }

  /** A row is added unless its name is known. */
  function Receive(shown: seq<LiveRow>, row: LiveRow): seq<LiveRow> {
    if row.lc in Lcs(shown) then shown else shown + [row]
  }

  function ReceiveAll(shown: seq<LiveRow>, rows: seq<LiveRow>): seq<LiveRow> {
    if rows == [] then shown else Receive(ReceiveAll(shown, rows[..|rows| - 1]), rows[|rows| - 1])
  }

  lemma ReceiveOne(shown: seq<LiveRow>, row: LiveRow)
    ensures Lcs(Receive(shown, row)) == Lcs(shown) + {row.lc}
    ensures NoRepeats(shown) ==> NoRepeats(Receive(shown, row))
    ensures shown <= Receive(shown, row)
  {
    if row.lc in Lcs(shown) {
    } else {
      assert forall i :: 0 <= i < |shown| ==> shown[i] in shown && shown[i].lc in Lcs(shown);
      assert Lcs(shown + [row]) == Lcs(shown) + {row.lc};
    }
  }

  lemma {:induction false} ReceiveMany(shown: seq<LiveRow>, rows: seq<LiveRow>)
    ensures Lcs(ReceiveAll(shown, rows)) == Lcs(shown) + Lcs(rows)
    ensures NoRepeats(shown) ==> NoRepeats(ReceiveAll(shown, rows))
    ensures shown <= ReceiveAll(shown, rows)
    decreases |rows|
  {
    hide Receive, NoRepeats;
    if rows != [] {
      var n := |rows| - 1;
      ReceiveMany(shown, rows[..n]);
      ReceiveOne(ReceiveAll(shown, rows[..n]), rows[n]);
      assert rows == rows[..n] + [rows[n]];
      assert Lcs(rows) == Lcs(rows[..n]) + {rows[n].lc};
    }
  }

  class Page {
    const lower: Bytes -> Bytes
    var rows: seq<LiveRow>      // rowsRaw
    var freshRows: seq<LiveRow>     // merged a little later
    var known: set<Bytes>       // knownLc
    var lastSeq: nat
    var streaming: bool
    var catchingUp: bool        // a poll is in flight

    function Shown(): seq<LiveRow>
      reads this
    {
      rows + freshRows
    }

    ghost predicate Valid()
      reads this
    {
      known == Lcs(Shown()) && NoRepeats(Shown())
    }

    /** A finished search: its rows, its cursor, and rebuildKnown. */
    constructor (lower: Bytes -> Bytes, snapshot: seq<LiveRow>, maxSeq: nat)
      requires NoRepeats(snapshot)
      ensures Valid() && Shown() == snapshot && lastSeq == maxSeq && this.lower == lower && !streaming && !catchingUp
    {
      this.lower, rows, freshRows, lastSeq, streaming := lower, snapshot, [], maxSeq, false;
      catchingUp := false;
      known := Lcs(snapshot);
      new;
      assert Shown() == snapshot;
    }

    method ReceiveFresh(row: LiveRow)
      requires Valid()
      modifies this`known, this`freshRows
      ensures Valid() && Shown() == Receive(old(Shown()), row)
    {
      ReceiveOne(Shown(), row);
      if row.lc in known { return; }
      known := known + {row.lc};
      assert rows + freshRows + [row] == rows + (freshRows + [row]);
      freshRows := freshRows + [row];
    }

    method MergeFresh()
      requires Valid()
      modifies this`rows, this`freshRows
      ensures Valid() && Shown() == old(Shown())
      ensures if streaming then rows == old(rows) else freshRows == [] && rows == Shown()
    {
      if freshRows == [] || streaming { return; }
      assert rows + freshRows == (rows + freshRows) + [];
      rows, freshRows := rows + freshRows, [];
    }

    /** A call of catchUp up to its request: nothing without a cursor, and nothing while
        an earlier catch-up is in flight. */
    method BeginCatchUp() returns (ask: bool)
      modifies this`catchingUp
      ensures ask <==> !old(catchingUp) && lastSeq > 0
      ensures catchingUp == (old(catchingUp) || ask)
    {
      if catchingUp || lastSeq == 0 { return false; }
      catchingUp := true;
      return true;
    }

    /** The rest of it, with the poll's answer; `reload` asks for a new search. */
    method EndCatchUp(delta: seq<Bytes>, maxSeq: nat, truncated: bool) returns (reload: bool)
      requires Valid() && catchingUp
      modifies this`rows, this`freshRows, this`known, this`lastSeq, this`catchingUp
      ensures Valid() && !catchingUp && lastSeq == maxSeq && reload == truncated
      ensures Shown() == if truncated then old(Shown()) else ReceiveAll(old(Shown()), RowsFrom(lower, delta))
      ensures !truncated && !streaming ==> freshRows == [] && rows == Shown()
      ensures truncated || streaming ==> rows == old(rows)
    {
      lastSeq := maxSeq;
      if truncated {
        catchingUp := false;
        return true;
      }
      ghost var before := Shown();
      for i := 0 to |delta|
        invariant Valid() && lastSeq == maxSeq && rows == old(rows)
        invariant Shown() == ReceiveAll(before, RowsFrom(lower, delta[..i]))
      {
        ghost var some, more := RowsFrom(lower, delta[..i]), RowsFrom(lower, delta[..i + 1]);
        assert more[..i] == some;
        ReceiveFresh(LiveRow(delta[i], lower(delta[i])));
      }
      assert delta[..|delta|] == delta;
      MergeFresh();
      catchingUp := false;
      return false;
    }

    /** The request has failed: only the flag is cleared. */
    method AbandonCatchUp()
      requires catchingUp
      modifies this`catchingUp
      ensures !catchingUp
    {
      catchingUp := false;
    }
  }

  /** rowFrom over the names of a poll. */
  function RowsFrom(lower: Bytes -> Bytes, subs: seq<Bytes>): (rows: seq<LiveRow>)
    ensures |rows| == |subs|
  {
    seq(|subs|, i requires 0 <= i < |subs| => LiveRow(subs[i], lower(subs[i])))
  }

  // ----- A live session over any run

  /** Every record of the apex is on the page. */
  ghost predicate Complete(lower: Bytes -> Bytes, shown: seq<LiveRow>, records: map<Key, Rec>, apex: Bytes) {
    forall k :: k in RecordsOf(records, apex) ==> lower(k.sub) in Lcs(shown)
  }

  function SubsIn(rows: seq<Scans.Row>): (subs: seq<Bytes>)
    ensures |subs| == |rows|
  {
    seq(|rows|, i requires 0 <= i < |rows| => rows[i].sub)
  }

  /** One catch-up: the page is complete again, for the database of the poll. */
  lemma CatchUpCompletes(lower: Bytes -> Bytes, shown: seq<LiveRow>, a: DB, b: DB,
                         apex: Bytes, cursor: nat, scan: seq<Scans.Row>)
    requires cursor > 0 && ValidDB(a) && Extends(a, b) &&
             IsMaxSeq(a.records, apex, cursor) && Complete(lower, shown, a.records, apex)
    requires IsScan(b.records, apex, scan)
    ensures Complete(lower, ReceiveAll(shown, RowsFrom(lower, SubsIn(Scans.After(scan, cursor)))), b.records, apex)
    ensures IsMaxSeq(b.records, apex, Scans.MaxSeq(scan)) && Scans.MaxSeq(scan) >= cursor
  {
    hide Extends, ValidDB, IsMaxSeq, IsScan, Lcs, RecordsOf;
    var rows := Scans.After(scan, cursor);
    var live := RowsFrom(lower, SubsIn(rows));
    PollReturns(b.records, apex, scan, cursor);
    PollIsDelta(a, b, apex, cursor);
    ReceiveMany(shown, live);
    forall k | k in RecordsOf(b.records, apex) ensures lower(k.sub) in Lcs(ReceiveAll(shown, live)) {
      if k !in RecordsOf(a.records, apex) {
        assert k in SubsOf(apex, rows);
        var r :| r in rows && Key(apex, r.sub) == k;
        RowIsLive(lower, rows, r);
      }
    }
    CursorGrows(a, b, apex, cursor, Scans.MaxSeq(scan));
  }

  /** Records are never lost, so the cursor never falls back, in particular not to zero. */
  lemma CursorGrows(a: DB, b: DB, apex: Bytes, cursor: nat, cursor': nat)
    requires Extends(a, b) && IsMaxSeq(a.records, apex, cursor) && IsMaxSeq(b.records, apex, cursor')
    ensures cursor <= cursor'
  {
    if cursor > 0 {
      var k :| k in RecordsOf(a.records, apex) && a.records[k].seqno == cursor;
      assert k in RecordsOf(b.records, apex);
    }
  }

  lemma RowIsLive(lower: Bytes -> Bytes, rows: seq<Scans.Row>, r: Scans.Row)
    requires r in rows
    ensures lower(r.sub) in Lcs(RowsFrom(lower, SubsIn(rows)))
  {
    var i :| 0 <= i < |rows| && rows[i] == r;
    assert RowsFrom(lower, SubsIn(rows))[i].lc == lower(r.sub);
    assert RowsFrom(lower, SubsIn(rows))[i] in RowsFrom(lower, SubsIn(rows));
  }

  datatype LiveAct =
    | FeedRow(row: LiveRow)                                        // an event of the stream, committed or not
    | Poll(stretch: seq<Event>, scan: seq<Scans.Row>)              // the store runs on, then a catch-up is made

  datatype Session = Session(y: Sys, shown: seq<LiveRow>, lastSeq: nat)

  ghost function Act(fix: Repairs, lower: Bytes -> Bytes, s: Session, act: LiveAct): Session {
    match act
    case FeedRow(row) => s.(shown := Receive(s.shown, row))
    case Poll(stretch, scan) => CatchUp(lower, s.(y := Run(fix, s.y, stretch)), scan)
  }

  /** catchUp: nothing at all without a cursor, otherwise a full poll. */
  ghost function CatchUp(lower: Bytes -> Bytes, s: Session, scan: seq<Scans.Row>): Session {
    if s.lastSeq == 0 then s
    else s.(shown := ReceiveAll(s.shown, RowsFrom(lower, SubsIn(Scans.After(scan, s.lastSeq)))),
      lastSeq := Scans.MaxSeq(scan))
  }

  ghost function Live(fix: Repairs, lower: Bytes -> Bytes, s: Session, acts: seq<LiveAct>): Session {
    if acts == [] then s else Act(fix, lower, Live(fix, lower, s, acts[..|acts| - 1]), acts[|acts| - 1])
  }

  /** The polls answer with what the database holds when they are asked. */
  ghost predicate Honest(fix: Repairs, lower: Bytes -> Bytes, apex: Bytes, s: Session, acts: seq<LiveAct>)
    decreases |acts|
  {
    acts == [] ||
    var n := |acts| - 1;
    var t := Live(fix, lower, s, acts[..n]);
    && Honest(fix, lower, apex, s, acts[..n])
    && (acts[n].Poll? ==> IsScan(Run(fix, t.y, acts[n].stretch).s.db.records, apex, acts[n].scan))
  }

  ghost predicate InStep(lower: Bytes -> Bytes, apex: Bytes, s: Session) {
    && Inv(s.y.s) && NoRepeats(s.shown) && s.lastSeq > 0
    && Complete(lower, s.shown, s.y.s.db.records, apex) && IsMaxSeq(s.y.s.db.records, apex, s.lastSeq)
  }

  lemma ActInStep(fix: Repairs, lower: Bytes -> Bytes, apex: Bytes, s: Session, act: LiveAct)
    requires InStep(lower, apex, s)
    requires act.Poll? ==> IsScan(Run(fix, s.y, act.stretch).s.db.records, apex, act.scan)
    ensures InStep(lower, apex, Act(fix, lower, s, act)) && s.shown <= Act(fix, lower, s, act).shown
  {
    hide Inv, NoRepeats, IsMaxSeq, IsScan, Run, Extends, ValidDB, Receive, Lcs;
    match act
    case FeedRow(row) => ReceiveOne(s.shown, row);
    case Poll(stretch, scan) =>
      InvDurable(s.y.s);
      RunInv(fix, s.y, stretch);
      CatchUpCompletes(lower, s.shown, s.y.s.db, Run(fix, s.y, stretch).s.db, apex, s.lastSeq, scan);
      ReceiveMany(s.shown, RowsFrom(lower, SubsIn(Scans.After(scan, s.lastSeq))));
  }

  /** After every catch-up of a session that began with a cursor the page shows each
      committed record of the apex, no name twice, and never loses a row, whatever the
      store and the stream do; and the session keeps a cursor. */
  lemma {:induction false} SessionStaysComplete(fix: Repairs, lower: Bytes -> Bytes, apex: Bytes,
                                                s: Session, acts: seq<LiveAct>)
    requires InStep(lower, apex, s) && Honest(fix, lower, apex, s, acts)
    ensures InStep(lower, apex, Live(fix, lower, s, acts)) && s.shown <= Live(fix, lower, s, acts).shown
    decreases |acts|
  {
    hide InStep, Act, Run, IsScan;
    if acts != [] {
      var n := |acts| - 1;
      SessionStaysComplete(fix, lower, apex, s, acts[..n]);
      ActInStep(fix, lower, apex, Live(fix, lower, s, acts[..n]), acts[n]);
    }
  }

  /** The rows that came through the stream. */
  function Fed(acts: seq<LiveAct>): seq<LiveRow> {
    if acts == [] then []
    else
      var n := |acts| - 1;
      Fed(acts[..n]) + if acts[n].FeedRow? then [acts[n].row] else []
  }

  /** A session opened on an apex without records has no cursor, and then no catch-up,
      whatever has been committed by then, ever adds a row: only the stream does. */
  lemma {:induction false} NoCursorNoCatchUp(fix: Repairs, lower: Bytes -> Bytes, s: Session, acts: seq<LiveAct>)
    requires s.lastSeq == 0
    ensures var t := Live(fix, lower, s, acts); t.lastSeq == 0 && t.shown == ReceiveAll(s.shown, Fed(acts))
    decreases |acts|
  {
    hide Run;
    if acts != [] {
      var n := |acts| - 1;
      NoCursorNoCatchUp(fix, lower, s, acts[..n]);
      if acts[n].FeedRow? {
        assert (Fed(acts[..n]) + [acts[n].row])[..|Fed(acts[..n])|] == Fed(acts[..n]);
      } else {
        assert Fed(acts) == Fed(acts[..n]);
      }
    }
  }

  // ----- The hook runs before the commit

  /** Each OnNew call since the store was opened belongs to a record of the merged view. */
  ghost predicate Hooked(s: State) {
    forall i :: 0 <= i < |s.hooks| ==>
      s.hooks[i].key in Merged(s).records && Merged(s).records[s.hooks[i].key].seqno == s.hooks[i].seqno
  }

  lemma HookedApply(fix: Repairs, s: State, k: Key, firstSeen: int, source: byte)
    requires Inv(s) && Hooked(s)
    ensures Hooked(Counted(Apply(fix, s, k, firstSeen, source)))
  {
    hide Merged, Inv;
    match Lookup(s, k)
    case None =>
      MergedIgnores(Insert(fix, s, k, firstSeen, source), Counted(Insert(fix, s, k, firstSeen, source)));
      MergedInsert(fix, s, k, firstSeen, source);
      Unmerged(s, k);
    case Some(st) =>
      InMerged(s, k, st);
      MergedRefreshed(fix, s, k, firstSeen, st);
  }

  lemma HookedSame(s: State, t: State)
    requires Hooked(s) && t.hooks == s.hooks && Merged(t).records == Merged(s).records
    ensures Hooked(t)
  {
  }

  lemma HookedFlush(fix: Repairs, s: State)
    requires Hooked(s)
    ensures Hooked(Flush(fix, s)) && Merged(Flush(fix, s)).records == Merged(s).records
  {
    if !Idle(s) {
      MergedNothing(Flush(fix, s));
    }
  }

  lemma HookedHandle(fix: Repairs, s: State, op: Op)
    requires Inv(s) && Hooked(s)
    ensures Hooked(Handle(fix, s, op))
  {
    hide Inv, Hooked, Merged, Flush, Apply, Recounted;
    var t := s.(history := s.history + [op]);
    InvHistory(s, op);
    MergedIgnores(s, t);
    HookedSame(s, t);
    match op
    case Ingest(k, firstSeen, source) =>
      var u := Counted(Apply(fix, t, k, firstSeen, source));
      HookedApply(fix, t, k, firstSeen, source);
      HookedFlush(fix, u);
      MergedIgnores(Flush(fix, u), Flush(fix, u).(pending := 0));
      HookedSame(Flush(fix, u), Flush(fix, u).(pending := 0));
    case Advance(log, wm) =>
      MergedIgnores(t, HandleAdvance(t, log, wm));
      HookedSame(t, HandleAdvance(t, log, wm));
    case Recount =>
      HookedFlush(fix, t);
      FlushEmpties(fix, t);
      RecountedKeeps(Flush(fix, t).db, Apexes(Flush(fix, t).db.records));
      MergedNothing(HandleRecount(fix, t));
      HookedSame(Flush(fix, t), HandleRecount(fix, t));
  }

  lemma HookedStep(fix: Repairs, y: Sys, ev: Event)
    requires Inv(y.s) && Hooked(y.s)
    ensures Hooked(Step(fix, y, ev).s)
  {
    hide Inv, Merged, Flush, Handle, Recounted;
    match ev
    case Send(op) =>
    case Deliver => if y.ch != [] { HookedHandle(fix, y.s, y.ch[0]); }
    case Timer =>
      HookedFlush(fix, y.s);
      MergedIgnores(Flush(fix, y.s), Flush(fix, y.s).(pending := 0));
    case Close => MergedIgnores(y.s, y.s.(closed := true));
    case Stop =>
    case Crash =>
    case CrashInRecount(written) =>
  }

  lemma {:induction false} RunHooked(fix: Repairs, y: Sys, events: seq<Event>)
    requires Inv(y.s) && Hooked(y.s)
    ensures Hooked(Run(fix, y, events).s)
    decreases |events|
  {
    hide Inv, Hooked, Step;
    if events != [] {
      var n := |events| - 1;
      RunInv(fix, y, events[..n]);
      RunHooked(fix, y, events[..n]);
      HookedStep(fix, Run(fix, y, events[..n]), events[n]);
    }
  }

  /** On every run a name announced by the hook can be read back by a poll if and only
      if its sequence number does not exceed the committed one. */
  lemma AnnouncedIsCommittedIff(fix: Repairs, db: DB, events: seq<Event>, i: nat)
    requires ValidDB(db) && i < |Run(fix, Boot(db), events).s.hooks|
    ensures var s := Run(fix, Boot(db), events).s;
            s.hooks[i].key in s.db.records <==> s.hooks[i].seqno <= s.db.seqno
  {
    hide ValidDB, Run, RecordsInv;
    InvOpen(db);
    RunInv(fix, Boot(db), events);
    RunHooked(fix, Boot(db), events);
  }
}
