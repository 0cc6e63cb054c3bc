/** Two runs in which a resync does not bring back the name it was written for. */
module LiveFeedRuns {
  import opened ByteStrings
  import opened StoreModel
  import opened StoreInvariants
  import opened StoreRuns
  import opened Cursor
  import opened Live
  import opened LiveFeed
  import Scans
  import Feed

  /** One new name is sent and handled: the hook's broadcast, the hub's store of the flag if
      its send failed, and the rest of the operation. */
  function Arrival(apex: Bytes, sub: Bytes): seq<Move> {
    [Store(Send(Ingest(Key(apex, sub), 1, 1)))] + [Announce] + [Stream(Feed.Flag)] + [Store(Deliver)]
  }

  function Burst(apex: Bytes, subs: seq<Bytes>): seq<Move> {
    if subs == [] then [] else Burst(apex, subs[..|subs| - 1]) + Arrival(apex, subs[|subs| - 1])
  }

  lemma PlayOne(fix: Repairs, lower: Bytes -> Bytes, apex: Bytes, j: Joint, moves: seq<Move>, move: Move)
    ensures Play(fix, lower, apex, j, moves + [move]) == Do(fix, lower, apex, Play(fix, lower, apex, j, moves), move)
  {
    hide Do;
    assert (moves + [move])[..|moves|] == moves;
  }

  /** A subscription that nobody reads from, after so many broadcasts. */
  function AfterBurst(count: nat): Feed.Stream {
    if count == 0 then Feed.Fresh else Feed.Step(Feed.Step(AfterBurst(count - 1), Feed.Offer), Feed.Flag)
  }

  /** The new names that wait in the open batch, and nothing else has changed. */
  ghost predicate Bursting(apex: Bytes, j0: Joint, j: Joint, subs: seq<Bytes>) {
    && j.y.ch == [] && j.y.s.db == j0.y.s.db && j.y.s.pending == |subs|
    && (forall k :: k in j.y.s.pendingRecords <==> k.apex == apex && k.sub in subs)
    && j.names == seq(|subs|, i requires 0 <= i < |subs| => Key(apex, subs[i]))
    && j.stream == AfterBurst(|subs|) && !j.hooked
    && j == j0.(y := j.y, names := j.names, stream := j.stream)
  }

  lemma InsertNow(fix: Repairs, s: State, op: Op)
    requires op.Ingest? && s.pending < 511 && Lookup(s, op.key) == None
    ensures var t := Handle(fix, s, op);
            && t.db == s.db && t.pending == s.pending + 1
            && t.pendingRecords == s.pendingRecords[op.key := Rec(op.firstSeen, op.source, s.seqno + 1)]
  {
  }

  lemma AfterNone()
    ensures AfterBurst(0) == Feed.Fresh
  {
  }

  lemma AfterOne(count: nat)
    ensures AfterBurst(count + 1) == Feed.Step(Feed.Step(AfterBurst(count), Feed.Offer), Feed.Flag)
  {
    hide Feed.Step;
  }

  lemma FlagClears(s: Feed.Stream)
    ensures !Feed.Step(s, Feed.Flag).storing
  {
  }

  /** One more name. */
  lemma Arrived(fix: Repairs, lower: Bytes -> Bytes, apex: Bytes, j: Joint, moves: seq<Move>, j0: Joint, sub: Bytes)
    requires j == Play(fix, lower, apex, j0, moves)
    requires j.y.ch == [] && j.y.s.pending < 511 && Lookup(j.y.s, Key(apex, sub)) == None && !j.hooked
    ensures var t := Play(fix, lower, apex, j0, moves + Arrival(apex, sub));
            && t.y.ch == [] && t.y.s.db == j.y.s.db && t.y.s.pending == j.y.s.pending + 1 && !t.hooked
            && t.y.s.pendingRecords == j.y.s.pendingRecords[Key(apex, sub) := Rec(1, 1, j.y.s.seqno + 1)]
            && t.stream == Feed.Step(Feed.Step(j.stream, Feed.Offer), Feed.Flag)
            && t == j.(y := t.y, names := j.names + [Key(apex, sub)], stream := t.stream)
  {
    hide Feed.Step, Play, Handle, Do, Lookup;
    var op := Ingest(Key(apex, sub), 1, 1);
    var a, b, c, d: Move := Store(Send(op)), Announce, Stream(Feed.Flag), Store(Deliver);
    PlayOne(fix, lower, apex, j0, moves, a);
    PlayOne(fix, lower, apex, j0, moves + [a], b);
    PlayOne(fix, lower, apex, j0, moves + [a] + [b], c);
    PlayOne(fix, lower, apex, j0, moves + [a] + [b] + [c], d);
    assert moves + Arrival(apex, sub) == moves + [a] + [b] + [c] + [d];
    var u := Do(fix, lower, apex, j, a);
    SendIs(fix, lower, apex, j, op);
    var v := Do(fix, lower, apex, u, b);
    LookupSame(j.y.s, u.y.s, op.key);
    AnnounceIs(fix, lower, apex, u, op.key);
    var w := Do(fix, lower, apex, v, c);
    FlagIs(fix, lower, apex, v);
    FlagClears(v.stream);
    LookupSame(j.y.s, w.y.s, op.key);
    DeliverIs(fix, lower, apex, w, op);
  }

  lemma SendIs(fix: Repairs, lower: Bytes -> Bytes, apex: Bytes, j: Joint, op: Op)
    ensures Do(fix, lower, apex, j, Store(Send(op))) == j.(y := j.y.(ch := j.y.ch + [op], sent := j.y.sent + [op]))
  {
  }

  lemma AnnounceIs(fix: Repairs, lower: Bytes -> Bytes, apex: Bytes, j: Joint, k: Key)
    requires !j.hooked && News(apex, j.y) == [k]
    ensures Do(fix, lower, apex, j, Announce) ==
            j.(hooked := true, stream := Feed.Step(j.stream, Feed.Offer), names := j.names + [k])
  {
    hide Feed.Step, News;
  }

  lemma FlagIs(fix: Repairs, lower: Bytes -> Bytes, apex: Bytes, j: Joint)
    ensures Do(fix, lower, apex, j, Stream(Feed.Flag)) == j.(stream := Feed.Step(j.stream, Feed.Flag))
  {
    hide Feed.Step;
  }

  lemma DeliverIs(fix: Repairs, lower: Bytes -> Bytes, apex: Bytes, j: Joint, op: Op)
    requires j.hooked && !j.stream.storing && j.y.ch == [op] && op.Ingest?
    requires j.y.s.pending < 511 && Lookup(j.y.s, op.key) == None
    ensures var t := Do(fix, lower, apex, j, Store(Deliver));
            && t == j.(y := t.y, hooked := false) && t.y.ch == []
            && t.y.s.db == j.y.s.db && t.y.s.pending == j.y.s.pending + 1
            && t.y.s.pendingRecords == j.y.s.pendingRecords[op.key := Rec(op.firstSeen, op.source, j.y.s.seqno + 1)]
  {
    hide Handle, Lookup;
    InsertNow(fix, j.y.s, op);
  }

  lemma BurstBegins(apex: Bytes, j: Joint)
    requires j.y.ch == [] && j.y.s.pending == 0 && j.y.s.pendingRecords == map[]
    requires j.names == [] && j.stream == Feed.Fresh && !j.hooked
    ensures Bursting(apex, j, j, [])
  {
  }

  lemma BurstStep(fix: Repairs, lower: Bytes -> Bytes, apex: Bytes, j0: Joint, subs: seq<Bytes>, sub: Bytes)
    requires Bursting(apex, j0, Play(fix, lower, apex, j0, Burst(apex, subs)), subs)
    requires |subs| < 511 && sub !in subs && Key(apex, sub) !in j0.y.s.db.records
    ensures Bursting(apex, j0, Play(fix, lower, apex, j0, Burst(apex, subs) + Arrival(apex, sub)), subs + [sub])
  {
    hide Play, Feed.Step, Burst, AfterBurst;
    Arrived(fix, lower, apex, Play(fix, lower, apex, j0, Burst(apex, subs)), Burst(apex, subs), j0, sub);
    AfterOne(|subs|);
  }

  lemma {:induction false} BurstWaits(fix: Repairs, lower: Bytes -> Bytes, apex: Bytes, j: Joint, subs: seq<Bytes>)
    requires |subs| <= 511 && j.y.ch == [] && j.y.s.pending == 0 && j.y.s.pendingRecords == map[]
    requires j.names == [] && j.stream == Feed.Fresh && !j.hooked
    requires forall m, n :: 0 <= m < n < |subs| ==> subs[m] != subs[n]
    requires forall n :: 0 <= n < |subs| ==> Key(apex, subs[n]) !in j.y.s.db.records
    ensures Bursting(apex, j, Play(fix, lower, apex, j, Burst(apex, subs)), subs)
    decreases |subs|
  {
    hide Do, Bursting, Arrival;
    if subs == [] {
      BurstBegins(apex, j);
    } else {
      var n := |subs| - 1;
      BurstWaits(fix, lower, apex, j, subs[..n]);
      BurstStep(fix, lower, apex, j, subs[..n], subs[n]);
      assert subs[..n] + [subs[n]] == subs;
    }
  }

  lemma {:induction false} BurstFits(count: nat)
    requires count <= Feed.Capacity
    ensures AfterBurst(count) == Feed.Fresh.(count := count, buffer := Feed.Places(0, count))
    decreases count
  {
    hide Feed.Step, AfterBurst;
    if count == 0 {
      AfterNone();
      assert Feed.Places(0, 0) == [];
    } else {
      BurstFits(count - 1);
      AfterOne(count - 1);
      OfferedFits(AfterBurst(count - 1));
      assert Feed.Places(0, count - 1) + [count - 1] == Feed.Places(0, count);
    }
  }

  lemma OfferedFits(s: Feed.Stream)
    requires |s.buffer| < Feed.Capacity && !s.storing
    ensures Feed.Step(Feed.Step(s, Feed.Offer), Feed.Flag) == s.(buffer := s.buffer + [s.count], count := s.count + 1)
  {
  }

  lemma OverflowTurns(full: Feed.Stream)
    requires |full.buffer| == full.count == Feed.Capacity && full.hand.Idle?
    requires !full.drop && !full.storing && full.out == []
    ensures var over := Feed.Step(Feed.Step(full, Feed.Offer), Feed.Flag);
            var s := Feed.Step(Feed.Step(Feed.Step(over, Feed.Recv), Feed.Swap), Feed.Write);
            s.out == [Feed.Resync] && Feed.Capacity in s.drops && !s.drop && !s.storing
  {
  }

  /** The handler turns to an overflowing subscription and writes the resync line. */
  lemma ResyncWritten(count: nat)
    requires count == Feed.Capacity + 1
    ensures var s := Feed.Step(Feed.Step(Feed.Step(AfterBurst(count), Feed.Recv), Feed.Swap), Feed.Write);
            s.out == [Feed.Resync] && Feed.Capacity in s.drops && !s.drop && !s.storing
  {
    hide AfterBurst, Feed.Step;
    BurstFits(Feed.Capacity);
    AfterOne(Feed.Capacity);
    OverflowTurns(AfterBurst(Feed.Capacity));
  }

  /** The handler receives an event, swaps the flag and writes one line. */
  ghost function Turn(fix: Repairs, lower: Bytes -> Bytes, apex: Bytes, j: Joint): Joint {
    var got := Do(fix, lower, apex, j, Stream(Feed.Recv));
    Do(fix, lower, apex, Do(fix, lower, apex, got, Stream(Feed.Swap)), Stream(Feed.Write))
  }

  lemma TurnIs(fix: Repairs, lower: Bytes -> Bytes, apex: Bytes, j: Joint)
    ensures Turn(fix, lower, apex, j) ==
            j.(stream := Feed.Step(Feed.Step(Feed.Step(j.stream, Feed.Recv), Feed.Swap), Feed.Write))
  {
    hide Feed.Step;
  }

  /** A poll of a database that has not changed since the last one answers nothing. */
  lemma NothingNew(apex: Bytes, db: DB, cursor: nat, scan: seq<Scans.Row>)
    requires IsScan(db.records, apex, scan) && IsMaxSeq(db.records, apex, cursor)
    ensures Scans.After(scan, cursor) == [] && IsMaxSeq(db.records, apex, Scans.MaxSeq(scan))
  {
    hide Scans.After, Scans.MaxSeq, IsScan, RecordsOf;
    PollReturns(db.records, apex, scan, cursor);
    SubsOfSome(apex, Scans.After(scan, cursor));
    assert NewSince(db.records, apex, cursor) == {};
  }

  lemma SubsOfSome(apex: Bytes, rows: seq<Scans.Row>)
    ensures rows != [] ==> SubsOf(apex, rows) != {}
  {
    if rows != [] { assert Key(apex, rows[0].sub) in SubsOf(apex, rows); }
  }

  /** Applying such an answer shows nothing new. */
  lemma LandsEmpty(fix: Repairs, lower: Bytes -> Bytes, apex: Bytes, j: Joint, scan: seq<Scans.Row>, db: DB)
    requires j.flight == Answered(scan, db) && IsScan(db.records, apex, scan) && IsMaxSeq(db.records, apex, j.lastSeq)
    ensures Do(fix, lower, apex, j, Land) == j.(lastSeq := Scans.MaxSeq(scan), polled := db, flight := Landed)
    ensures IsMaxSeq(db.records, apex, Scans.MaxSeq(scan))
  {
    hide IsScan, IsMaxSeq, Scans.MaxSeq;
    NothingNew(apex, db, j.lastSeq, scan);
  }

  /** The timer commits what waits in the batch. */
  lemma TimerCommits(fix: Repairs, lower: Bytes -> Bytes, apex: Bytes, j: Joint, k: Key, cursor: nat)
    requires Inv(j.y.s) && j.y.s.pending > 0 && !j.hooked && IsMaxSeq(j.y.s.db.records, apex, cursor)
    requires k in j.y.s.pendingRecords && k.apex == apex && k !in j.y.s.db.records
    ensures var t := Do(fix, lower, apex, j, Store(Timer));
            k in NewSince(t.y.s.db.records, apex, cursor) && t == j.(y := t.y)
  {
    hide Merged, Flush, Inv, IsMaxSeq;
    FlushRecords(fix, j.y.s);
    CursorBound(j.y.s, apex, cursor);
    PendingIsNew(j.y.s, k);
    TimerIs(fix, j.y.s);
  }

  lemma TimerIs(fix: Repairs, s: State)
    requires s.pending > 0
    ensures Tick(fix, s) == Flush(fix, s).(pending := 0)
  {
    hide Flush;
  }

  lemma PendingIsNew(s: State, k: Key)
    requires Inv(s) && k in s.pendingRecords && k !in s.db.records
    ensures k in Merged(s).records && Merged(s).records[k].seqno > s.db.seqno
  {
    hide Merged;
  }

  lemma CursorBound(s: State, apex: Bytes, cursor: nat)
    requires Inv(s) && IsMaxSeq(s.db.records, apex, cursor)
    ensures cursor <= s.db.seqno
  {
    if cursor > 0 {
      var k :| k in RecordsOf(s.db.records, apex) && s.db.records[k].seqno == cursor;
    }
  }

  /** New names for one burst, one more than the subscription holds. */
  ghost predicate TooMany(apex: Bytes, db: DB, subs: seq<Bytes>) {
    && |subs| == 257
    && (forall m, n :: 0 <= m < n < |subs| ==> subs[m] != subs[n])
    && (forall n :: 0 <= n < |subs| ==> Key(apex, subs[n]) !in db.records)
  }

  /** The burst and what the last name's drop leaves. */
  lemma BurstOverflows(fix: Repairs, lower: Bytes -> Bytes, apex: Bytes, j0: Joint, subs: seq<Bytes>)
    requires JointInv(lower, apex, j0) && TooMany(apex, j0.y.s.db, subs)
    requires j0.y.ch == [] && j0.y.s.pending == 0 && j0.y.s.pendingRecords == map[]
    requires j0.names == [] && j0.stream == Feed.Fresh && !j0.hooked
    ensures var j := Play(fix, lower, apex, j0, Burst(apex, subs));
            && Inv(j.y.s) && j.y.s.db == j0.y.s.db && j.y.s.pending == |subs| && !j.hooked
            && Key(apex, subs[Feed.Capacity]) in j.y.s.pendingRecords
            && |j.names| == |subs| && j.names[Feed.Capacity] == Key(apex, subs[Feed.Capacity])
            && j.stream == AfterBurst(|subs|)
            && j == j0.(y := j.y, names := j.names, stream := j.stream)
  {
    hide JointInv, Do, Burst, AfterBurst, Play;
    BurstWaits(fix, lower, apex, j0, subs);
    PlayKeeps(fix, lower, apex, j0, Burst(apex, subs));
    JointRead(lower, apex, Play(fix, lower, apex, j0, Burst(apex, subs)));
  }

  lemma TurnResyncs(fix: Repairs, lower: Bytes -> Bytes, apex: Bytes, j: Joint)
    requires j.stream == AfterBurst(Feed.Capacity + 1)
    ensures var w := Turn(fix, lower, apex, j);
            && w == j.(stream := w.stream) && w.stream.out == [Feed.Resync]
            && Feed.Capacity in w.stream.drops && !w.stream.drop && !w.stream.storing
  {
    hide Feed.Step, Turn, AfterBurst;
    TurnIs(fix, lower, apex, j);
    ResyncWritten(Feed.Capacity + 1);
  }

  /** As a resync comes from the flag and not from the commit, the catch-up it prompts
      can be too early. A burst of 257 new names, all in one open batch, overflows the
      subscription and drops the last name; the handler writes the resync; the page reads
      it, polls, and the answer holds nothing new. The next timer commits the name, and it
      is still not on the page and no further resync is due: only a later poll returns it. */
  lemma {:induction false} ResyncComesTooEarly(fix: Repairs, lower: Bytes -> Bytes, apex: Bytes, db: DB,
                                               shown: seq<LiveRow>, lastSeq: nat,
                                               subs: seq<Bytes>, scan: seq<Scans.Row>)
    returns (j: Joint, w: Joint, asked: Joint, r: Joint, t: Joint)
    requires Opening(lower, apex, Boot(db), db, shown, lastSeq) && TooMany(apex, db, subs)
    requires IsScan(db.records, apex, scan)
    ensures j == Play(fix, lower, apex, Opened(Boot(db), db, shown, lastSeq), Burst(apex, subs))
    ensures w == Turn(fix, lower, apex, j)
    ensures asked == Do(fix, lower, apex, w, Read)
    ensures r == Do(fix, lower, apex, Do(fix, lower, apex, asked, Answer(scan)), Land)
    ensures t == Do(fix, lower, apex, r, Store(Timer))
    ensures j.y.s.db == db && j.y.s.pending == |subs|
    ensures |j.names| == |subs| && j.names[Feed.Capacity] == Key(apex, subs[Feed.Capacity])
    ensures Feed.Capacity in w.stream.drops && w.stream.out == [Feed.Resync]
    ensures asked.read == 1 && asked.flight.Asked? && r.shown == shown
    ensures Key(apex, subs[Feed.Capacity]) in NewSince(t.y.s.db.records, apex, t.lastSeq)
    ensures t.shown == shown && t.flight.Landed? && t.stream == w.stream && !t.stream.drop && !t.stream.storing
  {
    hide Do, Play, Turn, IsScan, Inv, Burst, JointInv, NewSince, TooMany, AfterBurst, IsMaxSeq;
    var j0 := Opened(Boot(db), db, shown, lastSeq);
    OpeningKeeps(lower, apex, Boot(db), db, shown, lastSeq);
    OpeningCursor(lower, apex, Boot(db), db, shown, lastSeq);
    BurstOverflows(fix, lower, apex, j0, subs);
    NotYet(apex, db, subs);
    j := Play(fix, lower, apex, j0, Burst(apex, subs));
    w := Turn(fix, lower, apex, j);
    TurnResyncs(fix, lower, apex, j);
    asked := Do(fix, lower, apex, w, Read);
    var answered := Do(fix, lower, apex, asked, Answer(scan));
    ReadIs(fix, lower, apex, w);
    AnswerIs(fix, lower, apex, asked, scan);
    r := Do(fix, lower, apex, answered, Land);
    LandsEmpty(fix, lower, apex, answered, scan, db);
    t := Do(fix, lower, apex, r, Store(Timer));
    TimerCommits(fix, lower, apex, r, Key(apex, subs[Feed.Capacity]), r.lastSeq);
  }

  lemma OpeningCursor(lower: Bytes -> Bytes, apex: Bytes, y: Sys, snapshot: DB, shown: seq<LiveRow>, lastSeq: nat)
    requires Opening(lower, apex, y, snapshot, shown, lastSeq)
    ensures lastSeq > 0 && IsMaxSeq(snapshot.records, apex, lastSeq)
  {
    hide Inv, Hooked, ValidDB, Extends, Complete, IsMaxSeq, NoRepeats;
  }

  lemma NotYet(apex: Bytes, db: DB, subs: seq<Bytes>)
    requires TooMany(apex, db, subs)
    ensures |subs| == Feed.Capacity + 1 && Key(apex, subs[Feed.Capacity]) !in db.records
  {
  }

  /** Reading a resync begins a catch-up unless one is in flight. */
  lemma ReadIs(fix: Repairs, lower: Bytes -> Bytes, apex: Bytes, j: Joint)
    requires j.read < |j.stream.out| && j.stream.out[j.read] == Feed.Resync && j.lastSeq > 0
    ensures Do(fix, lower, apex, j, Read) ==
            j.(read := j.read + 1, flight := if j.flight.Landed? then Asked else j.flight)
  {
  }

  lemma AnswerIs(fix: Repairs, lower: Bytes -> Bytes, apex: Bytes, j: Joint, scan: seq<Scans.Row>)
    requires j.flight.Asked? && IsScan(j.y.s.db.records, apex, scan)
    ensures Do(fix, lower, apex, j, Answer(scan)) == j.(flight := Answered(scan, j.y.s.db))
  {
    hide IsScan;
  }

  lemma CallIs(fix: Repairs, lower: Bytes -> Bytes, apex: Bytes, j: Joint)
    requires j.flight.Landed? && j.lastSeq > 0
    ensures Do(fix, lower, apex, j, Call) == j.(flight := Asked)
  {
  }

  /** A resync that is read while a catch-up is in flight polls nothing. A catch-up, say the
      one made a while after opening, has been answered and is in flight; the burst drops
      its last name and the timer commits it; the handler writes the resync, and the page
      reads it, to no effect. The answer then lands without the name: it is committed, it
      is not on the page, and nothing that would bring it is under way. */
  lemma {:induction false} ResyncIsIgnored(fix: Repairs, lower: Bytes -> Bytes, apex: Bytes, db: DB,
                                           shown: seq<LiveRow>, lastSeq: nat,
                                           subs: seq<Bytes>, scan: seq<Scans.Row>)
    returns (busy: Joint, c: Joint, w: Joint, r: Joint, t: Joint)
    requires Opening(lower, apex, Boot(db), db, shown, lastSeq) && TooMany(apex, db, subs)
    requires IsScan(db.records, apex, scan)
    ensures var called := Do(fix, lower, apex, Opened(Boot(db), db, shown, lastSeq), Call);
            busy == Do(fix, lower, apex, called, Answer(scan))
    ensures c == Do(fix, lower, apex, Play(fix, lower, apex, busy, Burst(apex, subs)), Store(Timer))
    ensures w == Turn(fix, lower, apex, c)
    ensures r == Do(fix, lower, apex, w, Read)
    ensures t == Do(fix, lower, apex, r, Land)
    ensures |c.names| == |subs| && c.names[Feed.Capacity] == Key(apex, subs[Feed.Capacity])
    ensures Key(apex, subs[Feed.Capacity]) in c.y.s.db.records
    ensures Feed.Capacity in w.stream.drops && w.stream.out == [Feed.Resync]
    ensures r.read == 1 && r.flight == busy.flight == Answered(scan, db)
    ensures t.shown == shown && t.flight.Landed? && t.stream == w.stream && !t.stream.drop && !t.stream.storing
    ensures t.y == c.y && Key(apex, subs[Feed.Capacity]) in NewSince(t.y.s.db.records, apex, t.lastSeq)
  {
    hide Do, Play, Turn, IsScan, Inv, Burst, JointInv, TooMany, AfterBurst, IsMaxSeq, RecordsOf;
    NotYet(apex, db, subs);
    var j0, k := Opened(Boot(db), db, shown, lastSeq), Key(apex, subs[Feed.Capacity]);
    OpeningKeeps(lower, apex, Boot(db), db, shown, lastSeq);
    OpeningCursor(lower, apex, Boot(db), db, shown, lastSeq);
    CallIs(fix, lower, apex, j0);
    var called := Do(fix, lower, apex, j0, Call);
    AnswerIs(fix, lower, apex, called, scan);
    busy := Do(fix, lower, apex, called, Answer(scan));
    MoveKeeps(fix, lower, apex, j0, Call);
    MoveKeeps(fix, lower, apex, called, Answer(scan));
    BurstOverflows(fix, lower, apex, busy, subs);
    var j := Play(fix, lower, apex, busy, Burst(apex, subs));
    c := Do(fix, lower, apex, j, Store(Timer));
    NothingNew(apex, db, lastSeq, scan);
    TimerCommits(fix, lower, apex, j, k, Scans.MaxSeq(scan));
    w := Turn(fix, lower, apex, c);
    TurnResyncs(fix, lower, apex, c);
    r := Do(fix, lower, apex, w, Read);
    ReadIs(fix, lower, apex, w);
    t := Do(fix, lower, apex, r, Land);
    LandsEmpty(fix, lower, apex, r, scan, db);
    IsRecord(c.y.s.db.records, apex, k, Scans.MaxSeq(scan));
  }

  lemma IsRecord(records: Records, apex: Bytes, k: Key, cursor: nat)
    requires k in NewSince(records, apex, cursor)
    ensures k in records
  {
  }
}
