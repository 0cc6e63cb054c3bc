/** The store, the stream of one subscriber and the page that reads it, together: what
    a resync can and cannot bring back. */
module LiveFeed {
  import opened ByteStrings
  import opened StoreModel
  import opened StoreInvariants
  import opened StoreRuns
  import opened Cursor
  import opened Live
  import Scans
  import Feed

  /** The page's catch-up: none, its request under way, or answered from a database and
      not yet applied. */
  datatype Flight = Landed | Asked | Answered(scan: seq<Scans.Row>, db: DB)

  datatype Joint = Joint(
    y: Sys,
    hooked: bool,            // the loop has made the OnNew call of the operation it is handling
    stream: Feed.Stream,     // the subscription and its handler
    names: seq<Key>,         // event n of the stream announces names[n]
    read: nat,               // how many lines the page has read
    shown: seq<LiveRow>,
    lastSeq: nat,
    flight: Flight,          // Landed unless catchingUp
    polled: DB,              // the database that the page was last complete for
    restarted: bool)         // whether the server has restarted since the page was opened

  /** A page whose search was answered from `snapshot` and that has just subscribed. */
  function Opened(y: Sys, snapshot: DB, shown: seq<LiveRow>, lastSeq: nat): Joint {
    Joint(y, false, Feed.Fresh, [], 0, shown, lastSeq, Landed, snapshot, false)
  }

  datatype Move =
    | Store(ev: Event)                 // a step of the store
    | Announce                         // the loop's OnNew call begins: the hub's send
    | Stream(m: Feed.Move)             // the rest of the hub's broadcast, or the handler's loop
    | Read                             // the page takes the next line
    | Call                             // another call of catchUp: after a reconnect, or a while after opening
    | Answer(scan: seq<Scans.Row>)     // the server answers the page's poll
    | Land                             // the page applies the answer
    | Fail                             // the poll fails

  /** The name that the next operation announces to subscribers of the apex, if any. */
  function News(apex: Bytes, y: Sys): seq<Key> {
    if y.ch != [] && y.ch[0].Ingest? && y.ch[0].key.apex == apex && Lookup(y.s, y.ch[0].key) == None then [y.ch[0].key]
    else []
  }

  /** The loop is inside an operation from its OnNew call on, and goes on only once the
      hub has returned; and it makes that call before the rest of the operation. */
  predicate Blocked(apex: Bytes, j: Joint, ev: Event) {
    if j.hooked then ev.Timer? || ev.Stop? || ev.CrashInRecount? || (ev.Deliver? && j.stream.storing)
    else ev.Deliver? && News(apex, j.y) != []
  }

  ghost function Do(fix: Repairs, lower: Bytes -> Bytes, apex: Bytes, j: Joint, move: Move): Joint {
    match move
    case Store(ev) => if Blocked(apex, j, ev) then j else StoreStep(fix, j, ev)
    case Announce =>
      if j.hooked || News(apex, j.y) == [] then j
      else j.(hooked := true, stream := Feed.Step(j.stream, Feed.Offer), names := j.names + News(apex, j.y))
    case Stream(m) => if m.Offer? then j else j.(stream := Feed.Step(j.stream, m))
    case Read => if j.read < |j.stream.out| then ReadLine(lower, j) else j
    case Call => Ask(j)
    case Answer(scan) =>
      if j.flight.Asked? && IsScan(j.y.s.db.records, apex, scan) then j.(flight := Answered(scan, j.y.s.db)) else j
    case Land =>
      if j.flight.Answered? then
        j.(shown := ReceiveAll(j.shown, Rows(lower, j)), lastSeq := Scans.MaxSeq(j.flight.scan),
           polled := j.flight.db, flight := Landed)
      else j
    case Fail => j.(flight := Landed)
  }

  function StoreStep(fix: Repairs, j: Joint, ev: Event): Joint {
    var z := Step(fix, j.y, ev);
    if EndsEpoch(j.y, ev) then
      j.(y := z, hooked := false, stream := Feed.Fresh, names := [], read := 0, restarted := true)
    else j.(y := z, hooked := j.hooked && !ev.Deliver?)
  }

  function ReadLine(lower: Bytes -> Bytes, j: Joint): Joint
    requires j.read < |j.stream.out|
  {
    var next := j.(read := j.read + 1);
    match j.stream.out[j.read]
    case Ev(n) => if n < |j.names| then next.(shown := Receive(j.shown, RowOf(lower, j.names[n]))) else next
    case Resync => Ask(next)
  }

  /** catchUp up to its request. */
  function Ask(j: Joint): Joint { if j.flight.Landed? && j.lastSeq > 0 then j.(flight := Asked) else j }

  /** The rows of the answer: those beyond the cursor. */
  function Rows(lower: Bytes -> Bytes, j: Joint): seq<LiveRow>
    requires j.flight.Answered?
  {
    RowsFrom(lower, SubsIn(Scans.After(j.flight.scan, j.lastSeq)))
  }

  function RowOf(lower: Bytes -> Bytes, k: Key): LiveRow { LiveRow(k.sub, lower(k.sub)) }

  ghost function Play(fix: Repairs, lower: Bytes -> Bytes, apex: Bytes, j: Joint, moves: seq<Move>): Joint {
    if moves == [] then j else Do(fix, lower, apex, Play(fix, lower, apex, j, moves[..|moves| - 1]), moves[|moves| - 1])
  }

  // ----- The hook of the model

  /** Handling an operation makes one OnNew call if its name is new, and none otherwise. */
  lemma {:induction false} HookIsNews(fix: Repairs, s: State, op: Op)
    ensures Handle(fix, s, op).hooks ==
            if op.Ingest? && Lookup(s, op.key) == None
            then s.hooks + [Hook(op.key, op.firstSeen, op.source, s.seqno + 1)] else s.hooks
  {
    hide Recounted, Apply, Flush, Lookup;
    var h := s.(history := s.history + [op]);
    match op
    case Ingest(k, firstSeen, source) =>
      HandleIngestIs(fix, s, op);
      ApplyHook(fix, h, k, firstSeen, source);
      LookupSame(s, h, k);
      FlushHooks(fix, Counted(Apply(fix, h, k, firstSeen, source)));
    case Advance(log, wm) =>
    case Recount => FlushHooks(fix, h);
  }

  lemma ApplyHook(fix: Repairs, s: State, k: Key, firstSeen: int, source: byte)
    ensures Apply(fix, s, k, firstSeen, source).hooks ==
            if Lookup(s, k) == None then s.hooks + [Hook(k, firstSeen, source, s.seqno + 1)] else s.hooks
  {
    hide Lookup;
  }

  lemma LookupSame(s: State, t: State, k: Key)
    requires t.db == s.db && t.pendingRecords == s.pendingRecords
    ensures Lookup(t, k) == Lookup(s, k)
  {
  }

  lemma FlushHooks(fix: Repairs, s: State)
    ensures Flush(fix, s).hooks == s.hooks
  {
  }

  /** A step that neither ends the process nor takes an operation makes no call. */
  lemma NoHook(fix: Repairs, y: Sys, ev: Event)
    requires !EndsEpoch(y, ev) && !ev.Deliver?
    ensures Step(fix, y, ev).s.hooks == y.s.hooks
  {
    hide Flush, Recounted;
    FlushHooks(fix, y.s);
  }

  lemma HookedKeys(s: State)
    requires Hooked(s)
    ensures HookKeys(s.hooks) <= Merged(s).records.Keys
  {
    hide Merged;
    forall k | k in HookKeys(s.hooks) ensures k in Merged(s).records {
      var h :| h in s.hooks && h.key == k;
      var i :| 0 <= i < |s.hooks| && s.hooks[i] == h;
    }
  }

  function HookKeys(hooks: seq<Hook>): set<Key> { set h | h in hooks :: h.key }

  lemma HookKeysOne(hooks: seq<Hook>, h: Hook)
    ensures HookKeys(hooks + [h]) == HookKeys(hooks) + {h.key}
  {
    assert forall g :: g in hooks + [h] <==> g in hooks || g == h;
  }

  // ----- What every move keeps

  /** The names announced are distinct; the loop has stored them, all but the one it is
      announcing; and the stream numbers them. */
  ghost predicate NamesInv(apex: Bytes, j: Joint) {
    && |j.names| == j.stream.count && Feed.Conserved(j.stream) && j.read <= |j.stream.out|
    && (j.stream.storing ==> j.hooked)
    && (j.hooked ==> j.names != [] && News(apex, j.y) == [j.names[|j.names| - 1]])
    && (forall n :: 0 <= n < |j.names| ==> j.names[n].apex == apex)
    && (forall n :: 0 <= n < |j.names| - (if j.hooked then 1 else 0) ==> j.names[n] in HookKeys(j.y.s.hooks))
    && (forall m, n :: 0 <= m < n < |j.names| ==> j.names[m] != j.names[n])
  }

  /** The page is complete for the database of the last answer it applied, no name twice. */
  ghost predicate PollInv(lower: Bytes -> Bytes, apex: Bytes, j: Joint) {
    && ValidDB(j.polled) && Extends(j.polled, j.y.s.db) && j.lastSeq > 0
    && NoRepeats(j.shown) && Lowered(lower, j.shown)
    && Complete(lower, j.shown, j.polled.records, apex) && IsMaxSeq(j.polled.records, apex, j.lastSeq)
  }

  /** Each row has its own name in lower case. */
  ghost predicate Lowered(lower: Bytes -> Bytes, shown: seq<LiveRow>) {
    forall r :: r in shown ==> r.lc == lower(r.sub)
  }

  /** An answer in flight comes from a database between that one and the present. */
  ghost predicate FlightInv(apex: Bytes, j: Joint) {
    j.flight.Answered? ==>
      && IsScan(j.flight.db.records, apex, j.flight.scan)
      && ValidDB(j.flight.db) && Extends(j.polled, j.flight.db) && Extends(j.flight.db, j.y.s.db)
  }

  /** Every row is that of a record the page has polled or of an event that was written. */
  ghost predicate RowsKnown(lower: Bytes -> Bytes, apex: Bytes, j: Joint) {
    forall r :: r in j.shown ==> Known(lower, apex, j, r.lc)
  }

  ghost predicate Known(lower: Bytes -> Bytes, apex: Bytes, j: Joint, lc: Bytes) {
    Committed(lower, apex, j.polled.records, lc) || WasWritten(lower, j, lc)
  }

  ghost predicate Committed(lower: Bytes -> Bytes, apex: Bytes, records: Records, lc: Bytes) {
    exists k :: k in RecordsOf(records, apex) && lower(k.sub) == lc
  }

  ghost predicate WasWritten(lower: Bytes -> Bytes, j: Joint, lc: Bytes) {
    exists n :: 0 <= n < |j.names| && n in Feed.Written(j.stream.out) && lower(j.names[n].sub) == lc
  }

  ghost predicate JointInv(lower: Bytes -> Bytes, apex: Bytes, j: Joint) {
    && Inv(j.y.s) && Hooked(j.y.s)
    && NamesInv(apex, j) && PollInv(lower, apex, j) && FlightInv(apex, j)
    && (!j.restarted ==> RowsKnown(lower, apex, j))
  }

  /** Later polls and later lines only add to what a row may be. */
  lemma KnownLater(lower: Bytes -> Bytes, apex: Bytes, j: Joint, t: Joint, lc: Bytes)
    requires Known(lower, apex, j, lc) && Extends(j.polled, t.polled) && j.names <= t.names
    requires forall n :: n in Feed.Written(j.stream.out) ==> n in Feed.Written(t.stream.out)
    ensures Known(lower, apex, t, lc)
  {
    if Committed(lower, apex, j.polled.records, lc) {
      var k :| k in RecordsOf(j.polled.records, apex) && lower(k.sub) == lc;
      assert k in RecordsOf(t.polled.records, apex);
    } else {
      var n :| 0 <= n < |j.names| && n in Feed.Written(j.stream.out) && lower(j.names[n].sub) == lc;
      assert t.names[n] == j.names[n];
    }
  }

  lemma RowsKnownLater(lower: Bytes -> Bytes, apex: Bytes, j: Joint, t: Joint)
    requires RowsKnown(lower, apex, j) && t.shown == j.shown && t.polled == j.polled && j.names <= t.names
    requires forall n :: n in Feed.Written(j.stream.out) ==> n in Feed.Written(t.stream.out)
    ensures RowsKnown(lower, apex, t)
  {
    hide Extends, Known;
    ExtendsReflexive(j.polled);
    forall r | r in t.shown ensures Known(lower, apex, t, r.lc) { KnownLater(lower, apex, j, t, r.lc); }
  }

  lemma NamesNone(apex: Bytes, j: Joint)
    requires j.names == [] && j.stream == Feed.Fresh && j.read == 0 && !j.hooked
    ensures NamesInv(apex, j)
  {
    Feed.FreshKeeps();
  }

  /** The operation of the hook has been handled; one without a hook leaves the names. */
  lemma NamesDeliver(fix: Repairs, apex: Bytes, j: Joint)
    requires NamesInv(apex, j) && j.y.ch != [] && !Blocked(apex, j, Deliver)
    ensures NamesInv(apex, StoreStep(fix, j, Deliver))
  {
    hide Handle, Feed.Conserved;
    var op, t := j.y.ch[0], StoreStep(fix, j, Deliver);
    HookIsNews(fix, j.y.s, op);
    if op.Ingest? {
      HookKeysOne(j.y.s.hooks, Hook(op.key, op.firstSeen, op.source, j.y.s.seqno + 1));
    }
    assert HookKeys(j.y.s.hooks) <= HookKeys(t.y.s.hooks);
  }

  /** A step of the store that takes no operation. */
  lemma NamesStore(fix: Repairs, apex: Bytes, j: Joint, ev: Event)
    requires NamesInv(apex, j) && !EndsEpoch(j.y, ev) && !Blocked(apex, j, ev) && !ev.Deliver?
    ensures NamesInv(apex, StoreStep(fix, j, ev))
  {
    hide Flush, Recounted, Feed.Conserved;
    NoHook(fix, j.y, ev);
  }

  lemma StoreMove(fix: Repairs, lower: Bytes -> Bytes, apex: Bytes, j: Joint, ev: Event)
    requires JointInv(lower, apex, j)
    ensures JointInv(lower, apex, Do(fix, lower, apex, j, Store(ev)))
  {
    hide Inv, Hooked, Step, EndsEpoch, NamesInv, Extends, ValidDB, Complete, IsMaxSeq, IsScan, RowsKnown, Blocked;
    if !Blocked(apex, j, ev) {
      var t := StoreStep(fix, j, ev);
      StepInv(fix, j.y, ev);
      HookedStep(fix, j.y, ev);
      ExtendsTransitive(j.polled, j.y.s.db, t.y.s.db);
      if j.flight.Answered? { ExtendsTransitive(j.flight.db, j.y.s.db, t.y.s.db); }
      if EndsEpoch(j.y, ev) {
        NamesNone(apex, t);
      } else {
        NamesMove(fix, apex, j, ev);
        if !j.restarted { RowsKnownLater(lower, apex, j, t); }
      }
    }
  }

  lemma NamesMove(fix: Repairs, apex: Bytes, j: Joint, ev: Event)
    requires NamesInv(apex, j) && !EndsEpoch(j.y, ev) && !Blocked(apex, j, ev)
    ensures NamesInv(apex, StoreStep(fix, j, ev))
  {
    hide NamesInv, Blocked, Handle;
    if !ev.Deliver? {
      NamesStore(fix, apex, j, ev);
    } else if j.y.ch == [] {
      NamesIdle(apex, j);
    } else {
      NamesDeliver(fix, apex, j);
    }
  }

  lemma NamesIdle(apex: Bytes, j: Joint)
    requires NamesInv(apex, j) && j.y.ch == []
    ensures !j.hooked
  {
  }

  lemma AnnounceMove(fix: Repairs, lower: Bytes -> Bytes, apex: Bytes, j: Joint)
    requires JointInv(lower, apex, j)
    ensures JointInv(lower, apex, Do(fix, lower, apex, j, Announce))
  {
    hide Inv, Hooked, Extends, ValidDB, Complete, IsMaxSeq, IsScan, RowsKnown, Lookup, Merged;
    hide Feed.Conserved, Feed.Step;
    if !j.hooked && News(apex, j.y) != [] {
      var t, k := Do(fix, lower, apex, j, Announce), j.y.ch[0].key;
      HookedKeys(j.y.s);
      Unmerged(j.y.s, k);
      Feed.ConservedStep(j.stream, Feed.Offer);
      OfferCounts(j.stream);
      assert News(apex, t.y) == [k];
      if !j.restarted { RowsKnownLater(lower, apex, j, t); }
    }
  }

  lemma OfferCounts(s: Feed.Stream)
    ensures var t := Feed.Step(s, Feed.Offer);
            t.out == s.out && (!s.storing ==> t.count == s.count + 1)
  {
  }

  /** The hub's store and the handler's moves. */
  lemma OutGrows(s: Feed.Stream, m: Feed.Move)
    requires !m.Offer?
    ensures var t := Feed.Step(s, m);
            && t.count == s.count && t.drops == s.drops && |s.out| <= |t.out| && (t.storing ==> s.storing)
            && forall n :: n in Feed.Written(s.out) ==> n in Feed.Written(t.out)
  {
    Feed.WrittenOne(s.out, Feed.Resync);
    if s.hand.Swapped? { Feed.WrittenOne(s.out, Feed.Ev(s.hand.n)); }
  }

  lemma StreamMove(fix: Repairs, lower: Bytes -> Bytes, apex: Bytes, j: Joint, m: Feed.Move)
    requires JointInv(lower, apex, j)
    ensures JointInv(lower, apex, Do(fix, lower, apex, j, Stream(m)))
  {
    hide Inv, Hooked, Extends, ValidDB, Complete, IsMaxSeq, IsScan, RowsKnown, Feed.Conserved, Feed.Step, News;
    if !m.Offer? {
      var t := Do(fix, lower, apex, j, Stream(m));
      Feed.ConservedStep(j.stream, m);
      OutGrows(j.stream, m);
      if !j.restarted { RowsKnownLater(lower, apex, j, t); }
    }
  }

  // ----- The page

  /** An event that has been written has its name, and was not dropped. */
  lemma WrittenName(apex: Bytes, j: Joint, n: nat)
    requires NamesInv(apex, j) && n in Feed.Written(j.stream.out)
    ensures n < |j.names| && n !in j.stream.drops
  {
    assert n in Feed.Kept(j.stream);
  }

  lemma OneRow(shown: seq<LiveRow>, row: LiveRow)
    ensures forall r :: r in Receive(shown, row) ==> r in shown || r == row
  {
  }

  /** Reading a line, and a catch-up begun or abandoned, leave all but the flight. */
  lemma PageSame(lower: Bytes -> Bytes, apex: Bytes, j: Joint, t: Joint)
    requires JointInv(lower, apex, j) && j.read <= t.read <= |j.stream.out|
    requires t == j.(read := t.read, flight := t.flight) && (t.flight == j.flight || !t.flight.Answered?)
    ensures JointInv(lower, apex, t)
  {
    hide Inv, Hooked, Extends, ValidDB, IsMaxSeq, IsScan, Complete, Feed.Conserved, News;
    if !j.restarted { RowsKnownLater(lower, apex, j, t); }
  }

  lemma ReadEvent(lower: Bytes -> Bytes, apex: Bytes, j: Joint)
    requires JointInv(lower, apex, j) && j.read < |j.stream.out| && j.stream.out[j.read].Ev?
    ensures JointInv(lower, apex, ReadLine(lower, j))
  {
    hide Inv, Hooked, Extends, ValidDB, IsMaxSeq, IsScan, Committed, Receive, Lcs, NoRepeats, News, HookKeys;
    hide Feed.Conserved;
    var n, t := j.stream.out[j.read].n, ReadLine(lower, j);
    Feed.WrittenHas(j.stream.out, j.read);
    WrittenName(apex, j, n);
    var row := RowOf(lower, j.names[n]);
    ReceiveOne(j.shown, row);
    OneRow(j.shown, row);
    if !j.restarted {
      forall r | r in t.shown ensures Known(lower, apex, t, r.lc) {
        if r == row {
          assert lower(t.names[n].sub) == r.lc;
        } else {
          assert Known(lower, apex, j, r.lc);
        }
      }
    }
  }

  lemma AnswerMove(fix: Repairs, lower: Bytes -> Bytes, apex: Bytes, j: Joint, scan: seq<Scans.Row>)
    requires JointInv(lower, apex, j)
    ensures JointInv(lower, apex, Do(fix, lower, apex, j, Answer(scan)))
  {
    hide Inv, Hooked, Extends, ValidDB, IsMaxSeq, IsScan, Complete, NamesInv;
    var t := Do(fix, lower, apex, j, Answer(scan));
    InvDurable(j.y.s);
    ExtendsReflexive(j.y.s.db);
    NamesSame(apex, j, t);
    if !j.restarted { RowsKnownLater(lower, apex, j, t); }
  }

  lemma {:induction false} ReceivedFrom(shown: seq<LiveRow>, rows: seq<LiveRow>)
    ensures forall r :: r in ReceiveAll(shown, rows) ==> r in shown || r in rows
    decreases |rows|
  {
    if rows != [] {
      var n := |rows| - 1;
      ReceivedFrom(shown, rows[..n]);
      assert rows == rows[..n] + [rows[n]];
    }
  }

  /** The rows of a poll are committed names. */
  lemma PolledRows(lower: Bytes -> Bytes, apex: Bytes, records: Records, scan: seq<Scans.Row>, cursor: nat,
                   row: LiveRow)
    requires IsScan(records, apex, scan) && row in RowsFrom(lower, SubsIn(Scans.After(scan, cursor)))
    ensures Key(apex, row.sub) in RecordsOf(records, apex) && lower(row.sub) == row.lc
    ensures Committed(lower, apex, records, row.lc)
  {
    hide Scans.After;
    var rows := Scans.After(scan, cursor);
    AfterRows(scan, cursor);
    var i :| 0 <= i < |rows| && RowsFrom(lower, SubsIn(rows))[i] == row;
    assert rows[i] in scan;
    assert Key(apex, row.sub).sub == row.sub;
  }

  lemma LandMove(fix: Repairs, lower: Bytes -> Bytes, apex: Bytes, j: Joint)
    requires JointInv(lower, apex, j)
    ensures JointInv(lower, apex, Do(fix, lower, apex, j, Land))
  {
    hide Inv, Hooked, Extends, ValidDB, IsMaxSeq, IsScan, Committed, Complete, NamesInv, WasWritten, NoRepeats;
    if j.flight.Answered? {
      var t, rows, db := Do(fix, lower, apex, j, Land), Rows(lower, j), j.flight.db;
      CatchUpCompletes(lower, j.shown, j.polled, db, apex, j.lastSeq, j.flight.scan);
      ReceiveMany(j.shown, rows);
      ReceivedFrom(j.shown, rows);
      NamesSame(apex, j, t);
      if !j.restarted {
        forall r | r in t.shown ensures Known(lower, apex, t, r.lc) {
          if r in rows {
            PolledRows(lower, apex, db.records, j.flight.scan, j.lastSeq, r);
          } else {
            KnownLater(lower, apex, j, t, r.lc);
          }
        }
      }
    }
  }

  lemma NamesSame(apex: Bytes, j: Joint, t: Joint)
    requires NamesInv(apex, j) && t.y == j.y && t.hooked == j.hooked && t.stream == j.stream && t.names == j.names
    requires t.read == j.read
    ensures NamesInv(apex, t)
  {
    hide Feed.Conserved, News;
  }

  lemma MoveKeeps(fix: Repairs, lower: Bytes -> Bytes, apex: Bytes, j: Joint, move: Move)
    requires JointInv(lower, apex, j)
    ensures JointInv(lower, apex, Do(fix, lower, apex, j, move))
  {
    hide JointInv, IsScan, News, Blocked, StoreStep;
    match move
    case Store(ev) => StoreMove(fix, lower, apex, j, ev);
    case Announce => AnnounceMove(fix, lower, apex, j);
    case Stream(m) => StreamMove(fix, lower, apex, j, m);
    case Read =>
      if j.read < |j.stream.out| {
        if j.stream.out[j.read].Ev? {
          ReadEvent(lower, apex, j);
        } else {
          PageSame(lower, apex, j, ReadLine(lower, j));
        }
      }
    case Call => JointRead(lower, apex, j); PageSame(lower, apex, j, Ask(j));
    case Answer(scan) => AnswerMove(fix, lower, apex, j, scan);
    case Land => LandMove(fix, lower, apex, j);
    case Fail => JointRead(lower, apex, j); PageSame(lower, apex, j, j.(flight := Landed));
  }

  lemma JointRead(lower: Bytes -> Bytes, apex: Bytes, j: Joint)
    requires JointInv(lower, apex, j)
    ensures j.read <= |j.stream.out| && Inv(j.y.s)
  {
    hide Inv, Hooked, PollInv, FlightInv, RowsKnown;
  }

  lemma {:induction false} PlayKeeps(fix: Repairs, lower: Bytes -> Bytes, apex: Bytes, j: Joint, moves: seq<Move>)
    requires JointInv(lower, apex, j)
    ensures JointInv(lower, apex, Play(fix, lower, apex, j, moves))
    decreases |moves|
  {
    hide JointInv, Do;
    if moves != [] {
      PlayKeeps(fix, lower, apex, j, moves[..|moves| - 1]);
      MoveKeeps(fix, lower, apex, Play(fix, lower, apex, j, moves[..|moves| - 1]), moves[|moves| - 1]);
    }
  }

  /** The page has been searched from an earlier database, its snapshot, that had records
      of the apex, and shows them and nothing else. */
  ghost predicate Opening(lower: Bytes -> Bytes, apex: Bytes, y: Sys, snapshot: DB, shown: seq<LiveRow>, lastSeq: nat) {
    && Inv(y.s) && Hooked(y.s) && PollInv(lower, apex, Opened(y, snapshot, shown, lastSeq))
    && forall r :: r in shown ==> Committed(lower, apex, snapshot.records, r.lc)
  }

  lemma OpeningKeeps(lower: Bytes -> Bytes, apex: Bytes, y: Sys, snapshot: DB, shown: seq<LiveRow>, lastSeq: nat)
    requires Opening(lower, apex, y, snapshot, shown, lastSeq)
    ensures JointInv(lower, apex, Opened(y, snapshot, shown, lastSeq))
  {
    hide Inv, Hooked, PollInv, NamesInv, Committed;
    NamesNone(apex, Opened(y, snapshot, shown, lastSeq));
  }

  /** On every run the page shows each record of the database behind the last answer it
      has applied, and no name twice. */
  lemma {:induction false} PageIsComplete(fix: Repairs, lower: Bytes -> Bytes, apex: Bytes, y: Sys, snapshot: DB,
                                          shown: seq<LiveRow>, lastSeq: nat, moves: seq<Move>)
    requires Opening(lower, apex, y, snapshot, shown, lastSeq)
    ensures var j := Play(fix, lower, apex, Opened(y, snapshot, shown, lastSeq), moves);
            && (forall k :: k in j.polled.records && k.apex == apex ==>
                  exists r :: r in j.shown && lower(r.sub) == lower(k.sub))
            && (forall m, n :: 0 <= m < n < |j.shown| ==> lower(j.shown[m].sub) != lower(j.shown[n].sub))
            && Extends(j.polled, j.y.s.db)
  {
    hide Opening, JointInv, Extends, Play;
    OpeningKeeps(lower, apex, y, snapshot, shown, lastSeq);
    PlayKeeps(fix, lower, apex, Opened(y, snapshot, shown, lastSeq), moves);
    JointPolled(lower, apex, Play(fix, lower, apex, Opened(y, snapshot, shown, lastSeq), moves));
  }

  lemma JointPolled(lower: Bytes -> Bytes, apex: Bytes, j: Joint)
    requires JointInv(lower, apex, j)
    ensures forall k :: k in j.polled.records && k.apex == apex ==>
              exists r :: r in j.shown && lower(r.sub) == lower(k.sub)
    ensures forall m, n :: 0 <= m < n < |j.shown| ==> lower(j.shown[m].sub) != lower(j.shown[n].sub)
    ensures Extends(j.polled, j.y.s.db)
  {
    hide Inv, Hooked, NamesInv, FlightInv, RowsKnown, Extends;
    forall k | k in j.polled.records && k.apex == apex
      ensures exists r :: r in j.shown && lower(r.sub) == lower(k.sub)
    {
      assert k in RecordsOf(j.polled.records, apex);
      var r :| r in j.shown && r.lc == lower(k.sub);
    }
    forall m, n | 0 <= m < n < |j.shown| ensures lower(j.shown[m].sub) != lower(j.shown[n].sub) {
      assert j.shown[m] in j.shown && j.shown[n] in j.shown;
    }
  }

  // ----- A dropped name

  /** Names are canonical: lower-casing leaves them alone. */
  ghost predicate Canonical(lower: Bytes -> Bytes, apex: Bytes, j: Joint) {
    && (forall k :: k in RecordsOf(j.y.s.db.records, apex) ==> lower(k.sub) == k.sub)
    && (forall n :: 0 <= n < |j.names| ==> lower(j.names[n].sub) == j.names[n].sub)
  }

  lemma DroppedName(lower: Bytes -> Bytes, apex: Bytes, j: Joint, d: nat)
    requires JointInv(lower, apex, j) && d in j.stream.drops && Canonical(lower, apex, j)
    ensures d < |j.names| && j.names[d] == Key(apex, j.names[d].sub) && lower(j.names[d].sub) == j.names[d].sub
  {
    hide Inv, Hooked, PollInv, FlightInv, RowsKnown;
  }

  /** A stored record with the lower-case name x has the name x. */
  lemma Uncased(lower: Bytes -> Bytes, apex: Bytes, j: Joint, db: DB, k: Key, x: Bytes)
    requires Canonical(lower, apex, j) && Extends(db, j.y.s.db) && k in RecordsOf(db.records, apex) && lower(k.sub) == x
    ensures k == Key(apex, x) && Key(apex, x) in db.records
  {
    assert k in RecordsOf(j.y.s.db.records, apex);
  }

  /** A row that shows the name of a dropped event comes from a record that was polled. */
  lemma ShownWasPolled(lower: Bytes -> Bytes, apex: Bytes, j: Joint, d: nat)
    requires JointInv(lower, apex, j) && d in j.stream.drops && Canonical(lower, apex, j)
    requires !j.restarted && d < |j.names| && j.names[d].sub in Lcs(j.shown)
    ensures j.names[d] in j.polled.records
  {
    hide Inv, Hooked, FlightInv, Feed.Conserved, Extends, Complete, IsMaxSeq, ValidDB, NoRepeats, News, HookKeys;
    var x := j.names[d].sub;
    DroppedName(lower, apex, j, d);
    var r :| r in j.shown && r.lc == x;
    assert Known(lower, apex, j, x);
    if Committed(lower, apex, j.polled.records, x) {
      var k :| k in RecordsOf(j.polled.records, apex) && lower(k.sub) == x;
      Uncased(lower, apex, j, j.polled, k, x);
    } else {
      var n :| 0 <= n < |j.names| && n in Feed.Written(j.stream.out) && lower(j.names[n].sub) == x;
      WrittenName(apex, j, n);
      OneOfAName(lower, apex, j, n, d);
      assert false;
    }
  }

  lemma OneOfAName(lower: Bytes -> Bytes, apex: Bytes, j: Joint, m: nat, n: nat)
    requires NamesInv(apex, j) && Canonical(lower, apex, j) && m < |j.names| && n < |j.names|
    requires lower(j.names[m].sub) == j.names[n].sub
    ensures m == n
  {
    hide Feed.Conserved, News, HookKeys;
    assert j.names[m] == Key(apex, j.names[m].sub) && j.names[n] == Key(apex, j.names[n].sub);
  }

  lemma DroppedAfter(lower: Bytes -> Bytes, apex: Bytes, j: Joint, d: nat)
    requires JointInv(lower, apex, j) && j.flight.Answered? && d in j.stream.drops && Canonical(lower, apex, j)
    ensures d < |j.names|
    ensures var x, shown := j.names[d].sub, ReceiveAll(j.shown, Rows(lower, j));
            && (x in Lcs(shown) <==> j.names[d] in j.flight.db.records || x in Lcs(j.shown))
            && (!j.restarted ==> (x in Lcs(shown) <==> j.names[d] in j.flight.db.records))
  {
    hide JointInv, Canonical, Lcs, Rows, IsScan, Extends, Complete;
    DroppedName(lower, apex, j, d);
    var k, x, rows := j.names[d], j.names[d].sub, Rows(lower, j);
    ReceiveMany(j.shown, rows);
    if x in Lcs(rows) { RowOfName(lower, apex, j, x); }
    if k in j.flight.db.records { PolledShows(lower, apex, j, k); }
    if !j.restarted && x in Lcs(j.shown) {
      ShownWasPolled(lower, apex, j, d);
      InFlightStill(lower, apex, j, k);
    }
  }

  lemma InFlightStill(lower: Bytes -> Bytes, apex: Bytes, j: Joint, k: Key)
    requires JointInv(lower, apex, j) && j.flight.Answered? && k in j.polled.records
    ensures k in j.flight.db.records
  {
    hide Inv, Hooked, NamesInv, PollInv, RowsKnown, IsScan, ValidDB;
  }

  lemma RowOfName(lower: Bytes -> Bytes, apex: Bytes, j: Joint, x: Bytes)
    requires JointInv(lower, apex, j) && j.flight.Answered? && Canonical(lower, apex, j) && x in Lcs(Rows(lower, j))
    ensures Key(apex, x) in j.flight.db.records
  {
    hide Inv, Hooked, NamesInv, PollInv, RowsKnown, IsScan, ValidDB, Extends, Canonical, Committed;
    var row :| row in Rows(lower, j) && row.lc == x;
    PolledRows(lower, apex, j.flight.db.records, j.flight.scan, j.lastSeq, row);
    Uncased(lower, apex, j, j.flight.db, Key(apex, row.sub), x);
  }

  /** Applying the answer shows every record of its database. */
  lemma PolledShows(lower: Bytes -> Bytes, apex: Bytes, j: Joint, k: Key)
    requires JointInv(lower, apex, j) && j.flight.Answered? && k in j.flight.db.records && k.apex == apex
    ensures lower(k.sub) in Lcs(ReceiveAll(j.shown, Rows(lower, j)))
  {
    hide Inv, Hooked, NamesInv, RowsKnown, IsScan, ValidDB, Extends, Lcs, IsMaxSeq, NoRepeats;
    CatchUpCompletes(lower, j.shown, j.polled, j.flight.db, apex, j.lastSeq, j.flight.scan);
    assert k in RecordsOf(j.flight.db.records, apex);
  }

  /** A dropped name and a catch-up. After any run, when the page applies the answer of a
      poll, a name whose event was dropped is on the page if and only if it was committed
      when the poll was answered, or was already shown; and unless the server has restarted
      since the page was opened, so that a name lost in a crash may still be shown, if and
      only if it was committed then. */
  lemma {:induction false} DroppedIsShownIff(fix: Repairs, lower: Bytes -> Bytes, apex: Bytes, y: Sys, snapshot: DB,
                                             shown: seq<LiveRow>, lastSeq: nat, moves: seq<Move>, d: nat)
    requires Opening(lower, apex, y, snapshot, shown, lastSeq)
    requires var j := Play(fix, lower, apex, Opened(y, snapshot, shown, lastSeq), moves);
             j.flight.Answered? && d in j.stream.drops && Canonical(lower, apex, j)
    ensures var j := Play(fix, lower, apex, Opened(y, snapshot, shown, lastSeq), moves);
            var t := Do(fix, lower, apex, j, Land);
            && d < |j.names| && t.flight.Landed?
            && (j.names[d].sub in Lcs(t.shown) <==> j.names[d] in j.flight.db.records || j.names[d].sub in Lcs(j.shown))
            && (!j.restarted ==> (j.names[d].sub in Lcs(t.shown) <==> j.names[d] in j.flight.db.records))
  {
    hide JointInv, Opening, Canonical, Lcs, Play, Rows;
    OpeningKeeps(lower, apex, y, snapshot, shown, lastSeq);
    PlayKeeps(fix, lower, apex, Opened(y, snapshot, shown, lastSeq), moves);
    DroppedAfter(lower, apex, Play(fix, lower, apex, Opened(y, snapshot, shown, lastSeq), moves), d);
  }
}
