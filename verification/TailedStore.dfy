/** Tailers and the store together: a durable watermark means that the data below
    it is durable, on every run and across crashes. */
module TailedStore {
  import opened ByteStrings
  import opened StoreModel
  import opened StoreInvariants
  import opened StoreRefinement
  import opened StoreRuns
  import opened Tailer

  /** All logs by name. */
  type Logs = Bytes -> Log

  /** One tailOne goroutine: its watermark and what it is about to send. */
  datatype Tail = Tail(wm: int, outbox: seq<Op>)

  datatype World = World(y: Sys, tails: map<Bytes, Tail>)

  datatype Act =
    | StoreAct(ev: Event)                                                  // anything but a tailer's own sends
    | StartTail(id: Bytes)                                                 // reads the stored watermark
    | Turn(id: Bytes, total: nat, ops: seq<Op>, advance: bool)             // one turn of the loop fills the outbox
    | TailSend(id: Bytes)                                                  // one channel send

  function WM(db: DB, id: Bytes): int { if id in db.wms then db.wms[id] else 0 }

  /** What FetchRange promises of the operations of a turn. */
  ghost predicate TurnOK(logs: Logs, resolve: Resolver, id: Bytes, wm: int, total: nat, ops: seq<Op>) {
    wm >= 0 && AllIngest(ops) && Covers(ops, logs(id), resolve, wm, wm + total)
  }

  ghost function Do(fix: Repairs, logs: Logs, resolve: Resolver, w: World, act: Act): World {
    match act
    case StoreAct(ev) =>
      if ev.Send? && ev.op.Advance? then w
      else World(Step(fix, w.y, ev), if EndsEpoch(w.y, ev) then map[] else w.tails)
    case StartTail(id) =>
      if id in w.tails then w else w.(tails := w.tails[id := Tail(WM(w.y.s.db, id), [])])
    case Turn(id, total, ops, advance) =>
      if id in w.tails && w.tails[id].outbox == [] && TurnOK(logs, resolve, id, w.tails[id].wm, total, ops) then
        var wm := w.tails[id].wm + total;
        w.(tails := w.tails[id := Tail(wm, if advance then ops + [Advance(id, wm)] else ops)])
      else w
    case TailSend(id) =>
      if id in w.tails && w.tails[id].outbox != [] then
        var t := w.tails[id];
        World(Step(fix, w.y, Send(t.outbox[0])), w.tails[id := t.(outbox := t.outbox[1..])])
      else w
  }

  ghost function Play(fix: Repairs, logs: Logs, resolve: Resolver, w: World, acts: seq<Act>): World {
    if acts == [] then w else Do(fix, logs, resolve, Play(fix, logs, resolve, w, acts[..|acts| - 1]), acts[|acts| - 1])
  }

  /** What `Tailer.TailTurn` promises of a turn is an act of the world: the same new
      watermark and the same operations to send. */
  lemma TurnIsAct(fix: Repairs, logs: Logs, resolve: Resolver, w: World, id: Bytes, src: Source,
                  wm': nat, target: int, window: nat, advanceOk: bool, ops: seq<Op>, sent: seq<Op>)
    requires id in w.tails && w.tails[id].outbox == [] && w.tails[id].wm >= 0 && logs(id) == src.Entries()
    requires Turned(id, src, resolve, w.tails[id].wm, target, window, advanceOk, wm', ops, sent)
    ensures var act := Turn(id, wm' - w.tails[id].wm, ops, advanceOk && target > w.tails[id].wm);
            Do(fix, logs, resolve, w, act) == w.(tails := w.tails[id := Tail(wm', sent)])
  {
    hide OnlyVerified, EndedAt, EntryOps;
  }

  // ----- Coverage

  /** Every record of entry i of log id has its key in keys. */
  ghost predicate Stored(keys: set<Key>, logs: Logs, resolve: Resolver, id: Bytes, i: nat) {
    forall op :: op in EntryOps(resolve, logs(id)(i)) ==> op.Ingest? && op.key in keys
  }

  /** Every entry of the log from its first watermark up to w is stored in keys. */
  ghost predicate Covered(base: map<Bytes, int>, logs: Logs, resolve: Resolver, keys: set<Key>, id: Bytes, w: int) {
    forall i: nat :: (if id in base then base[id] else 0) <= i < w ==> Stored(keys, logs, resolve, id, i)
  }

  function KeysOf(ops: seq<Op>): set<Key> {
    if ops == [] then {} else (if ops[0].Ingest? then {ops[0].key} else {}) + KeysOf(ops[1..])
  }

  /** Each Advance in the sequence finds its data in keys or ahead of it in the sequence. */
  ghost predicate Ordered(base: map<Bytes, int>, logs: Logs, resolve: Resolver, keys: set<Key>, ops: seq<Op>)
    decreases |ops|
  {
    ops == [] ||
    ((ops[0].Advance? ==> Covered(base, logs, resolve, keys, ops[0].log, ops[0].wm)) &&
     Ordered(base, logs, resolve, if ops[0].Ingest? then keys + {ops[0].key} else keys, ops[1..]))
  }

  /** Watermarks in the database, and those waiting for the next commit. */
  ghost predicate StateCovered(base: map<Bytes, int>, logs: Logs, resolve: Resolver, s: State) {
    && (forall id :: id in s.db.wms ==> Covered(base, logs, resolve, s.db.records.Keys, id, s.db.wms[id]))
    && (forall id :: id in s.pendingWM ==> Covered(base, logs, resolve, Merged(s).records.Keys, id, s.pendingWM[id]))
  }

  ghost predicate WorldCovered(base: map<Bytes, int>, logs: Logs, resolve: Resolver, w: World) {
    var keys := Merged(w.y.s).records.Keys;
    && StateCovered(base, logs, resolve, w.y.s)
    && Ordered(base, logs, resolve, keys, w.y.ch)
    && (forall id :: id in w.tails ==> TailCovered(base, logs, resolve, keys + KeysOf(w.y.ch), id, w.tails[id]))
  }

  ghost predicate TailCovered(base: map<Bytes, int>, logs: Logs, resolve: Resolver, keys: set<Key>, id: Bytes,
                              t: Tail) {
    Ordered(base, logs, resolve, keys, t.outbox) && Covered(base, logs, resolve, keys + KeysOf(t.outbox), id, t.wm)
  }

  lemma CoveredMore(base: map<Bytes, int>, logs: Logs, resolve: Resolver, keys: set<Key>, more: set<Key>,
                    id: Bytes, w: int)
    requires Covered(base, logs, resolve, keys, id, w) && keys <= more
    ensures Covered(base, logs, resolve, more, id, w)
  {
    forall i: nat | (if id in base then base[id] else 0) <= i < w ensures Stored(more, logs, resolve, id, i) {
      assert Stored(keys, logs, resolve, id, i);
    }
  }

  lemma {:induction false} OrderedMore(base: map<Bytes, int>, logs: Logs, resolve: Resolver, keys: set<Key>,
                                       more: set<Key>, ops: seq<Op>)
    requires Ordered(base, logs, resolve, keys, ops) && keys <= more
    ensures Ordered(base, logs, resolve, more, ops)
    decreases |ops|
  {
    hide Covered;
    if ops != [] {
      if ops[0].Advance? { CoveredMore(base, logs, resolve, keys, more, ops[0].log, ops[0].wm); }
      var k := if ops[0].Ingest? then {ops[0].key} else {};
      assert keys + {} == keys && more + {} == more;
      OrderedMore(base, logs, resolve, keys + k, more + k, ops[1..]);
    }
  }

  lemma {:induction false} OrderedAppend(base: map<Bytes, int>, logs: Logs, resolve: Resolver, keys: set<Key>,
                                         ops: seq<Op>, op: Op)
    requires Ordered(base, logs, resolve, keys, ops)
    requires op.Advance? ==> Covered(base, logs, resolve, keys + KeysOf(ops), op.log, op.wm)
    ensures Ordered(base, logs, resolve, keys, ops + [op])
    decreases |ops|
  {
    hide Covered;
    if ops == [] {
      assert keys + {} == keys;
      assert (ops + [op])[1..] == [];
    } else {
      var k := if ops[0].Ingest? then {ops[0].key} else {};
      assert (keys + k) + KeysOf(ops[1..]) == keys + KeysOf(ops) && keys + {} == keys;
      OrderedAppend(base, logs, resolve, keys + k, ops[1..], op);
      assert (ops + [op])[1..] == ops[1..] + [op];
    }
  }

  lemma {:induction false} KeysOfAppend(ops: seq<Op>, more: seq<Op>)
    ensures KeysOf(ops + more) == KeysOf(ops) + KeysOf(more)
    decreases |ops|
  {
    if ops == [] {
      assert ops + more == more;
    } else {
      KeysOfAppend(ops[1..], more);
      assert (ops + more)[1..] == ops[1..] + more;
    }
  }

  lemma {:induction false} KeysOfAll(ops: seq<Op>, op: Op)
    requires op in ops && op.Ingest?
    ensures op.key in KeysOf(ops)
    decreases |ops|
  {
    if ops[0] != op {
      KeysOfAll(ops[1..], op);
    }
  }

  /** Operations without an Advance are always in order. */
  lemma {:induction false} IngestsOrdered(base: map<Bytes, int>, logs: Logs, resolve: Resolver,
                                          keys: set<Key>, ops: seq<Op>)
    requires AllIngest(ops)
    ensures Ordered(base, logs, resolve, keys, ops)
    decreases |ops|
  {
    if ops != [] {
      IngestsOrdered(base, logs, resolve, keys + {ops[0].key}, ops[1..]);
    }
  }

  // ----- The store's side

  function KeyOf(op: Op): set<Key> { if op.Ingest? then {op.key} else {} }

  lemma ApplyKeys(fix: Repairs, s: State, k: Key, firstSeen: int, source: byte)
    requires Inv(s)
    ensures Merged(Counted(Apply(fix, s, k, firstSeen, source))).records.Keys == Merged(s).records.Keys + {k}
  {
    hide Merged, Inv;
    match Lookup(s, k)
    case None =>
      MergedIgnores(Insert(fix, s, k, firstSeen, source), Counted(Insert(fix, s, k, firstSeen, source)));
      MergedInsert(fix, s, k, firstSeen, source);
    case Some(st) =>
      InMerged(s, k, st);
      MergedRefreshed(fix, s, k, firstSeen, st);
  }

  /** What a flush does to keys and watermarks. */
  lemma FlushView(fix: Repairs, s: State)
    requires Inv(s)
    ensures var t := Flush(fix, s);
            && Merged(t).records.Keys == Merged(s).records.Keys && s.db.records.Keys <= Merged(s).records.Keys
            && t.wmHigh == s.wmHigh
            && (Idle(s) ==> t == s)
            && (!Idle(s) ==>
                  t.db.records.Keys == Merged(s).records.Keys &&
                  t.db.wms == s.db.wms + s.pendingWM && t.pendingWM == map[])
  {
    if !Idle(s) {
      MergedNothing(Flush(fix, s));
    }
  }

  lemma StateCoveredFlush(base: map<Bytes, int>, logs: Logs, resolve: Resolver, fix: Repairs, s: State)
    requires Inv(s) && StateCovered(base, logs, resolve, s)
    ensures StateCovered(base, logs, resolve, Flush(fix, s)) &&
            Merged(Flush(fix, s)).records.Keys == Merged(s).records.Keys
  {
    hide Covered, Inv, Flush, Merged;
    var t := Flush(fix, s);
    FlushView(fix, s);
    if !Idle(s) {
      forall id | id in t.db.wms ensures Covered(base, logs, resolve, t.db.records.Keys, id, t.db.wms[id]) {
        if id !in s.pendingWM {
          CoveredMore(base, logs, resolve, s.db.records.Keys, t.db.records.Keys, id, s.db.wms[id]);
        }
      }
    }
  }

  /** More records, the same durable state and pending watermarks. */
  lemma StateCoveredGrows(base: map<Bytes, int>, logs: Logs, resolve: Resolver, s: State, t: State)
    requires StateCovered(base, logs, resolve, s) && t.db == s.db && t.pendingWM == s.pendingWM
    requires Merged(s).records.Keys <= Merged(t).records.Keys
    ensures StateCovered(base, logs, resolve, t)
  {
    hide Covered, Merged;
    forall id | id in t.pendingWM ensures Covered(base, logs, resolve, Merged(t).records.Keys, id, t.pendingWM[id]) {
      CoveredMore(base, logs, resolve, Merged(s).records.Keys, Merged(t).records.Keys, id, t.pendingWM[id]);
    }
  }

  lemma PendingIrrelevant(base: map<Bytes, int>, logs: Logs, resolve: Resolver, s: State, t: State)
    requires StateCovered(base, logs, resolve, s) && t.db == s.db && t.pendingWM == s.pendingWM && t.batch == s.batch
    ensures StateCovered(base, logs, resolve, t) && Merged(t) == Merged(s)
  {
    hide Covered;
    MergedIgnores(s, t);
  }

  lemma StateCoveredHandle(base: map<Bytes, int>, logs: Logs, resolve: Resolver, fix: Repairs, s: State, op: Op)
    requires Inv(s) && StateCovered(base, logs, resolve, s)
    requires op.Advance? ==> Covered(base, logs, resolve, Merged(s).records.Keys, op.log, op.wm)
    ensures StateCovered(base, logs, resolve, Handle(fix, s, op))
    ensures Merged(Handle(fix, s, op)).records.Keys == Merged(s).records.Keys + KeyOf(op)
  {
    hide StateCovered, Inv, Merged, Flush, Apply, Covered, Recounted;
    var t := s.(history := s.history + [op]);
    InvHistory(s, op);
    PendingIrrelevant(base, logs, resolve, s, t);
    match op
    case Ingest(k, firstSeen, source) =>
      var u := Counted(Apply(fix, t, k, firstSeen, source));
      ApplyKeys(fix, t, k, firstSeen, source);
      ApplyFrame(fix, t, k, firstSeen, source);
      StateCoveredGrows(base, logs, resolve, t, u);
      InvApply(fix, t, k, firstSeen, source);
      StateCoveredFlush(base, logs, resolve, fix, u);
      PendingIrrelevant(base, logs, resolve, Flush(fix, u), Flush(fix, u).(pending := 0));
    case Advance(log, wm) => StateCoveredAdvance(base, logs, resolve, t, log, wm);
    case Recount =>
      StateCoveredFlush(base, logs, resolve, fix, t);
      InvFlush(fix, t);
      StateCoveredRecount(base, logs, resolve, fix, t);
  }

  lemma StateCoveredAdvance(base: map<Bytes, int>, logs: Logs, resolve: Resolver, s: State, log: Bytes, wm: int)
    requires StateCovered(base, logs, resolve, s) && Covered(base, logs, resolve, Merged(s).records.Keys, log, wm)
    ensures StateCovered(base, logs, resolve, HandleAdvance(s, log, wm))
    ensures Merged(HandleAdvance(s, log, wm)) == Merged(s)
  {
    hide Covered, Merged;
    MergedIgnores(s, HandleAdvance(s, log, wm));
  }

  lemma StateCoveredRecount(base: map<Bytes, int>, logs: Logs, resolve: Resolver, fix: Repairs, s: State)
    requires StateCovered(base, logs, resolve, Flush(fix, s)) && Inv(s)
    ensures StateCovered(base, logs, resolve, HandleRecount(fix, s))
    ensures Merged(HandleRecount(fix, s)).records.Keys == Merged(s).records.Keys
  {
    hide Covered, Recounted, Merged, Inv;
    var f := Flush(fix, s);
    FlushEmpties(fix, s);
    FlushView(fix, s);
    RecountedKeeps(f.db, Apexes(f.db.records));
    MergedNothing(HandleRecount(fix, s));
  }

  lemma StateCoveredOpen(base: map<Bytes, int>, logs: Logs, resolve: Resolver, s: State, apexes: set<Bytes>)
    requires StateCovered(base, logs, resolve, s)
    ensures StateCovered(base, logs, resolve, Open(s.db))
    ensures StateCovered(base, logs, resolve, Open(Recounted(s.db, apexes)))
  {
    hide Covered, Recounted;
    RecountedKeeps(s.db, apexes);
  }

  // ----- One act of the world

  lemma WorldHandle(base: map<Bytes, int>, logs: Logs, resolve: Resolver, fix: Repairs, w: World)
    requires Inv(w.y.s) && WorldCovered(base, logs, resolve, w) && w.y.ch != []
    ensures WorldCovered(base, logs, resolve, w.(y := Step(fix, w.y, Deliver)))
  {
    hide StateCovered, Inv, Merged, Handle, Covered;
    var s, op := w.y.s, w.y.ch[0];
    StateCoveredHandle(base, logs, resolve, fix, s, op);
    var keys := Merged(s).records.Keys;
    assert keys + {} == keys;
    assert keys + KeyOf(op) + KeysOf(w.y.ch[1..]) == keys + KeysOf(w.y.ch);
  }

  lemma WorldSame(base: map<Bytes, int>, logs: Logs, resolve: Resolver, w: World, s: State)
    requires WorldCovered(base, logs, resolve, w) && StateCovered(base, logs, resolve, s)
    requires Merged(s).records.Keys == Merged(w.y.s).records.Keys
    ensures WorldCovered(base, logs, resolve, w.(y := w.y.(s := s)))
  {
    hide StateCovered, Merged, Ordered, TailCovered;
  }

  lemma WorldFresh(base: map<Bytes, int>, logs: Logs, resolve: Resolver, y: Sys)
    requires StateCovered(base, logs, resolve, y.s) && y.ch == []
    ensures WorldCovered(base, logs, resolve, World(y, map[]))
  {
    hide StateCovered, Merged;
  }

  lemma WorldSend(base: map<Bytes, int>, logs: Logs, resolve: Resolver, w: World, op: Op)
    requires WorldCovered(base, logs, resolve, w)
    requires op.Advance? ==> Covered(base, logs, resolve, Merged(w.y.s).records.Keys + KeysOf(w.y.ch), op.log, op.wm)
    ensures WorldCovered(base, logs, resolve, w.(y := w.y.(ch := w.y.ch + [op], sent := w.y.sent + [op])))
  {
    hide StateCovered, Merged, Covered, TailCovered, Ordered;
    var keys := Merged(w.y.s).records.Keys;
    OrderedAppend(base, logs, resolve, keys, w.y.ch, op);
    KeysOfAppend(w.y.ch, [op]);
    forall id | id in w.tails ensures TailCovered(base, logs, resolve, keys + KeysOf(w.y.ch + [op]), id, w.tails[id]) {
      TailMore(base, logs, resolve, keys + KeysOf(w.y.ch), keys + KeysOf(w.y.ch + [op]), id, w.tails[id]);
    }
  }

  lemma TailMore(base: map<Bytes, int>, logs: Logs, resolve: Resolver, keys: set<Key>, more: set<Key>,
                 id: Bytes, t: Tail)
    requires TailCovered(base, logs, resolve, keys, id, t) && keys <= more
    ensures TailCovered(base, logs, resolve, more, id, t)
  {
    hide Covered, Ordered;
    OrderedMore(base, logs, resolve, keys, more, t.outbox);
    CoveredMore(base, logs, resolve, keys + KeysOf(t.outbox), more + KeysOf(t.outbox), id, t.wm);
  }

  lemma WorldStore(base: map<Bytes, int>, logs: Logs, resolve: Resolver, fix: Repairs, w: World, ev: Event)
    requires Inv(w.y.s) && WorldCovered(base, logs, resolve, w) && !(ev.Send? && ev.op.Advance?)
    ensures WorldCovered(base, logs, resolve, Do(fix, logs, resolve, w, StoreAct(ev)))
  {
    hide StateCovered, Inv, Merged, Handle, Flush, Covered, WorldCovered, Recounted;
    var s := w.y.s;
    WorldState(base, logs, resolve, w);
    match ev
    case Send(op) => WorldSend(base, logs, resolve, w, op);
    case Deliver => if w.y.ch != [] { WorldHandle(base, logs, resolve, fix, w); }
    case Timer =>
      StateCoveredFlush(base, logs, resolve, fix, s);
      PendingIrrelevant(base, logs, resolve, Flush(fix, s), Flush(fix, s).(pending := 0));
      WorldSame(base, logs, resolve, w, Tick(fix, s));
    case Close =>
      PendingIrrelevant(base, logs, resolve, s, s.(closed := true));
      WorldSame(base, logs, resolve, w, s.(closed := true));
    case Stop =>
      StateCoveredFlush(base, logs, resolve, fix, s);
      StateCoveredOpen(base, logs, resolve, Flush(fix, s), {});
      if s.closed { WorldFresh(base, logs, resolve, Step(fix, w.y, ev)); }
    case Crash =>
      StateCoveredOpen(base, logs, resolve, s, {});
      WorldFresh(base, logs, resolve, Step(fix, w.y, ev));
    case CrashInRecount(written) =>
      if Recounting(w.y) {
        var t := s.(history := s.history + [Recount]);
        PendingIrrelevant(base, logs, resolve, s, t);
        InvHistory(s, Recount);
        StateCoveredFlush(base, logs, resolve, fix, t);
        StateCoveredOpen(base, logs, resolve, Flush(fix, t), written * Apexes(Flush(fix, t).db.records));
        WorldFresh(base, logs, resolve, Step(fix, w.y, ev));
      }
  }

  lemma WorldState(base: map<Bytes, int>, logs: Logs, resolve: Resolver, w: World)
    requires WorldCovered(base, logs, resolve, w)
    ensures StateCovered(base, logs, resolve, w.y.s)
  {
  }

  lemma CoversStored(base: map<Bytes, int>, logs: Logs, resolve: Resolver, keys: set<Key>, id: Bytes, wm: int,
                     total: nat, ops: seq<Op>)
    requires TurnOK(logs, resolve, id, wm, total, ops) && Covered(base, logs, resolve, keys, id, wm)
    ensures Covered(base, logs, resolve, keys + KeysOf(ops), id, wm + total)
  {
    hide EntryOps;
    var more := keys + KeysOf(ops);
    CoveredMore(base, logs, resolve, keys, more, id, wm);
    forall i: nat | (if id in base then base[id] else 0) <= i < wm + total ensures Stored(more, logs, resolve, id, i) {
      if i >= wm {
        assert Holds(ops, logs(id), resolve, i);
        forall op | op in EntryOps(resolve, logs(id)(i)) ensures op.Ingest? && op.key in more { KeysOfAll(ops, op); }
      }
    }
  }

  lemma WorldTurn(base: map<Bytes, int>, logs: Logs, resolve: Resolver, fix: Repairs, w: World, id: Bytes,
                  total: nat, ops: seq<Op>, advance: bool)
    requires WorldCovered(base, logs, resolve, w)
    ensures WorldCovered(base, logs, resolve, Do(fix, logs, resolve, w, Turn(id, total, ops, advance)))
  {
    hide StateCovered, Merged, Covered, Ordered, TurnOK, Covers;
    if id in w.tails && w.tails[id].outbox == [] && TurnOK(logs, resolve, id, w.tails[id].wm, total, ops) {
      TailTurned(base, logs, resolve, Merged(w.y.s).records.Keys + KeysOf(w.y.ch),
        id, w.tails[id].wm, total, ops, advance);
    }
  }

  lemma TailTurned(base: map<Bytes, int>, logs: Logs, resolve: Resolver, keys: set<Key>, id: Bytes, wm: int,
                   total: nat, ops: seq<Op>, advance: bool)
    requires TailCovered(base, logs, resolve, keys, id, Tail(wm, [])) && TurnOK(logs, resolve, id, wm, total, ops)
    ensures TailCovered(base, logs, resolve, keys, id,
                        Tail(wm + total, if advance then ops + [Advance(id, wm + total)] else ops))
  {
    hide Covered, Covers;
    assert keys + {} == keys;
    CoversStored(base, logs, resolve, keys, id, wm, total, ops);
    IngestsOrdered(base, logs, resolve, keys, ops);
    OrderedAppend(base, logs, resolve, keys, ops, Advance(id, wm + total));
    KeysOfAppend(ops, [Advance(id, wm + total)]);
    assert KeysOf([Advance(id, wm + total)]) == {} && KeysOf(ops) + {} == KeysOf(ops);
  }

  lemma TailSent(base: map<Bytes, int>, logs: Logs, resolve: Resolver, keys: set<Key>, id: Bytes, t: Tail)
    requires TailCovered(base, logs, resolve, keys, id, t) && t.outbox != []
    ensures t.outbox[0].Advance? ==> Covered(base, logs, resolve, keys, t.outbox[0].log, t.outbox[0].wm)
    ensures TailCovered(base, logs, resolve, keys + KeyOf(t.outbox[0]), id, t.(outbox := t.outbox[1..]))
  {
    hide Covered;
    assert keys + {} == keys;
    assert keys + KeysOf(t.outbox) == keys + KeyOf(t.outbox[0]) + KeysOf(t.outbox[1..]);
  }

  lemma WorldTailSend(base: map<Bytes, int>, logs: Logs, resolve: Resolver, fix: Repairs, w: World, id: Bytes)
    requires WorldCovered(base, logs, resolve, w)
    ensures WorldCovered(base, logs, resolve, Do(fix, logs, resolve, w, TailSend(id)))
  {
    hide StateCovered, Merged, Covered, Ordered, TailCovered;
    if id in w.tails && w.tails[id].outbox != [] {
      var t := w.tails[id];
      var keys, op := Merged(w.y.s).records.Keys + KeysOf(w.y.ch), t.outbox[0];
      TailSent(base, logs, resolve, keys, id, t);
      WorldSend(base, logs, resolve, w, op);
      KeysOfAppend(w.y.ch, [op]);
      assert Merged(w.y.s).records.Keys + KeysOf(w.y.ch + [op]) == keys + KeyOf(op);
    }
  }

  lemma WorldStart(base: map<Bytes, int>, logs: Logs, resolve: Resolver, fix: Repairs, w: World, id: Bytes)
    requires Inv(w.y.s) && WorldCovered(base, logs, resolve, w)
    requires id in base ==> id in w.y.s.db.wms
    ensures WorldCovered(base, logs, resolve, Do(fix, logs, resolve, w, StartTail(id)))
  {
    hide Ordered, RecordsInv;
    if id !in w.tails {
      var s, keys := w.y.s, Merged(w.y.s).records.Keys + KeysOf(w.y.ch);
      DbKeys(s);
      if id in s.db.wms {
        CoveredMore(base, logs, resolve, s.db.records.Keys, keys, id, s.db.wms[id]);
      }
      TailFresh(base, logs, resolve, keys, id, WM(s.db, id));
    }
  }

  lemma DbKeys(s: State)
    requires Inv(s)
    ensures s.db.records.Keys <= Merged(s).records.Keys
  {
  }

  lemma TailFresh(base: map<Bytes, int>, logs: Logs, resolve: Resolver, keys: set<Key>, id: Bytes, wm: int)
    requires Covered(base, logs, resolve, keys, id, wm)
    ensures TailCovered(base, logs, resolve, keys, id, Tail(wm, []))
  {
    hide Covered;
    assert keys + {} == keys;
  }

  // ----- Watermarks never fall

  /** What is pending for a log, or on its way to it, is no lower than what is durable. */
  ghost predicate Rising(s: State) {
    && (forall id :: id in s.pendingWM ==> id in s.wmHigh && s.pendingWM[id] == s.wmHigh[id])
    && (forall id :: id in s.wmHigh ==> id in s.pendingWM || (id in s.db.wms && s.db.wms[id] == s.wmHigh[id]))
    && (forall id :: id in s.pendingWM && id in s.db.wms ==> s.db.wms[id] <= s.pendingWM[id])
  }

  ghost predicate OpRising(s: State, op: Op) {
    op.Advance? ==> op.log in s.wmHigh || op.log !in s.db.wms || s.db.wms[op.log] <= op.wm
  }

  ghost predicate OpsRising(s: State, ops: seq<Op>) { forall i :: 0 <= i < |ops| ==> OpRising(s, ops[i]) }

  ghost predicate WorldRising(w: World) {
    && Rising(w.y.s) && OpsRising(w.y.s, w.y.ch)
    && forall id :: id in w.tails ==>
         OpsRising(w.y.s, w.tails[id].outbox) && OpRising(w.y.s, Advance(id, w.tails[id].wm))
  }

  /** No watermark of a is lower in b, and none is lost. */
  ghost predicate WMGrows(a: DB, b: DB) {
    forall id :: id in a.wms ==> id in b.wms && a.wms[id] <= b.wms[id]
  }

  /** From s to t within an epoch: whatever rises over s rises over t. */
  ghost predicate KeepsRising(s: State, t: State) {
    && s.wmHigh.Keys <= t.wmHigh.Keys
    && forall id :: id !in t.wmHigh ==>
         (id in t.db.wms <==> id in s.db.wms) && (id in t.db.wms ==> t.db.wms[id] == s.db.wms[id])
  }

  lemma OpsKeepRising(s: State, t: State, ops: seq<Op>)
    requires KeepsRising(s, t) && OpsRising(s, ops)
    ensures OpsRising(t, ops)
  {
    forall i | 0 <= i < |ops| ensures OpRising(t, ops[i]) { assert OpRising(s, ops[i]); }
  }

  lemma RisingFlush(fix: Repairs, s: State)
    requires Inv(s) && Rising(s)
    ensures var t := Flush(fix, s); Rising(t) && KeepsRising(s, t) && WMGrows(s.db, t.db)
  {
    hide Inv, Flush, Merged;
    FlushView(fix, s);
  }

  lemma RisingSame(s: State, t: State)
    requires Rising(s) && t.db.wms == s.db.wms && t.pendingWM == s.pendingWM && t.wmHigh == s.wmHigh
    ensures Rising(t) && KeepsRising(s, t) && WMGrows(s.db, t.db)
  {
  }

  lemma RisingAdvance(s: State, log: Bytes, wm: int)
    requires Rising(s) && OpRising(s, Advance(log, wm))
    ensures var t := HandleAdvance(s, log, wm); Rising(t) && KeepsRising(s, t) && WMGrows(s.db, t.db)
  {
  }

  lemma RisingTrans(s: State, t: State, u: State)
    requires KeepsRising(s, t) && WMGrows(s.db, t.db) && KeepsRising(t, u) && WMGrows(t.db, u.db)
    ensures KeepsRising(s, u) && WMGrows(s.db, u.db)
  {
  }

  lemma RisingHandle(fix: Repairs, s: State, op: Op)
    requires Inv(s) && Rising(s) && OpRising(s, op)
    ensures var t := Handle(fix, s, op); Rising(t) && KeepsRising(s, t) && WMGrows(s.db, t.db)
  {
    hide Inv, Rising, KeepsRising, WMGrows, Flush, Apply, Recounted;
    var t := s.(history := s.history + [op]);
    InvHistory(s, op);
    RisingSame(s, t);
    match op
    case Ingest(k, firstSeen, source) =>
      var u := Counted(Apply(fix, t, k, firstSeen, source));
      ApplyFrame(fix, t, k, firstSeen, source);
      InvApply(fix, t, k, firstSeen, source);
      RisingSame(t, u);
      RisingTrans(s, t, u);
      RisingFlush(fix, u);
      RisingTrans(s, u, Flush(fix, u));
      RisingSame(Flush(fix, u), Flush(fix, u).(pending := 0));
      RisingTrans(s, Flush(fix, u), Flush(fix, u).(pending := 0));
    case Advance(log, wm) =>
      RisingAdvance(t, log, wm);
      RisingTrans(s, t, HandleAdvance(t, log, wm));
    case Recount =>
      RisingFlush(fix, t);
      RisingTrans(s, t, Flush(fix, t));
      RecountedKeeps(Flush(fix, t).db, Apexes(Flush(fix, t).db.records));
      RisingSame(Flush(fix, t), HandleRecount(fix, t));
      RisingTrans(s, Flush(fix, t), HandleRecount(fix, t));
  }

  lemma RisingOpen(db: DB)
    ensures Rising(Open(db))
  {
  }

  lemma RisingStore(fix: Repairs, w: World, ev: Event)
    requires Inv(w.y.s) && WorldRising(w) && !(ev.Send? && ev.op.Advance?)
    ensures WorldRising(World(Step(fix, w.y, ev), if EndsEpoch(w.y, ev) then map[] else w.tails))
    ensures WMGrows(w.y.s.db, Step(fix, w.y, ev).s.db)
  {
    hide Inv, Rising, KeepsRising, WMGrows, Flush, Handle, Recounted, OpRising, Open;
    var y, s := w.y, w.y.s;
    RisingSame(s, s);
    match ev
    case Send(op) => NotAdvance(s, op);
    case Deliver =>
      if y.ch != [] {
        RisingHandle(fix, s, y.ch[0]);
        RisingWithin(w, Handle(fix, s, y.ch[0]), y.ch[1..]);
      }
    case Timer =>
      RisingFlush(fix, s);
      RisingSame(Flush(fix, s), Flush(fix, s).(pending := 0));
      RisingTrans(s, Flush(fix, s), Flush(fix, s).(pending := 0));
      RisingWithin(w, Tick(fix, s), y.ch);
    case Close =>
      RisingSame(s, s.(closed := true));
      RisingWithin(w, s.(closed := true), y.ch);
    case Stop =>
      RisingFlush(fix, s);
      RisingReopen(Flush(fix, s).db);
    case Crash => RisingReopen(s.db);
    case CrashInRecount(written) =>
      if Recounting(y) {
        var t := s.(history := s.history + [Recount]);
        InvHistory(s, Recount);
        RisingSame(s, t);
        RisingFlush(fix, t);
        RisingTrans(s, t, Flush(fix, t));
        var db := Recounted(Flush(fix, t).db, written * Apexes(Flush(fix, t).db.records));
        RecountedKeeps(Flush(fix, t).db, written * Apexes(Flush(fix, t).db.records));
        WMSame(s.db, Flush(fix, t).db, db);
        RisingReopen(db);
      }
  }

  lemma NotAdvance(s: State, op: Op)
    requires !op.Advance?
    ensures OpRising(s, op)
  {
  }

  lemma WMSame(a: DB, b: DB, c: DB)
    requires WMGrows(a, b) && c.wms == b.wms
    ensures WMGrows(a, c)
  {
  }

  lemma RisingReopen(db: DB)
    ensures Rising(Open(db)) && Open(db).db == db
  {
    RisingOpen(db);
  }

  lemma RisingWithin(w: World, t: State, ch: seq<Op>)
    requires WorldRising(w) && Rising(t) && KeepsRising(w.y.s, t)
    requires forall op :: op in ch ==> op in w.y.ch
    ensures WorldRising(w.(y := w.y.(s := t, ch := ch)))
  {
    hide Rising, KeepsRising, OpRising;
    OpsKeepRising(w.y.s, t, w.y.ch);
    forall i | 0 <= i < |ch| ensures OpRising(t, ch[i]) {
      assert ch[i] in w.y.ch;
    }
    forall id | id in w.tails ensures OpsRising(t, w.tails[id].outbox) && OpRising(t, Advance(id, w.tails[id].wm)) {
      OpsKeepRising(w.y.s, t, w.tails[id].outbox);
      OpsKeepRising(w.y.s, t, [Advance(id, w.tails[id].wm)]);
      assert OpRising(t, [Advance(id, w.tails[id].wm)][0]);
    }
  }

  lemma RisingMore(s: State, id: Bytes, wm: int, more: int)
    requires OpRising(s, Advance(id, wm)) && wm <= more
    ensures OpRising(s, Advance(id, more))
  {
  }

  lemma RisingTail(fix: Repairs, logs: Logs, resolve: Resolver, w: World, act: Act)
    requires WorldRising(w) && !act.StoreAct?
    ensures WorldRising(Do(fix, logs, resolve, w, act)) && Do(fix, logs, resolve, w, act).y.s == w.y.s
  {
    hide Rising, OpRising, Covers;
    match act
    case StartTail(id) => StartRising(w.y.s, id);
    case Turn(id, total, ops, advance) =>
      if id in w.tails && w.tails[id].outbox == [] && TurnOK(logs, resolve, id, w.tails[id].wm, total, ops) {
        RisingMore(w.y.s, id, w.tails[id].wm, w.tails[id].wm + total);
        forall i | 0 <= i < |ops| ensures OpRising(w.y.s, ops[i]) {
          assert ops[i] in ops;
          NotAdvance(w.y.s, ops[i]);
        }
      }
    case TailSend(id) =>
  }

  lemma StartRising(s: State, id: Bytes)
    ensures OpRising(s, Advance(id, WM(s.db, id)))
  {
  }

  // ----- The theorems

  ghost predicate WorldInv(base: map<Bytes, int>, logs: Logs, resolve: Resolver, w: World) {
    Inv(w.y.s) && WorldCovered(base, logs, resolve, w) && WorldRising(w) && base.Keys <= w.y.s.db.wms.Keys
  }

  lemma WorldStep(base: map<Bytes, int>, logs: Logs, resolve: Resolver, fix: Repairs, w: World, act: Act)
    requires WorldInv(base, logs, resolve, w)
    ensures var v := Do(fix, logs, resolve, w, act);
            WorldInv(base, logs, resolve, v) && WMGrows(w.y.s.db, v.y.s.db)
  {
    hide Inv, WorldCovered, WorldRising, Step, TurnOK;
    match act
    case StoreAct(ev) =>
      if !(ev.Send? && ev.op.Advance?) {
        StepInv(fix, w.y, ev);
        WorldStore(base, logs, resolve, fix, w, ev);
        RisingStore(fix, w, ev);
      }
    case StartTail(id) =>
      WorldStart(base, logs, resolve, fix, w, id);
      RisingTail(fix, logs, resolve, w, act);
    case Turn(id, total, ops, advance) =>
      WorldTurn(base, logs, resolve, fix, w, id, total, ops, advance);
      RisingTail(fix, logs, resolve, w, act);
    case TailSend(id) =>
      WorldTailSend(base, logs, resolve, fix, w, id);
      RisingTail(fix, logs, resolve, w, act);
  }

  lemma WMGrowsTransitive(a: DB, b: DB, c: DB)
    requires WMGrows(a, b) && WMGrows(b, c)
    ensures WMGrows(a, c)
  {
  }

  lemma {:induction false} PlayInv(base: map<Bytes, int>, logs: Logs, resolve: Resolver, fix: Repairs,
                                   w: World, acts: seq<Act>)
    requires WorldInv(base, logs, resolve, w)
    ensures var v := Play(fix, logs, resolve, w, acts);
            WorldInv(base, logs, resolve, v) && WMGrows(w.y.s.db, v.y.s.db)
    decreases |acts|
  {
    hide WorldInv, Do, WMGrows;
    if acts == [] {
      WMSelf(w.y.s.db);
    } else {
      var n := |acts| - 1;
      var u := Play(fix, logs, resolve, w, acts[..n]);
      PlayInv(base, logs, resolve, fix, w, acts[..n]);
      WorldStep(base, logs, resolve, fix, u, acts[n]);
      WMGrowsTransitive(w.y.s.db, u.y.s.db, Do(fix, logs, resolve, u, acts[n]).y.s.db);
    }
  }

  lemma WMSelf(db: DB)
    ensures WMGrows(db, db)
  {
  }

  lemma BootCovered(logs: Logs, resolve: Resolver, db: DB)
    requires ValidDB(db)
    ensures WorldInv(db.wms, logs, resolve, World(Boot(db), map[]))
  {
    hide ValidDB, Stored, Inv;
    InvOpen(db);
    RisingOpen(db);
    forall id | id in db.wms ensures Covered(db.wms, logs, resolve, db.records.Keys, id, db.wms[id]) { }
    WorldFresh(db.wms, logs, resolve, Boot(db));
  }

  /** In every reachable database the watermark of a log covers, from its first value
      on, every record of every entry below it. */
  lemma {:induction false} WatermarkCovers(fix: Repairs, logs: Logs, resolve: Resolver, db: DB, acts: seq<Act>)
    requires ValidDB(db)
    ensures var d := Play(fix, logs, resolve, World(Boot(db), map[]), acts).y.s.db;
            forall id :: id in d.wms ==> Covered(db.wms, logs, resolve, d.records.Keys, id, d.wms[id])
  {
    hide ValidDB, Covered, Play, Inv, Ordered, WorldRising;
    BootCovered(logs, resolve, db);
    PlayInv(db.wms, logs, resolve, fix, World(Boot(db), map[]), acts);
  }

  /** In names: every name of every decodable, dated entry between the first watermark and
      the stored one that resolves to a key has its record in the database. */
  lemma {:induction false} NamesAreStored(fix: Repairs, logs: Logs, resolve: Resolver, db: DB, acts: seq<Act>,
                                          id: Bytes, i: nat, n: Bytes, k: Key)
    requires ValidDB(db)
    requires var d := Play(fix, logs, resolve, World(Boot(db), map[]), acts).y.s.db;
             id in d.wms && (if id in db.wms then db.wms[id] else 0) <= i < d.wms[id]
    requires var e := logs(id)(i);
             && e.Decoded? && e.timestamp >= 0
             && (e.timestamp > 0 || exists j :: 0 <= j < |e.scts| && e.scts[j] > 0)
             && n in e.names && resolve(n) == Some(k)
    ensures k in Play(fix, logs, resolve, World(Boot(db), map[]), acts).y.s.db.records
  {
    hide ValidDB, Play;
    WatermarkCovers(fix, logs, resolve, db, acts);
    var d, e := Play(fix, logs, resolve, World(Boot(db), map[]), acts).y.s.db, logs(id)(i);
    EntryStandsFor(resolve, e, Ingest(k, DateOf(e.timestamp, e.scts), 1));
    assert Stored(d.records.Keys, logs, resolve, id, i);
  }

  lemma PlayAppend(fix: Repairs, logs: Logs, resolve: Resolver, w: World, first: seq<Act>, later: seq<Act>)
    ensures Play(fix, logs, resolve, w, first + later) ==
            Play(fix, logs, resolve, Play(fix, logs, resolve, w, first), later)
    decreases |later|
  {
    hide Do;
    if later == [] {
      assert first + later == first;
    } else {
      var n := |later| - 1;
      PlayAppend(fix, logs, resolve, w, first, later[..n]);
      assert (first + later)[..|first + later| - 1] == first + later[..n];
    }
  }

  /** A durable watermark never falls, although every restart begins with an empty
      high-water cache. */
  lemma WatermarksNeverFall(fix: Repairs, logs: Logs, resolve: Resolver, db: DB, first: seq<Act>, later: seq<Act>)
    requires ValidDB(db)
    ensures var w := World(Boot(db), map[]);
            WMGrows(Play(fix, logs, resolve, w, first).y.s.db, Play(fix, logs, resolve, w, first + later).y.s.db)
  {
    hide ValidDB, WorldInv, Play, WMGrows;
    var w := World(Boot(db), map[]);
    BootCovered(logs, resolve, db);
    PlayInv(db.wms, logs, resolve, fix, w, first);
    PlayAppend(fix, logs, resolve, w, first, later);
    PlayInv(db.wms, logs, resolve, fix, Play(fix, logs, resolve, w, first), later);
  }
}
