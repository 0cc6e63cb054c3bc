/** internal/tailer/tailer.go: fetching a range of a log in verified windows and
    turning its entries into store operations. */
module Tailer {
  import opened ByteStrings
  import opened StoreModel
  import Merkle

  /** What a leaf input decodes to, as far as the tailer looks at it. */
  datatype Entry = Undecodable | Decoded(timestamp: int, scts: seq<int>, names: seq<Bytes>)

  /** apex.Canonical followed by apex.ApexOf: left uninterpreted. */
  type Resolver = Bytes -> Option<Key>

  type Log = nat -> Entry

  const SourceCT: byte := 1

  /** The date of an entry: its timestamp, or an earlier positive SCT timestamp. */
  function DateOf(timestamp: int, scts: seq<int>): int {
    if scts == [] then timestamp
    else
      var fs, s := DateOf(timestamp, scts[..|scts| - 1]), scts[|scts| - 1];
      if s > 0 && (fs == 0 || s < fs) then s else fs
  }

  /** For a timestamp that is not negative the date is the least positive one of all,
      or zero if there is none; a negative timestamp makes the entry be skipped. */
  lemma {:induction false} DateIsEarliest(timestamp: int, scts: seq<int>)
    ensures var d := DateOf(timestamp, scts);
            if timestamp < 0 then d == timestamp
            else
              && d >= 0
              && (d == 0 <==> timestamp == 0 && forall i :: 0 <= i < |scts| ==> scts[i] <= 0)
              && (d > 0 ==> (d == timestamp || d in scts))
              && (timestamp > 0 ==> d <= timestamp)
              && (forall i :: 0 <= i < |scts| && scts[i] > 0 ==> d <= scts[i])
    decreases |scts|
  {
    if scts != [] {
      var n := |scts| - 1;
      DateIsEarliest(timestamp, scts[..n]);
      assert scts == scts[..n] + [scts[n]];
    }
  }

  /** The records for some names with one date. */
  function NameOps(resolve: Resolver, date: int, names: seq<Bytes>): seq<Op> {
    if names == [] then []
    else
      var rest := NameOps(resolve, date, names[..|names| - 1]);
      match resolve(names[|names| - 1])
      case Some(k) => rest + [Ingest(k, date, SourceCT)]
      case None => rest
  }

  /** The records an entry stands for: none if it is undecodable or undated. */
  function EntryOps(resolve: Resolver, e: Entry): seq<Op> {
    match e
    case Undecodable => []
    case Decoded(timestamp, scts, names) =>
      var date := DateOf(timestamp, scts);
      if date <= 0 then [] else NameOps(resolve, date, names)
  }

  ghost predicate AllIngest(ops: seq<Op>) { forall op :: op in ops ==> op.Ingest? }

  /** Every record of entry i is among these operations. */
  ghost predicate Holds(ops: seq<Op>, log: Log, resolve: Resolver, i: nat) {
    forall op :: op in EntryOps(resolve, log(i)) ==> op in ops
  }

  /** Every record of every entry from lo up to hi is among these operations. */
  ghost predicate Covers(ops: seq<Op>, log: Log, resolve: Resolver, lo: nat, hi: int) {
    forall i: nat :: lo <= i < hi ==> Holds(ops, log, resolve, i)
  }

  /** Every operation is a record of some entry from lo up to hi. */
  ghost predicate OnlyFrom(ops: seq<Op>, log: Log, resolve: Resolver, lo: nat, hi: nat) {
    forall op :: op in ops ==> exists i: nat :: lo <= i < hi && op in EntryOps(resolve, log(i))
  }

  lemma {:induction false} NameOpsIngest(resolve: Resolver, date: int, names: seq<Bytes>)
    ensures AllIngest(NameOps(resolve, date, names))
    decreases |names|
  {
    if names != [] {
      NameOpsIngest(resolve, date, names[..|names| - 1]);
    }
  }

  /** An inclusion proof as the log returns it. */
  datatype Proof = Proof(leafIndex: int, auditPath: seq<Bytes>)

  /** What the world answers in one iteration of fetchRange. */
  datatype Response = Response(
    cancelled: bool,        // ctx.Err() != nil
    fetched: Option<nat>,   // how many entries the log returned, unless it failed
    draw: nat,              // the random number behind the entry to be checked
    accepted: nat)          // how many Ingest calls succeed before the store is closed

  datatype Outcome = Complete | Cancelled | FetchFailed | NoEntries | SpotCheckFailed | IngestFailed

  /** The places of the names that resolve, in order. */
  ghost predicate Picks(resolve: Resolver, names: seq<Bytes>, idx: seq<nat>) {
    && (forall i, j :: 0 <= i < j < |idx| ==> idx[i] < idx[j])
    && (forall i: nat :: i in idx <==> i < |names| && resolve(names[i]).Some?)
  }

  /** One operation per place: the key its name resolves to, the date, source 1. */
  ghost predicate OpsFor(resolve: Resolver, date: int, names: seq<Bytes>, idx: seq<nat>, ops: seq<Op>)
    requires Picks(resolve, names, idx) && |ops| <= |idx|
  {
    forall j :: 0 <= j < |ops| ==> idx[j] in idx && ops[j] == Ingest(resolve(names[idx[j]]).value, date, 1)
  }

  lemma {:induction false} NameOpsAre(resolve: Resolver, date: int, names: seq<Bytes>) returns (idx: seq<nat>)
    ensures Picks(resolve, names, idx) && |idx| == |NameOps(resolve, date, names)|
    ensures OpsFor(resolve, date, names, idx, NameOps(resolve, date, names))
    decreases |names|
  {
    idx := [];
    if names != [] {
      var n := |names| - 1;
      idx := NameOpsAre(resolve, date, names[..n]);
      assert forall i :: 0 <= i < |idx| ==> idx[i] in idx;
      if resolve(names[n]).Some? { idx := idx + [n]; }
    }
  }

  /** Sends the records of one decoded entry: one for each name that resolves, in the order
      of the names, as many as the store accepts; `ok` is false once it refuses. */
  method IngestNames(resolve: Resolver, date: int, names: seq<Bytes>, budget: nat)
    returns (ops: seq<Op>, left: nat, ok: bool)
    ensures exists idx ::
              && Picks(resolve, names, idx) && (ok <==> |idx| <= budget)
              && |ops| == (if ok then |idx| else budget) && OpsFor(resolve, date, names, idx, ops)
    ensures ops <= NameOps(resolve, date, names) && (ok <==> |NameOps(resolve, date, names)| <= budget)
    ensures ok ==> ops == NameOps(resolve, date, names)
    ensures left == budget - |ops|
  {
    ops, left, ok := [], budget, true;
    ghost var idx := NameOpsAre(resolve, date, names);
    for j := 0 to |names|
      invariant ops == NameOps(resolve, date, names[..j]) && left == budget - |ops|
    {
      assert names[..j + 1][..j] == names[..j];
      var c := resolve(names[j]);
      if c == None { continue; }
      if left == 0 {
        NameOpsPrefix(resolve, date, names, j + 1);
        return ops, left, false;
      }
      ops := ops + [Ingest(c.value, date, SourceCT)];
      left := left - 1;
    }
    assert names[..|names|] == names;
  }

  lemma {:induction false} NameOpsPrefix(resolve: Resolver, date: int, names: seq<Bytes>, j: nat)
    requires j <= |names|
    ensures NameOps(resolve, date, names[..j]) <= NameOps(resolve, date, names)
    decreases |names|
  {
    if j < |names| {
      NameOpsPrefix(resolve, date, names[..|names| - 1], j);
      assert names[..|names| - 1][..j] == names[..j];
    } else {
      assert names[..j] == names;
    }
  }

  /** A decodable entry with a positive date: its own timestamp, or without one some SCT's. */
  ghost predicate Dated(e: Entry) {
    e.Decoded? && e.timestamp >= 0 &&
    (e.timestamp > 0 || exists j :: 0 <= j < |e.scts| && e.scts[j] > 0)
  }

  /** What an entry stands for: a record for every name of a dated entry that resolves. */
  lemma EntryStandsFor(resolve: Resolver, e: Entry, op: Op)
    ensures op in EntryOps(resolve, e) <==>
            Dated(e) && exists n :: n in e.names && resolve(n).Some? &&
                                    op == Ingest(resolve(n).value, DateOf(e.timestamp, e.scts), 1)
  {
    if e.Decoded? {
      DateIsEarliest(e.timestamp, e.scts);
      var date := DateOf(e.timestamp, e.scts);
      if date > 0 { OpOfName(resolve, date, e.names, op); }
    }
  }

  lemma {:induction false} OpOfName(resolve: Resolver, date: int, names: seq<Bytes>, op: Op)
    ensures op in NameOps(resolve, date, names) <==>
            exists n :: n in names && resolve(n).Some? && op == Ingest(resolve(n).value, date, 1)
    decreases |names|
  {
    if names != [] {
      var m := |names| - 1;
      OpOfName(resolve, date, names[..m], op);
      assert names == names[..m] + [names[m]];
    }
  }

  /** The running date of the SCT loop. */
  method EarliestDate(timestamp: int, scts: seq<int>) returns (fs: int)
    ensures fs == DateOf(timestamp, scts)
  {
    fs := timestamp;
    for j := 0 to |scts|
      invariant fs == DateOf(timestamp, scts[..j])
    {
      assert scts[..j + 1][..j] == scts[..j];
      var s := scts[j];
      if s > 0 && (fs == 0 || s < fs) {
        fs := s;
      }
    }
    assert scts[..|scts|] == scts;
  }

  /** The records of a window of entries, in order. */
  function WindowOps(log: Log, resolve: Resolver, pos: nat, count: nat): seq<Op> {
    if count == 0 then [] else WindowOps(log, resolve, pos, count - 1) + EntryOps(resolve, log(pos + count - 1))
  }

  /** One window of entries starting at pos: all their records are sent, in order, or as
      many of them as the store accepts. */
  method IngestWindow(log: Log, resolve: Resolver, pos: nat, count: nat, budget: nat)
    returns (ops: seq<Op>, skipped: nat, ok: bool)
    ensures var all := WindowOps(log, resolve, pos, count);
            && (ok <==> |all| <= budget)
            && |ops| == (if ok then |all| else budget) && ops <= all
    ensures AllIngest(ops) && OnlyFrom(ops, log, resolve, pos, pos + count) && skipped <= count
    ensures ok ==> Covers(ops, log, resolve, pos, pos + count)
  {
    hide Holds, OnlyFrom, AllIngest, Covers, EntryOps, NameOps, WindowOps, DateOf, Picks, OpsFor;
    ops, skipped, ok := [], 0, true;
    var left := budget;
    ghost var all := WindowOps(log, resolve, pos, count);
    WindowHolds(log, resolve, pos, count);
    WindowNone(log, resolve, pos);
    for j := 0 to count
      invariant ops == WindowOps(log, resolve, pos, j) && left == budget - |ops| && skipped <= j && ok
    {
      ghost var before := ops;
      WindowPrefix(log, resolve, pos, j + 1, count);
      WindowOne(log, resolve, pos, j);
      EntryOpsIs(resolve, log(pos + j));
      match log(pos + j) {
        case Undecodable =>
          skipped := skipped + 1;
        case Decoded(timestamp, scts, names) =>
          var fs := EarliestDate(timestamp, scts);
          if fs <= 0 {
            skipped := skipped + 1;
          } else {
            var more;
            more, left, ok := IngestNames(resolve, fs, names, left);
            ops := ops + more;
            if !ok {
              PrefixFrom(all, ops, log, resolve, pos, pos + count);
              return;
            }
          }
      }
      assert ops == before + EntryOps(resolve, log(pos + j));
    }
  }

  lemma WindowNone(log: Log, resolve: Resolver, pos: nat)
    ensures WindowOps(log, resolve, pos, 0) == []
  {
  }

  lemma WindowOne(log: Log, resolve: Resolver, pos: nat, j: nat)
    ensures WindowOps(log, resolve, pos, j + 1) == WindowOps(log, resolve, pos, j) + EntryOps(resolve, log(pos + j))
  {
    hide EntryOps;
  }

  lemma EntryOpsIs(resolve: Resolver, e: Entry)
    ensures EntryOps(resolve, e) ==
            if e.Decoded? && DateOf(e.timestamp, e.scts) > 0 then NameOps(resolve, DateOf(e.timestamp, e.scts), e.names)
            else []
  {
  }

  lemma {:induction false} WindowPrefix(log: Log, resolve: Resolver, pos: nat, j: nat, count: nat)
    requires j <= count
    ensures WindowOps(log, resolve, pos, j) <= WindowOps(log, resolve, pos, count)
    decreases count
  {
    if j < count { WindowPrefix(log, resolve, pos, j, count - 1); }
  }

  /** Part of a window's records. */
  lemma PrefixFrom(all: seq<Op>, ops: seq<Op>, log: Log, resolve: Resolver, lo: nat, hi: nat)
    requires ops <= all && AllIngest(all) && OnlyFrom(all, log, resolve, lo, hi)
    ensures AllIngest(ops) && OnlyFrom(ops, log, resolve, lo, hi)
  {
    hide EntryOps;
    forall op | op in ops ensures op in all { var i :| 0 <= i < |ops| && ops[i] == op; assert all[i] == op; }
  }

  lemma {:induction false} WindowHolds(log: Log, resolve: Resolver, pos: nat, count: nat)
    ensures var all := WindowOps(log, resolve, pos, count);
            && AllIngest(all) && OnlyFrom(all, log, resolve, pos, pos + count)
            && Covers(all, log, resolve, pos, pos + count)
    decreases count
  {
    hide EntryOps, Holds;
    if count > 0 {
      var some, more := WindowOps(log, resolve, pos, count - 1), EntryOps(resolve, log(pos + count - 1));
      WindowHolds(log, resolve, pos, count - 1);
      EntryHolds(log, resolve, pos + count - 1);
      CoversJoin(log, resolve, some, more, pos, pos + count - 1, pos + count);
      forall op: Op | op in some + more
        ensures op.Ingest? && exists i: nat :: pos <= i < pos + count && op in EntryOps(resolve, log(i))
      {
        if op !in some { assert op in EntryOps(resolve, log(pos + count - 1)); }
      }
    }
  }

  lemma EntryHolds(log: Log, resolve: Resolver, i: nat)
    ensures AllIngest(EntryOps(resolve, log(i))) && Holds(EntryOps(resolve, log(i)), log, resolve, i)
  {
    match log(i)
    case Undecodable =>
    case Decoded(timestamp, scts, names) => NameOpsIngest(resolve, DateOf(timestamp, scts), names);
  }

  lemma CoversJoin(log: Log, resolve: Resolver, ops: seq<Op>, more: seq<Op>, lo: nat, mid: nat, hi: int)
    requires Covers(ops, log, resolve, lo, mid) && Covers(more, log, resolve, mid, hi)
    ensures Covers(ops + more, log, resolve, lo, hi)
  {
    hide EntryOps;
    forall i: nat | lo <= i < hi ensures Holds(ops + more, log, resolve, i) {
      if i < mid { assert Holds(ops, log, resolve, i); } else { assert Holds(more, log, resolve, i); }
    }
  }

  // ----- The spot check

  /** The proof offered for a leaf verifies against the signed head. */
  ghost predicate Proven(src: Source, leafInput: Bytes, proof: Option<Proof>) {
    proof.Some? &&
    Merkle.Judge(src.H, Merkle.LeafHash(src.H, leafInput), proof.value.leafIndex, src.treeSize,
                 proof.value.auditPath, src.root) == Merkle.Accepted
  }

  /** Verifies one entry of a batch against the signed root; the index is the log's. */
  method SpotCheck(src: Source, leafInput: Bytes, proof: Option<Proof>) returns (ok: bool)
    ensures ok <==> Proven(src, leafInput, proof)
  {
    if proof == None { return false; }
    var p, leafHash := proof.value, Merkle.LeafHash(src.H, leafInput);
    var verdict := Merkle.VerifyInclusion(src.H, leafHash, p.leafIndex, src.treeSize, p.auditPath, src.root);
    ok := verdict == Merkle.Accepted;
  }

  /** The inputs hashed in checking one leaf. */
  ghost function CheckInputs(H: Merkle.Hash, leafInput: Bytes, p: Proof, treeSize: nat): set<Bytes>
    requires 0 <= p.leafIndex < treeSize && |p.auditPath| >= |Merkle.Turns(p.leafIndex, treeSize)|
  {
    {Merkle.LeafInput(leafInput)} +
    Merkle.VerifierInputs(H, Merkle.LeafHash(H, leafInput), p.leafIndex, treeSize, p.auditPath)
  }

  /** An entry that passes against the root of D is in D, or the check and the tree
      have hashed two different inputs to the same digest. */
  lemma {:induction false} SpotCheckSound(H: Merkle.Hash, D: seq<Bytes>, leafInput: Bytes, p: Proof)
    requires |D| > 0
    requires Merkle.Judge(H, Merkle.LeafHash(H, leafInput), p.leafIndex, |D|, p.auditPath, Merkle.MTH(H, D))
             == Merkle.Accepted
    ensures 0 <= p.leafIndex < |D| && |p.auditPath| >= |Merkle.Turns(p.leafIndex, |D|)|
    ensures D[p.leafIndex] == leafInput ||
            Merkle.Collide(H, Merkle.TreeInputs(H, D), CheckInputs(H, leafInput, p, |D|))
  {
    hide Merkle.VerifierInputs, Merkle.TreeInputs;
    var h := Merkle.LeafHash(H, leafInput);
    Merkle.Soundness(H, D, h, p.leafIndex, p.auditPath);
    Merkle.LeafInTree(H, D, p.leafIndex);
    assert Merkle.LeafInput(leafInput)[1..] == leafInput && Merkle.LeafInput(D[p.leafIndex])[1..] == D[p.leafIndex];
  }

  // ----- Fetching a range

  /** A log as one call of fetchRange sees it: the signed head, the leaf inputs it
      serves, what they decode to (DecodeLeafEntry, left uninterpreted), and its answers:
      to the request of an iteration for the entries from one index to another, and to a
      request for a proof by leaf hash and tree size. */
  datatype Source = Source(
    H: Merkle.Hash,
    root: Bytes,
    treeSize: int,
    leaves: nat -> Bytes,
    decode: Bytes -> Entry,
    env: (nat, int, int) -> Response,
    proofs: (nat, Bytes, int) -> Option<Proof>)
  {
    function Entries(): Log { (i: nat) => decode(leaves(i)) }
  }

  /** One call of fetchRange. */
  datatype Fetch = Fetch(src: Source, from: nat, to: nat, window: nat)

  /** What iteration `it`, starting at pos, is answered: it asks for a window of entries,
      cut at the end of the range. */
  function Reply(f: Fetch, pos: nat, it: nat): Response {
    f.src.env(it, pos, if pos + f.window > f.to then f.to - 1 else pos + f.window - 1)
  }

  /** The request begins at the position and ends a window later, or with the range. */
  lemma RequestIs(f: Fetch, pos: nat, it: nat)
    ensures pos + f.window <= f.to ==> Reply(f, pos, it) == f.src.env(it, pos, pos + f.window - 1)
    ensures pos + f.window > f.to ==> Reply(f, pos, it) == f.src.env(it, pos, f.to - 1)
  {
  }

  function Got(r: Response): nat { if r.fetched.Some? then r.fetched.value else 0 }

  /** Where iteration `it` starts when all earlier ones went through. */
  function PosAt(f: Fetch, it: nat): nat {
    if it == 0 then f.from
    else
      var pos := PosAt(f, it - 1);
      var end := pos + Got(Reply(f, pos, it - 1));
      if end > f.to then f.to else end
  }

  function ReplyAt(f: Fetch, it: nat): Response { Reply(f, PosAt(f, it), it) }

  function Fetched(f: Fetch, it: nat): nat { Got(ReplyAt(f, it)) }

  /** The entry of the batch that the spot check draws. */
  function PickAt(f: Fetch, it: nat): nat
    requires Fetched(f, it) > 0
  {
    PosAt(f, it) + ReplyAt(f, it).draw % Fetched(f, it)
  }

  /** The answer to the request for that entry's proof. */
  function ProofAt(f: Fetch, it: nat): Option<Proof>
    requires Fetched(f, it) > 0
  {
    f.src.proofs(it, f.src.H([0x00] + f.src.leaves(PickAt(f, it))), f.src.treeSize)
  }

  /** The batch was fetched and the entry drawn from it was proven. */
  ghost predicate Passed(f: Fetch, it: nat) {
    !ReplyAt(f, it).cancelled && Fetched(f, it) > 0 && Proven(f.src, f.src.leaves(PickAt(f, it)), ProofAt(f, it))
  }

  /** The records of the batch of iteration `it`. */
  function BatchOps(f: Fetch, resolve: Resolver, it: nat): seq<Op> {
    WindowOps(f.src.Entries(), resolve, PosAt(f, it), Fetched(f, it))
  }

  /** The records of the first batches. */
  function OpsBefore(f: Fetch, resolve: Resolver, it: nat): seq<Op> {
    if it == 0 then [] else OpsBefore(f, resolve, it - 1) + BatchOps(f, resolve, it - 1)
  }

  /** Why the loop ends in iteration `it`, if it does. */
  ghost function Ends(f: Fetch, resolve: Resolver, it: nat): Option<Outcome> {
    var r := ReplyAt(f, it);
    if PosAt(f, it) >= f.to then Some(Complete)
    else if r.cancelled then Some(Cancelled)
    else if r.fetched == None then Some(FetchFailed)
    else if r.fetched.value == 0 then Some(NoEntries)
    else if !Passed(f, it) then Some(SpotCheckFailed)
    else if |BatchOps(f, resolve, it)| > r.accepted then Some(IngestFailed)
    else None
  }

  /** The loop went through the first `it` batches and ended there, having sent the records
      of those, and of the next batch as many as were accepted before the store refused. */
  ghost predicate EndedAt(f: Fetch, resolve: Resolver, it: nat, total: nat, ops: seq<Op>, outcome: Outcome) {
    && (forall j :: 0 <= j < it ==> Ends(f, resolve, j) == None)
    && Ends(f, resolve, it) == Some(outcome)
    && f.from + total == PosAt(f, it)
    && OpsBefore(f, resolve, it) <= ops
    && var last := ops[|OpsBefore(f, resolve, it)|..];
       if outcome == IngestFailed then last <= BatchOps(f, resolve, it) && |last| == ReplyAt(f, it).accepted
       else last == []
  }

  /** The operation comes from an entry of the batch of iteration `it`, which passed. */
  ghost predicate FromBatch(op: Op, f: Fetch, resolve: Resolver, it: nat) {
    Passed(f, it) && op in BatchOps(f, resolve, it)
  }

  /** Only entries of batches whose spot check passed are sent to the store. */
  ghost predicate OnlyVerified(ops: seq<Op>, f: Fetch, resolve: Resolver) {
    forall op :: op in ops ==> exists it :: FromBatch(op, f, resolve, it)
  }

  /** The whole loop; `total` counts the entries that were fetched, belonged to a batch
      that passed its spot check, and were ingested in full. */
  method FetchRange(f: Fetch, resolve: Resolver) returns (total: nat, ops: seq<Op>, outcome: Outcome)
    requires f.window >= 1
    ensures if f.from < f.to then total <= f.to - f.from else total == 0
    ensures exists it :: EndedAt(f, resolve, it, total, ops, outcome)
    ensures AllIngest(ops) && OnlyVerified(ops, f, resolve)
    ensures Covers(ops, f.src.Entries(), resolve, f.from, f.from + total)
  {
    hide Holds, Covers, OnlyFrom, OnlyVerified, AllIngest, EntryOps, Proven, Passed, PosAt, WindowOps, EndedAt, Ends;
    NothingFetched(f, resolve);
    total, ops, outcome := 0, [], Complete;
    var pos, iter: nat := f.from, 0;
    while pos < f.to
      invariant pos == f.from + total && (pos <= f.to || total == 0)
      invariant pos == PosAt(f, iter) && forall j :: 0 <= j < iter ==> Ends(f, resolve, j) == None
      invariant ops == OpsBefore(f, resolve, iter) && AllIngest(ops) && OnlyVerified(ops, f, resolve)
      invariant Covers(ops, f.src.Entries(), resolve, f.from, pos)
      decreases if pos < f.to then f.to - pos else 0
    {
      var end := if pos + f.window - 1 > f.to - 1 then f.to - 1 else pos + f.window - 1;
      assert pos <= end < f.to;   // the range asked of the log is never empty
      var r := f.src.env(iter, pos, end);
      assert r == ReplyAt(f, iter);
      if r.cancelled {
        EndsHere(f, resolve, iter, total, ops, Cancelled);
        return total, ops, Cancelled;
      }
      if r.fetched == None {
        EndsHere(f, resolve, iter, total, ops, FetchFailed);
        return total, ops, FetchFailed;
      }
      var count := r.fetched.value;
      if count == 0 {
        EndsHere(f, resolve, iter, total, ops, NoEntries);
        return total, ops, NoEntries;
      }
      var leaf := f.src.leaves(pos + r.draw % count);
      var verified := SpotCheck(f.src, leaf, f.src.proofs(iter, f.src.H([0x00] + leaf), f.src.treeSize));
      PassedIff(f, iter);
      if !verified {
        EndsHere(f, resolve, iter, total, ops, SpotCheckFailed);
        return total, ops, SpotCheckFailed;
      }
      var more, skipped, ok := IngestWindow(f.src.Entries(), resolve, pos, count, r.accepted);
      FetchGrows(f, resolve, iter, ops, more, ok);
      if !ok {
        EndsShort(f, resolve, iter, total, ops, more);
        return total, ops + more, IngestFailed;
      }
      GoesOn(f, resolve, iter);
      ops := ops + more;
      PosNext(f, iter);
      var n := if pos + count > f.to then f.to - pos else count;
      total := total + n;
      pos := pos + n;
      iter := iter + 1;
    }
    EndsHere(f, resolve, iter, total, ops, Complete);
  }

  /** Why the loop ends with everything sent that was fetched. */
  lemma EndsHere(f: Fetch, resolve: Resolver, it: nat, total: nat, ops: seq<Op>, outcome: Outcome)
    requires forall j :: 0 <= j < it ==> Ends(f, resolve, j) == None
    requires f.from + total == PosAt(f, it) && ops == OpsBefore(f, resolve, it)
    requires var r := ReplyAt(f, it);
             if PosAt(f, it) >= f.to then outcome == Complete
             else if r.cancelled then outcome == Cancelled
             else if r.fetched == None then outcome == FetchFailed
             else if r.fetched.value == 0 then outcome == NoEntries
             else !Passed(f, it) && outcome == SpotCheckFailed
    ensures EndedAt(f, resolve, it, total, ops, outcome)
  {
    hide PosAt, Passed;
  }

  /** Or because the store refused some of a batch. */
  lemma EndsShort(f: Fetch, resolve: Resolver, it: nat, total: nat, ops: seq<Op>, more: seq<Op>)
    requires forall j :: 0 <= j < it ==> Ends(f, resolve, j) == None
    requires f.from + total == PosAt(f, it) < f.to && ops == OpsBefore(f, resolve, it) && Passed(f, it)
    requires more <= BatchOps(f, resolve, it) && |more| == ReplyAt(f, it).accepted < |BatchOps(f, resolve, it)|
    ensures EndedAt(f, resolve, it, total, ops + more, IngestFailed)
  {
    hide PosAt, WindowOps;
  }

  lemma GoesOn(f: Fetch, resolve: Resolver, it: nat)
    requires PosAt(f, it) < f.to && Passed(f, it) && |BatchOps(f, resolve, it)| <= ReplyAt(f, it).accepted
    ensures Ends(f, resolve, it) == None
  {
    hide PosAt, WindowOps;
  }

  /** Each iteration starts where the last batch ended, at most at the end of the range. */
  lemma PosNext(f: Fetch, it: nat)
    ensures PosAt(f, 0) == f.from
    ensures var end := PosAt(f, it) + Fetched(f, it); PosAt(f, it + 1) == if end > f.to then f.to else end
  {
  }

  lemma PassedIff(f: Fetch, it: nat)
    requires !ReplyAt(f, it).cancelled && Fetched(f, it) > 0
    ensures Passed(f, it) <==> Proven(f.src, f.src.leaves(PickAt(f, it)), ProofAt(f, it))
  {
  }

  lemma NothingFetched(f: Fetch, resolve: Resolver)
    ensures AllIngest([]) && OnlyVerified([], f, resolve) && Covers([], f.src.Entries(), resolve, f.from, f.from)
    ensures PosAt(f, 0) == f.from && OpsBefore(f, resolve, 0) == []
  {
  }

  lemma FetchGrows(f: Fetch, resolve: Resolver, iter: nat, ops: seq<Op>, more: seq<Op>, ok: bool)
    requires Passed(f, iter) && f.from <= PosAt(f, iter)
    requires var pos, all := PosAt(f, iter), BatchOps(f, resolve, iter);
             && AllIngest(ops) && OnlyVerified(ops, f, resolve)
             && Covers(ops, f.src.Entries(), resolve, f.from, pos)
             && AllIngest(more) && more <= all && (ok ==> more == all)
    ensures AllIngest(ops + more) && OnlyVerified(ops + more, f, resolve)
    ensures Covers(ops + more, f.src.Entries(), resolve, f.from, PosAt(f, iter))
    ensures ok ==> Covers(ops + more, f.src.Entries(), resolve, f.from, PosAt(f, iter) + Fetched(f, iter))
    ensures ok ==> Covers(ops + more, f.src.Entries(), resolve, f.from, PosAt(f, iter + 1))
  {
    hide EntryOps, Holds, PosAt, Passed, WindowOps;
    var pos, log, all := PosAt(f, iter), f.src.Entries(), BatchOps(f, resolve, iter);
    forall op | op in more ensures FromBatch(op, f, resolve, iter) {
      var i :| 0 <= i < |more| && more[i] == op;
      assert all[i] == op;
    }
    assert Covers(more, log, resolve, pos, pos);
    CoversJoin(log, resolve, ops, more, f.from, pos, pos);
    PosNext(f, iter);
    if ok {
      WindowHolds(log, resolve, pos, Fetched(f, iter));
      CoversJoin(log, resolve, ops, more, f.from, pos, pos + Fetched(f, iter));
    }
  }

  /** A range all of whose batches are answered, proven and accepted is fetched to its end. */
  lemma {:induction false} FetchCompletes(f: Fetch, resolve: Resolver, it: nat, total: nat, ops: seq<Op>,
                                          outcome: Outcome)
    requires f.from <= f.to && EndedAt(f, resolve, it, total, ops, outcome)
    requires forall j: nat :: PosAt(f, j) < f.to ==>
               var r := ReplyAt(f, j);
               && !r.cancelled && r.fetched.Some? && r.fetched.value > 0 && |BatchOps(f, resolve, j)| <= r.accepted
               && Proven(f.src, f.src.leaves(PickAt(f, j)), ProofAt(f, j))
    ensures outcome == Complete && f.from + total == f.to && ops == OpsBefore(f, resolve, it)
  {
    hide PosAt, Proven, WindowOps;
    PosWithin(f, it);
    if PosAt(f, it) < f.to { PassedIff(f, it); }
  }

  lemma {:induction false} PosWithin(f: Fetch, it: nat)
    requires f.from <= f.to
    ensures f.from <= PosAt(f, it) <= f.to
    decreases it
  {
    if it > 0 { PosWithin(f, it - 1); }
  }

  /** A batch holds a leaf of the tree D, or checking it met two different inputs with
      the same digest: one hashed in building the tree, one hashed by the check. */
  ghost predicate HoldsLeafOf(D: seq<Bytes>, f: Fetch, it: nat)
    requires |D| > 0 && Fetched(f, it) > 0 && ProofAt(f, it).Some?
  {
    var i, p := PickAt(f, it), ProofAt(f, it).value;
    && PosAt(f, it) <= i < PosAt(f, it) + Fetched(f, it)
    && 0 <= p.leafIndex < |D| && |p.auditPath| >= |Merkle.Turns(p.leafIndex, |D|)|
    && (f.src.leaves(i) == D[p.leafIndex] ||
        Merkle.Collide(f.src.H, Merkle.TreeInputs(f.src.H, D), CheckInputs(f.src.H, f.src.leaves(i), p, |D|)))
  }

  /** Whatever fetchRange sends to the store comes from a batch with a leaf of the
      signed tree in it, unless a collision was met. */
  lemma {:induction false} SentIsSigned(D: seq<Bytes>, f: Fetch, resolve: Resolver, ops: seq<Op>, op: Op)
    requires |D| > 0 && f.src.treeSize == |D| && f.src.root == Merkle.MTH(f.src.H, D)
    requires OnlyVerified(ops, f, resolve) && op in ops
    ensures exists it :: FromBatch(op, f, resolve, it) && HoldsLeafOf(D, f, it)
  {
    hide WindowOps, PosAt, CheckInputs, Merkle.Judge, Merkle.TreeInputs, Merkle.Collide, Merkle.MTH, Merkle.Turns;
    var it :| FromBatch(op, f, resolve, it);
    SpotCheckSound(f.src.H, D, f.src.leaves(PickAt(f, it)), ProofAt(f, it).value);
  }

  /** How far a turn may go: the signed tree, or the final head of a drained log. */
  function Target(treeSize: int, drainTarget: int): int {
    if drainTarget >= 0 && drainTarget < treeSize then drainTarget else treeSize
  }

  /** It is the lesser of the two, or the tree size when there is no drain target. */
  lemma TargetIsLesser(treeSize: int, drainTarget: int)
    ensures var t := Target(treeSize, drainTarget);
            && t <= treeSize && (drainTarget >= 0 ==> t <= drainTarget)
            && (drainTarget < 0 ==> t == treeSize)
            && (t == treeSize || t == drainTarget)
  {
  }

  /** What fetchRange has done when it counts `total` entries and has sent ops. */
  ghost predicate Fetches(f: Fetch, resolve: Resolver, total: nat, ops: seq<Op>) {
    && AllIngest(ops) && OnlyVerified(ops, f, resolve)
    && Covers(ops, f.src.Entries(), resolve, f.from, f.from + total)
    && exists it, outcome :: EndedAt(f, resolve, it, total, ops, outcome)
  }

  /** What a turn does: when there is something to fetch, all that fetchRange does, and then
      the new watermark is sent; otherwise nothing. */
  ghost predicate Turned(id: Bytes, src: Source, resolve: Resolver, wm: nat, target: int, window: nat, advanceOk: bool,
                         wm': nat, ops: seq<Op>, sent: seq<Op>)
  {
    if target > wm then
      && wm <= wm' <= target && Fetches(Fetch(src, wm, target, window), resolve, wm' - wm, ops)
      && sent == if advanceOk then ops + [Advance(id, wm')] else ops
    else wm' == wm && ops == [] == sent
  }

  /** One turn of the tailOne loop after a tree head has been verified. */
  method TailTurn(id: Bytes, src: Source, resolve: Resolver, wm: nat, drainTarget: int, window: nat, advanceOk: bool)
    returns (wm': nat, sent: seq<Op>, drained: bool)
    requires window >= 1
    ensures exists ops ::
              Turned(id, src, resolve, wm, Target(src.treeSize, drainTarget), window, advanceOk, wm', ops, sent)
    ensures drained <==> drainTarget >= 0 && wm' >= drainTarget
  {
    hide Covers, AllIngest, OnlyVerified, EndedAt;
    wm', sent := wm, [];
    var target := Target(src.treeSize, drainTarget);
    ghost var ops: seq<Op> := [];
    if target > wm {
      var n, fetched, outcome := FetchRange(Fetch(src, wm, target, window), resolve);
      ops := fetched;
      wm' := wm + n;
      sent := fetched;
      assert Fetches(Fetch(src, wm, target, window), resolve, wm' - wm, ops);
      if advanceOk {
        sent := sent + [Advance(id, wm')];
      }
    }
    assert Turned(id, src, resolve, wm, target, window, advanceOk, wm', ops, sent);
    drained := drainTarget >= 0 && wm' >= drainTarget;
  }

  /** A turn whose batches are all answered, proven and accepted reaches its target. */
  lemma {:induction false} TurnReachesTarget(id: Bytes, src: Source, resolve: Resolver, wm: nat, target: nat,
                                             window: nat, advanceOk: bool, wm': nat, ops: seq<Op>, sent: seq<Op>)
    requires target > wm && Turned(id, src, resolve, wm, target, window, advanceOk, wm', ops, sent)
    requires var f := Fetch(src, wm, target, window);
             forall j: nat :: PosAt(f, j) < target ==>
               var r := ReplyAt(f, j);
               && !r.cancelled && r.fetched.Some? && r.fetched.value > 0 && |BatchOps(f, resolve, j)| <= r.accepted
               && Proven(src, src.leaves(PickAt(f, j)), ProofAt(f, j))
    ensures wm' == target
  {
    hide Covers, AllIngest, OnlyVerified, EndedAt, Proven, PosAt, WindowOps, BatchOps;
    var f := Fetch(src, wm, target, window);
    var it, outcome :| EndedAt(f, resolve, it, wm' - wm, ops, outcome);
    FetchCompletes(f, resolve, it, wm' - wm, ops, outcome);
  }

  // ----- Starting tailers

  /** A log of the merged log list; the state is empty when none is known. */
  datatype LogInfo = LogInfo(id: Bytes, rfc6962: bool, state: string)

  predicate Drained(state: string)
    { state == "readonly" || state == "frozen" || state == "retired" || state == "rejected" }

  predicate Eligible(drain: bool, lg: LogInfo) {
    lg.rfc6962 && lg.state != "" && (drain || !Drained(lg.state))
  }

  /** Which logs get a tailer: those of RFC 6962 in a known state, and those in one of the
      four states of a log that no longer grows only with the drain flag. */
  lemma EligibleStates(drain: bool, lg: LogInfo)
    ensures Eligible(drain, lg) <==>
            lg.rfc6962 && lg.state != "" && (drain || lg.state !in {"readonly", "frozen", "retired", "rejected"})
  {
  }

  /** The list names the log in an eligible state. */
  ghost predicate Listed(drain: bool, logs: seq<LogInfo>, id: Bytes) {
    exists j :: 0 <= j < |logs| && Eligible(drain, logs[j]) && logs[j].id == id
  }

  class Registry {
    const drain: bool
    var started: set<Bytes>

    constructor (drain: bool)
      ensures this.drain == drain && started == {}
    {
      this.drain, started := drain, {};
    }

    /** Launches a tailer for every eligible log that has none yet, and never two
        for one log, however often the list names it or Sync is called. */
    method Sync(logs: seq<LogInfo>) returns (launched: seq<Bytes>)
      modifies this`started
      ensures forall id :: id in launched <==> id !in old(started) && Listed(drain, logs, id)
      ensures forall i, j :: 0 <= i < j < |launched| ==> launched[i] != launched[j]
      ensures forall id :: id in started <==> id in old(started) || id in launched
    {
      launched := [];
      for n := 0 to |logs|
        invariant forall id :: id in launched <==> id !in old(started) && Listed(drain, logs[..n], id)
        invariant forall i, j :: 0 <= i < j < |launched| ==> launched[i] != launched[j]
        invariant forall id :: id in started <==> id in old(started) || id in launched
      {
        var lg := logs[n];
        assert logs[..n + 1] == logs[..n] + [lg];
        if !lg.rfc6962 || lg.state == "" { continue; }
        if !drain && Drained(lg.state) { continue; }
        if lg.id in started { continue; }
        started := started + {lg.id};
        launched := launched + [lg.id];
      }
      assert logs[..|logs|] == logs;
    }
  }
}
