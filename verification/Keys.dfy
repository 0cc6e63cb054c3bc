/** The byte-level database: key spaces, value codecs, and the proof that the
    typed database of StoreModel is what the bytes say. */
module Keys {
  import opened ByteStrings
  import opened StoreModel

  function RecordKey(k: Key): Bytes { k.apex + [0x00] + k.sub }

  function CountKey(apex: Bytes): Bytes { [0xfe] + apex }

  function MetaKey(name: Bytes): Bytes { [0xff, 0x00] + name }

  const TotalName: Bytes := [116, 111, 116, 97, 108]   // "total"
  const SeqName: Bytes := [115, 101, 113]              // "seq"

  function WMName(log: Bytes): Bytes { [119, 109, 47] + log }   // "wm/" + log

  /** What apexes are: free of NUL, and below the count and meta prefixes. */
  predicate ValidApex(a: Bytes) { 0 !in a && (a != [] ==> a[0] < 0xfe) }

  /** The index of the first NUL: where the recount cuts a key. */
  function FirstNul(k: Bytes): (i: nat)
    ensures i <= |k|
  {
    if k == [] || k[0] == 0 then 0 else 1 + FirstNul(k[1..])
  }

  lemma {:induction false} RecountCut(apex: Bytes, sub: Bytes)
    requires 0 !in apex
    ensures FirstNul(apex + [0x00] + sub) == |apex|
    decreases |apex|
  {
    var k := apex + [0x00] + sub;
    if apex != [] {
      assert k[0] == apex[0] && apex[0] in apex;
      assert k[1..] == apex[1..] + [0x00] + sub;
      RecountCut(apex[1..], sub);
    }
  }

  lemma NulSplits(a: Bytes, b: Bytes, x: Bytes, y: Bytes)
    requires 0 !in a && 0 !in b && a + [0] + x == b + [0] + y
    ensures a == b && x == y
  {
    RecountCut(a, x);
    RecountCut(b, y);
    var l, r := a + [0] + x, b + [0] + y;
    assert l[..|a|] == a && r[..|b|] == b && l[|a| + 1..] == x && r[|b| + 1..] == y;
  }

  lemma RecordKeyInjective(k: Key, k': Key)
    requires ValidApex(k.apex) && ValidApex(k'.apex) && RecordKey(k) == RecordKey(k')
    ensures k == k'
  {
    NulSplits(k.apex, k'.apex, k.sub, k'.sub);
  }

  /** The three key spaces do not meet. */
  lemma SpacesDisjoint(k: Key, a: Bytes, name: Bytes)
    requires ValidApex(k.apex)
    ensures RecordKey(k)[0] < 0xfe
    ensures RecordKey(k) != CountKey(a) && RecordKey(k) != MetaKey(name) && CountKey(a) != MetaKey(name)
  {
    assert CountKey(a)[0] == 0xfe && MetaKey(name)[0] == 0xff;
  }

  lemma MetaInjective(n: Bytes, n': Bytes)
    requires MetaKey(n) == MetaKey(n')
    ensures n == n'
  {
    assert MetaKey(n)[2..] == n && MetaKey(n')[2..] == n';
  }

  lemma CountInjective(a: Bytes, a': Bytes)
    requires CountKey(a) == CountKey(a')
    ensures a == a'
  {
    assert CountKey(a)[1..] == a && CountKey(a')[1..] == a';
  }

  lemma NamesApart(log: Bytes)
    ensures WMName(log) != TotalName && WMName(log) != SeqName && TotalName != SeqName
  {
    assert WMName(log)[0] == 119;
  }

  // ----- Ranges

  predicate InRange(k: Bytes, lo: Bytes, hi: Bytes) { !Less(k, lo) && Less(k, hi) }

  /** The scan range of an apex holds exactly the keys that begin with apex, NUL. */
  lemma {:induction false} ApexRange(a: Bytes, k: Bytes)
    ensures InRange(k, a + [0x00], a + [0x01]) <==> a + [0x00] <= k
    decreases |a|
  {
    var lo, hi := a + [0x00], a + [0x01];
    if a == [] {
      assert lo == [0x00] && hi == [0x01] && lo[1..] == [] == hi[1..];
      if k != [] {
        assert !Less(k[1..], []);
        PrefixTail(lo, k);
      }
    } else if k != [] {
      assert lo[1..] == a[1..] + [0x00] && hi[1..] == a[1..] + [0x01];
      ApexRange(a[1..], k[1..]);
      PrefixTail(lo, k);
    }
  }

  lemma PrefixTail(p: Bytes, k: Bytes)
    requires p != [] && k != []
    ensures p <= k <==> p[0] == k[0] && p[1..] <= k[1..]
  {
    if p[0] == k[0] && p[1..] <= k[1..] {
      assert p == [p[0]] + p[1..] && k == [k[0]] + k[1..];
    }
  }

  /** So it holds exactly that apex's records. */
  lemma ApexRangeExact(a: Bytes, k: Key)
    requires ValidApex(a) && ValidApex(k.apex)
    ensures InRange(RecordKey(k), a + [0x00], a + [0x01]) <==> k.apex == a
  {
    var b := RecordKey(k);
    ApexRange(a, b);
    if a + [0x00] <= b {
      assert b == a + [0x00] + b[|a| + 1..];
      NulSplits(k.apex, a, k.sub, b[|a| + 1..]);
    }
  }

  // ----- Values

  const Two64: nat := 0x1_0000_0000_0000_0000

  /** uint64(int64 value) and back. */
  function ToU64(v: int): (u: nat)
    requires -0x8000_0000_0000_0000 <= v < 0x8000_0000_0000_0000
    ensures u < Two64
  {
    if v >= 0 then v else v + Two64
  }

  function FromU64(u: nat): int {
    if u < 0x8000_0000_0000_0000 then u else u - Two64
  }

  lemma Range8()
    ensures Range(8) == Two64
  {
    assert Range(4) == 0x1_0000_0000;
    assert Range(8) == 256 * 256 * 256 * 256 * Range(4);
  }

  predicate Int64(v: int) { -0x8000_0000_0000_0000 <= v < 0x8000_0000_0000_0000 }

  function BE8(v: nat): (b: Bytes)
    requires v < Two64
    ensures |b| == 8
  {
    Range8();
    ToBE(v, 8)
  }

  lemma BE8Back(v: nat)
    requires v < Two64
    ensures FromBE(BE8(v)) == v
  {
    Range8();
    FromToBE(v, 8);
  }

  predicate ValidRec(r: Rec) { Int64(r.firstSeen) && r.seqno < Two64 }

  function EncodeValue(r: Rec): (v: Bytes)
    requires ValidRec(r)
    ensures |v| == 17
  {
    BE8(ToU64(r.firstSeen)) + [r.source] + BE8(r.seqno)
  }

  function DecodeValue(v: Bytes): Option<Rec> {
    if |v| < 17 then None else Some(Rec(FromU64(FromBE(v[..8])), v[8], FromBE(v[9..17])))
  }

  lemma ValueRoundTrip(r: Rec)
    requires ValidRec(r)
    ensures DecodeValue(EncodeValue(r)) == Some(r)
  {
    var v := EncodeValue(r);
    assert v[..8] == BE8(ToU64(r.firstSeen)) && v[8] == r.source && v[9..17] == BE8(r.seqno);
    BE8Back(ToU64(r.firstSeen));
    BE8Back(r.seqno);
  }

  /** The keys in bytes; the names are total, seq and wm/ with the log. */
  lemma KeysInBytes(k: Key, a: Bytes, log: Bytes)
    ensures RecordKey(k) == k.apex + [0] + k.sub && CountKey(a) == [254] + a
    ensures MetaKey(TotalName) == [255, 0, 116, 111, 116, 97, 108]
    ensures MetaKey(SeqName) == [255, 0, 115, 101, 113]
    ensures MetaKey(WMName(log)) == [255, 0, 119, 109, 47] + log
  {
  }

  /** The value in bytes: the date in two's complement, the source, the sequence number,
      both in eight bytes with the highest first. */
  lemma ValueInBytes(r: Rec)
    requires ValidRec(r)
    ensures var v := EncodeValue(r);
            && |v| == 17 && v[8] == r.source && FromBE(v[9..17]) == r.seqno
            && FromBE(v[..8]) == if r.firstSeen >= 0 then r.firstSeen else r.firstSeen + 0x1_0000_0000_0000_0000
  {
    var v := EncodeValue(r);
    assert v[..8] == BE8(ToU64(r.firstSeen)) && v[9..17] == BE8(r.seqno);
    BE8Back(ToU64(r.firstSeen));
    BE8Back(r.seqno);
  }

  // ----- The typed database is what the bytes say

  type ByteDB = map<Bytes, Bytes>

  predicate ValidKey(k: Key) { ValidApex(k.apex) }

  ghost predicate RepsRecords(m: ByteDB, records: map<Key, Rec>) {
    && (forall k :: k in records ==> ValidKey(k) && ValidRec(records[k]))
    && (forall k :: ValidKey(k) ==> (k in records <==> RecordKey(k) in m))
    && (forall k :: k in records ==> RecordKey(k) in m && m[RecordKey(k)] == EncodeValue(records[k]))
  }

  ghost predicate RepsCounts(m: ByteDB, counts: map<Bytes, nat>) {
    && (forall a :: a in counts ==> counts[a] < Two64)
    && (forall a :: a in counts <==> CountKey(a) in m)
    && (forall a :: a in counts ==> m[CountKey(a)] == BE8(counts[a]))
  }

  ghost predicate RepsNumber(m: ByteDB, name: Bytes, n: nat) {
    n < Two64 && if MetaKey(name) in m then m[MetaKey(name)] == BE8(n) else n == 0
  }

  ghost predicate RepsWMs(m: ByteDB, wms: map<Bytes, int>) {
    && (forall id :: id in wms ==> Int64(wms[id]))
    && (forall id :: id in wms <==> MetaKey(WMName(id)) in m)
    && (forall id :: id in wms ==> m[MetaKey(WMName(id))] == BE8(ToU64(wms[id])))
  }

  ghost predicate Represents(m: ByteDB, db: DB) {
    && RepsRecords(m, db.records) && RepsCounts(m, db.counts) && RepsWMs(m, db.wms)
    && RepsNumber(m, TotalName, db.total) && RepsNumber(m, SeqName, db.seqno)
  }

  /** A write the store may issue: NUL-free apexes and 64-bit values. */
  predicate ValidWrite(w: Write) {
    match w
    case SetRecord(k, r) => ValidKey(k) && ValidRec(r)
    case SetCount(a, n) => n < Two64
    case SetTotal(n) => n < Two64
    case SetSeq(n) => n < Two64
    case SetWM(id, n) => Int64(n)
  }

  function WriteKey(w: Write): Bytes {
    match w
    case SetRecord(k, r) => RecordKey(k)
    case SetCount(a, n) => CountKey(a)
    case SetTotal(n) => MetaKey(TotalName)
    case SetSeq(n) => MetaKey(SeqName)
    case SetWM(id, n) => MetaKey(WMName(id))
  }

  function WriteValue(w: Write): Bytes
    requires ValidWrite(w)
  {
    match w
    case SetRecord(k, r) => EncodeValue(r)
    case SetCount(a, n) => BE8(n)
    case SetTotal(n) => BE8(n)
    case SetSeq(n) => BE8(n)
    case SetWM(id, n) => BE8(ToU64(n))
  }

  /** A key outside a key space does not disturb what is represented there. */
  lemma ElsewhereRecords(m: ByteDB, records: map<Key, Rec>, b: Bytes, v: Bytes)
    requires RepsRecords(m, records) && b != [] && b[0] >= 0xfe
    ensures RepsRecords(m[b := v], records)
  {
    hide EncodeValue;
    forall k | ValidKey(k) ensures RecordKey(k) != b { SpacesDisjoint(k, [], []); }
  }

  lemma ElsewhereCounts(m: ByteDB, counts: map<Bytes, nat>, b: Bytes, v: Bytes)
    requires RepsCounts(m, counts) && b != [] && b[0] != 0xfe
    ensures RepsCounts(m[b := v], counts)
  {
    hide BE8;
  }

  lemma ElsewhereNumber(m: ByteDB, name: Bytes, n: nat, b: Bytes, v: Bytes)
    requires RepsNumber(m, name, n) && b != MetaKey(name)
    ensures RepsNumber(m[b := v], name, n)
  {
    hide BE8, MetaKey;
  }

  lemma ElsewhereWMs(m: ByteDB, wms: map<Bytes, int>, b: Bytes, v: Bytes)
    requires RepsWMs(m, wms) && forall id :: b != MetaKey(WMName(id))
    ensures RepsWMs(m[b := v], wms)
  {
    hide BE8, MetaKey, WMName, ToU64;
  }

  lemma HereRecord(m: ByteDB, records: map<Key, Rec>, k: Key, r: Rec)
    requires RepsRecords(m, records) && ValidKey(k) && ValidRec(r)
    ensures RepsRecords(m[RecordKey(k) := EncodeValue(r)], records[k := r])
  {
    hide EncodeValue, RecordKey;
    forall j | ValidKey(j) && j != k ensures RecordKey(j) != RecordKey(k) {
      if RecordKey(j) == RecordKey(k) { RecordKeyInjective(j, k); }
    }
  }

  lemma HereCount(m: ByteDB, counts: map<Bytes, nat>, a: Bytes, n: nat)
    requires RepsCounts(m, counts) && n < Two64
    ensures RepsCounts(m[CountKey(a) := BE8(n)], counts[a := n])
  {
    hide BE8, CountKey;
    forall b | b != a ensures CountKey(b) != CountKey(a) { if CountKey(b) == CountKey(a) { CountInjective(b, a); } }
  }

  lemma HereWM(m: ByteDB, wms: map<Bytes, int>, id: Bytes, w: int)
    requires RepsWMs(m, wms) && Int64(w)
    ensures RepsWMs(m[MetaKey(WMName(id)) := BE8(ToU64(w))], wms[id := w])
  {
    hide BE8, MetaKey, WMName, ToU64;
    var b, v := MetaKey(WMName(id)), BE8(ToU64(w));
    forall j | j != id ensures MetaKey(WMName(j)) != b { WMInjective(j, id); }
  }

  lemma WMInjective(i: Bytes, j: Bytes)
    ensures MetaKey(WMName(i)) == MetaKey(WMName(j)) ==> i == j
  {
    if MetaKey(WMName(i)) == MetaKey(WMName(j)) {
      MetaInjective(WMName(i), WMName(j));
      assert WMName(i)[3..] == i && WMName(j)[3..] == j;
    }
  }

  lemma MetaApart(i: Bytes, j: Bytes)
    requires i != j
    ensures MetaKey(i) != MetaKey(j)
  {
    if MetaKey(i) == MetaKey(j) { MetaInjective(i, j); }
  }

  /** The facts about meta keys that the commuting lemma needs. */
  lemma MetaKeys(id: Bytes)
    ensures MetaKey(TotalName) != MetaKey(SeqName)
    ensures MetaKey(WMName(id)) != MetaKey(TotalName) && MetaKey(WMName(id)) != MetaKey(SeqName)
  {
    hide MetaKey, WMName;
    NamesApart(id);
    MetaApart(TotalName, SeqName);
    MetaApart(WMName(id), TotalName);
    MetaApart(WMName(id), SeqName);
  }

  lemma KeySpaces(k: Key, a: Bytes, name: Bytes)
    requires ValidKey(k)
    ensures RecordKey(k) != [] && RecordKey(k)[0] < 0xfe
    ensures CountKey(a) != [] && CountKey(a)[0] == 0xfe
    ensures MetaKey(name) != [] && MetaKey(name)[0] == 0xff
  {
    SpacesDisjoint(k, a, name);
  }

  /** A byte-level write represents the typed write. */
  lemma PutCommutes(m: ByteDB, db: DB, w: Write)
    requires Represents(m, db) && ValidWrite(w)
    ensures Represents(m[WriteKey(w) := WriteValue(w)], Put(db, w))
  {
    hide RepsRecords, RepsCounts, RepsWMs, RepsNumber, RecordKey, CountKey, MetaKey, WMName, EncodeValue, BE8;
    var b, v := WriteKey(w), WriteValue(w);
    KeySpaces(if w.SetRecord? then w.key else Key([], []), if w.SetCount? then w.apex else [], TotalName);
    KeySpaces(Key([], []), [], SeqName);
    MetaKeys([]);
    forall id
      ensures MetaKey(WMName(id)) != [] && MetaKey(WMName(id))[0] == 0xff
      ensures MetaKey(WMName(id)) != MetaKey(TotalName) && MetaKey(WMName(id)) != MetaKey(SeqName)
    {
      MetaKeys(id);
      KeySpaces(Key([], []), [], WMName(id));
    }
    match w
    case SetRecord(k, r) =>
      HereRecord(m, db.records, k, r);
      ElsewhereCounts(m, db.counts, b, v);
      ElsewhereWMs(m, db.wms, b, v);
      ElsewhereNumber(m, TotalName, db.total, b, v);
      ElsewhereNumber(m, SeqName, db.seqno, b, v);
    case SetCount(a, n) =>
      ElsewhereRecords(m, db.records, b, v);
      HereCount(m, db.counts, a, n);
      ElsewhereWMs(m, db.wms, b, v);
      ElsewhereNumber(m, TotalName, db.total, b, v);
      ElsewhereNumber(m, SeqName, db.seqno, b, v);
    case SetTotal(n) =>
      ElsewhereRecords(m, db.records, b, v);
      ElsewhereCounts(m, db.counts, b, v);
      ElsewhereWMs(m, db.wms, b, v);
      HereNumber(m, TotalName, n);
      ElsewhereNumber(m, SeqName, db.seqno, b, v);
    case SetSeq(n) =>
      ElsewhereRecords(m, db.records, b, v);
      ElsewhereCounts(m, db.counts, b, v);
      ElsewhereWMs(m, db.wms, b, v);
      ElsewhereNumber(m, TotalName, db.total, b, v);
      HereNumber(m, SeqName, n);
    case SetWM(id, n) =>
      ElsewhereRecords(m, db.records, b, v);
      ElsewhereCounts(m, db.counts, b, v);
      HereWM(m, db.wms, id, n);
      ElsewhereNumber(m, TotalName, db.total, b, v);
      ElsewhereNumber(m, SeqName, db.seqno, b, v);
  }

  lemma HereNumber(m: ByteDB, name: Bytes, n: nat)
    requires n < Two64
    ensures RepsNumber(m[MetaKey(name) := BE8(n)], name, n)
  {
  }

  /** A byte-level batch. */
  function CommitBytes(m: ByteDB, batch: seq<Write>): ByteDB
    requires forall i :: 0 <= i < |batch| ==> ValidWrite(batch[i])
  {
    if batch == [] then m
    else
      var w := batch[|batch| - 1];
      CommitBytes(m, batch[..|batch| - 1])[WriteKey(w) := WriteValue(w)]
  }

  /** Committing a batch of byte writes is committing the typed batch. */
  lemma {:induction false} CommitCommutes(m: ByteDB, db: DB, batch: seq<Write>)
    requires Represents(m, db) && forall i :: 0 <= i < |batch| ==> ValidWrite(batch[i])
    ensures Represents(CommitBytes(m, batch), Commit(db, batch))
    decreases |batch|
  {
    hide Represents, ValidWrite, WriteKey, WriteValue, Put;
    if batch != [] {
      var n := |batch| - 1;
      CommitCommutes(m, db, batch[..n]);
      PutCommutes(CommitBytes(m, batch[..n]), Commit(db, batch[..n]), batch[n]);
    }
  }
}
