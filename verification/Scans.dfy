/** Scan, ScanAfter and Top of internal/store/store.go over the rows their iterator
    yields. */
module Scans {
  import opened ByteStrings
  import opened StoreModel
  import opened Heaps
  import Keys

  /** A result row. */
  datatype Row = Row(sub: Bytes, firstSeen: int, seqno: nat)

  /** A key and value of the iterator. */
  datatype Entry = Entry(key: Bytes, value: Bytes)

  /** The row of an entry below the prefix of length n; short values are skipped. */
  function RowOf(n: nat, e: Entry): Option<Row> {
    match Keys.DecodeValue(e.value)
    case Some(r) => if |e.key| >= n then Some(Row(e.key[n..], r.firstSeen, r.seqno)) else None
    case None => None
  }

  function Rows(n: nat, it: seq<Entry>): seq<Row> {
    if it == [] then []
    else
      var rest := Rows(n, it[..|it| - 1]);
      match RowOf(n, it[|it| - 1])
      case Some(r) => rest + [r]
      case None => rest
  }

  function MaxSeq(rows: seq<Row>): nat {
    if rows == [] then 0
    else
      var m, r := MaxSeq(rows[..|rows| - 1]), rows[|rows| - 1].seqno;
      if r > m then r else m
  }

  /** The rows after the cursor, in key order. */
  function After(rows: seq<Row>, cursor: nat): seq<Row> {
    if rows == [] then []
    else
      var rest := After(rows[..|rows| - 1], cursor);
      if rows[|rows| - 1].seqno > cursor then rest + [rows[|rows| - 1]] else rest
  }

  const DefaultScanLimit: nat := 100000

  function Limit(limit: int): nat { if limit <= 0 then DefaultScanLimit else limit }

  /** Entries that are not counters or records are skipped. */
  lemma CorruptIsSkipped(n: nat, e: Entry)
    ensures |e.value| < 17 || |e.key| < n ==> RowOf(n, e) == None
    ensures |e.value| != 8 || e.key == [] ==> CounterOf(e) == None
  {
  }

  /** No limit, or one that is not positive, means 100000. */
  lemma LimitIs(limit: int)
    ensures limit <= 0 ==> Limit(limit) == 100000
    ensures limit > 0 ==> Limit(limit) == limit
  {
  }

  lemma {:induction false} MaxSeqIsMax(rows: seq<Row>)
    ensures forall i :: 0 <= i < |rows| ==> rows[i].seqno <= MaxSeq(rows)
    ensures rows != [] && MaxSeq(rows) > 0 ==> exists i :: 0 <= i < |rows| && rows[i].seqno == MaxSeq(rows)
    decreases |rows|
  {
    if rows != [] {
      var n := |rows| - 1;
      MaxSeqIsMax(rows[..n]);
      forall i | 0 <= i < |rows| ensures rows[i].seqno <= MaxSeq(rows) {
        if i < n { assert rows[..n][i].seqno <= MaxSeq(rows[..n]); }
      }
      if MaxSeq(rows) > 0 {
        if rows[n].seqno == MaxSeq(rows) {
        } else {
          var i :| 0 <= i < n && rows[..n][i].seqno == MaxSeq(rows[..n]);
          assert rows[i].seqno == MaxSeq(rows);
        }
      }
    }
  }

  /** The change poll: the first `limit` rows after the cursor, the apex's largest
      sequence number whether or not anything matched, and whether rows were cut. */
  method ScanAfter(n: nat, it: seq<Entry>, after: nat, limit: int)
    returns (rows: seq<Row>, maxSeq: nat, truncated: bool)
    ensures var all := After(Rows(n, it), after);
            && rows == (if |all| <= Limit(limit) then all else all[..Limit(limit)])
            && (truncated <==> |all| > Limit(limit))
    ensures maxSeq == MaxSeq(Rows(n, it))
  {
    hide RowOf, Rows, After, MaxSeq;
    var cap := Limit(limit);
    rows, maxSeq, truncated := [], 0, false;
    NoRow(n, after);
    for j := 0 to |it|
      invariant maxSeq == MaxSeq(Rows(n, it[..j]))
      invariant var all := After(Rows(n, it[..j]), after);
                && rows == (if |all| <= cap then all else all[..cap])
                && (truncated <==> |all| > cap)
    {
      ghost var seen := Rows(n, it[..j]);
      assert it[..j + 1] == it[..j] + [it[j]];
      AddEntry(n, it[..j], it[j]);
      match RowOf(n, it[j]) {
        case None =>
        case Some(r) =>
          AddRow(seen, r, after);
          if r.seqno > maxSeq {
            maxSeq := r.seqno;
          }
          if r.seqno > after {
            if |rows| >= cap {
              truncated := true;
            } else {
              rows := rows + [r];
            }
          }
      }
    }
    assert it[..|it|] == it;
  }

  lemma NoRow(n: nat, after: nat)
    ensures Rows(n, []) == [] == After([], after) && MaxSeq([]) == 0
  {
  }

  lemma AddEntry(n: nat, it: seq<Entry>, e: Entry)
    ensures Rows(n, it + [e]) == match RowOf(n, e) case Some(r) => Rows(n, it) + [r] case None => Rows(n, it)
  {
    assert (it + [e])[..|it|] == it;
  }

  lemma AddRow(rows: seq<Row>, r: Row, after: nat)
    ensures MaxSeq(rows + [r]) == if r.seqno > MaxSeq(rows) then r.seqno else MaxSeq(rows)
    ensures After(rows + [r], after) == if r.seqno > after then After(rows, after) + [r] else After(rows, after)
  {
    assert (rows + [r])[..|rows|] == rows;
  }

  // ----- The k largest, through a bounded heap

  /** What the heap holds after some items: all of them, or the `cap` largest. */
  ghost predicate KeepsLargest<T>(all: multiset<Item<T>>, kept: multiset<Item<T>>, cap: nat) {
    && kept <= all
    && |kept| == (if |all| <= cap then |all| else cap)
    && forall x, y :: x in all - kept && y in kept ==> x.rank <= y.rank
  }

  lemma LargestFirst<T>(cap: nat)
    ensures KeepsLargest<T>(multiset{}, multiset{}, cap)
  {
  }

  lemma LargestGrows<T>(all: multiset<Item<T>>, kept: multiset<Item<T>>, cap: nat, x: Item<T>)
    requires KeepsLargest(all, kept, cap) && |kept| < cap
    ensures KeepsLargest(all + multiset{x}, kept + multiset{x}, cap)
  {
    Sizes(all, kept);
    assert |all - kept| == 0;
    assert (all + multiset{x}) - (kept + multiset{x}) == all - kept;
  }

  lemma LargestSkips<T>(all: multiset<Item<T>>, kept: multiset<Item<T>>, cap: nat, x: Item<T>)
    requires KeepsLargest(all, kept, cap) && |kept| >= cap && forall y :: y in kept ==> x.rank <= y.rank
    ensures KeepsLargest(all + multiset{x}, kept, cap)
  {
    assert |kept| == cap && |all| >= cap by { Sizes(all, kept); }
    forall u, v | u in (all + multiset{x}) - kept && v in kept ensures u.rank <= v.rank {
      if u != x { assert u in all - kept; }
    }
  }

  lemma Sizes<T>(all: multiset<Item<T>>, kept: multiset<Item<T>>)
    requires kept <= all
    ensures |all| == |kept| + |all - kept|
  {
    assert all == kept + (all - kept);
  }

  lemma LargestReplaces<T>(all: multiset<Item<T>>, kept: multiset<Item<T>>, cap: nat, x: Item<T>, root: Item<T>)
    requires KeepsLargest(all, kept, cap) && |kept| >= cap && root in kept
    requires x.rank > root.rank && forall y :: y in kept ==> root.rank <= y.rank
    ensures KeepsLargest(all + multiset{x}, kept - multiset{root} + multiset{x}, cap)
  {
    var kept', all' := kept - multiset{root} + multiset{x}, all + multiset{x};
    assert |kept| == cap && |all| >= cap by { Sizes(all, kept); }
    assert |kept'| == |kept|;
    forall u, v | u in all' - kept' && v in kept' ensures u.rank <= v.rank {
      assert u == root || u in all - kept;
      assert v == x || v in kept;
    }
  }

  lemma HeapBounds<T>(a: seq<Item<T>>)
    requires IsHeap(a) && a != []
    ensures a[0] in multiset(a) && forall y :: y in multiset(a) ==> a[0].rank <= y.rank
  {
    forall y | y in multiset(a) ensures a[0].rank <= y.rank {
      var k :| 0 <= k < |a| && a[k] == y;
      RootIsLeast(a, k);
    }
  }

  /** One more item for a heap that never holds more than cap of them. */
  method Offer<T(==)>(h: Heap<T>, cap: nat, x: Item<T>, ghost all: multiset<Item<T>>)
    requires cap >= 1 && IsHeap(h.a) && KeepsLargest(all, multiset(h.a), cap)
    modifies h
    ensures IsHeap(h.a) && KeepsLargest(all + multiset{x}, multiset(h.a), cap)
  {
    hide IsHeap, KeepsLargest;
    ghost var kept := multiset(h.a);
    if |h.a| < cap {
      LargestGrows(all, kept, cap, x);
      h.Push(x);
    } else {
      HeapBounds(h.a);
      if x.rank > h.a[0].rank {
        LargestReplaces(all, kept, cap, x, h.a[0]);
        h.ReplaceRoot(x);
      } else {
        LargestSkips(all, kept, cap, x);
      }
    }
  }

  lemma EmptyHeap<T>()
    ensures IsHeap<T>([])
  {
  }

  ghost predicate Ascending<T>(a: seq<Item<T>>) {
    forall i, j :: 0 <= i < j < |a| ==> a[i].rank <= a[j].rank
  }

  /** What has been taken out is no larger than what is left. */
  ghost predicate Below<T>(out: seq<Item<T>>, left: multiset<Item<T>>) {
    forall i, y :: 0 <= i < |out| && y in left ==> out[i].rank <= y.rank
  }

  lemma DrainStep<T>(out: seq<Item<T>>, was: seq<Item<T>>, left: seq<Item<T>>)
    requires IsHeap(was) && was != [] && Ascending(out) && Below(out, multiset(was))
    requires multiset(left) == multiset(was) - multiset{was[0]}
    ensures Ascending(out + [was[0]]) && Below(out + [was[0]], multiset(left))
    ensures multiset(out + [was[0]]) + multiset(left) == multiset(out) + multiset(was)
  {
    HeapBounds(was);
    assert forall y :: y in multiset(left) ==> y in multiset(was);
  }

  /** Empties a heap in ascending order. */
  method Drain<T(==)>(h: Heap<T>) returns (out: seq<Item<T>>)
    requires IsHeap(h.a)
    modifies h
    ensures Ascending(out) && multiset(out) == old(multiset(h.a))
  {
    hide IsHeap, Ascending, Below;
    out := [];
    DrainStart(h.a);
    while h.a != []
      invariant IsHeap(h.a) && Ascending(out) && Below(out, multiset(h.a))
      invariant multiset(out) + multiset(h.a) == old(multiset(h.a))
      decreases |h.a|
    {
      ghost var was := h.a;
      var x := h.Pop();
      DrainStep(out, was, h.a);
      out := out + [x];
    }
  }

  lemma DrainStart<T>(a: seq<Item<T>>)
    ensures Ascending<T>([]) && Below([], multiset(a))
  {
  }

  // ----- Scan

  function RowItems(rows: seq<Row>): (items: seq<Item<Row>>)
    ensures |items| == |rows| && forall i :: 0 <= i < |rows| ==> items[i] == Item(rows[i].seqno, rows[i])
  {
    seq(|rows|, i requires 0 <= i < |rows| => Item(rows[i].seqno, rows[i]))
  }

  function Vals<T>(items: seq<Item<T>>): (vals: seq<T>)
    ensures |vals| == |items| && forall i :: 0 <= i < |items| ==> vals[i] == items[i].val
  {
    seq(|items|, i requires 0 <= i < |items| => items[i].val)
  }

  /** The `limit` newest rows of an apex, oldest first. */
  method Scan(n: nat, it: seq<Entry>, limit: int) returns (out: seq<Row>)
    ensures KeepsLargest(multiset(RowItems(Rows(n, it))), multiset(RowItems(out)), Limit(limit))
    ensures forall i, j :: 0 <= i < j < |out| ==> out[i].seqno <= out[j].seqno
  {
    hide RowOf, IsHeap, KeepsLargest;
    var cap := Limit(limit);
    var h := new Heap<Row>();
    EmptyHeap<Row>();
    LargestFirst<Row>(cap);
    for j := 0 to |it|
      invariant fresh(h) && IsHeap(h.a)
      invariant KeepsLargest(multiset(RowItems(Rows(n, it[..j]))), multiset(h.a), cap)
    {
      assert it[..j + 1][..j] == it[..j];
      ghost var seen := Rows(n, it[..j]);
      match RowOf(n, it[j]) {
        case None =>
        case Some(r) =>
          Offer(h, cap, Item(r.seqno, r), multiset(RowItems(seen)));
          assert RowItems(seen + [r]) == RowItems(seen) + [Item(r.seqno, r)];
      }
    }
    assert it[..|it|] == it;
    ghost var kept := multiset(h.a);
    var items := Drain(h);
    out := Vals(items);
    RanksAreSeqs(Rows(n, it), items, cap);
  }

  lemma RanksAreSeqs(rows: seq<Row>, items: seq<Item<Row>>, cap: nat)
    requires KeepsLargest(multiset(RowItems(rows)), multiset(items), cap) && Ascending(items)
    ensures RowItems(Vals(items)) == items
    ensures forall i, j :: 0 <= i < j < |items| ==> Vals(items)[i].seqno <= Vals(items)[j].seqno
  {
    forall i | 0 <= i < |items| ensures items[i] == Item(items[i].val.seqno, items[i].val) {
      assert items[i] in multiset(items);
      assert items[i] in multiset(RowItems(rows));
    }
  }

  /** The last row of a scan carries the apex's largest sequence number, however
      small the limit: this is what x-max-seq is taken from. */
  lemma {:induction false} ScanEndsWithMax(rows: seq<Row>, out: seq<Row>, cap: nat)
    requires cap >= 1 && KeepsLargest(multiset(RowItems(rows)), multiset(RowItems(out)), cap)
    requires forall i, j :: 0 <= i < j < |out| ==> out[i].seqno <= out[j].seqno
    ensures |out| == (if |rows| <= cap then |rows| else cap)
    ensures out != [] ==> out[|out| - 1].seqno == MaxSeq(rows)
  {
    var all, kept := multiset(RowItems(rows)), multiset(RowItems(out));
    MaxSeqIsMax(rows);
    if out != [] {
      var last := RowItems(out)[|out| - 1];
      assert last in kept && last in all;
      forall i | 0 <= i < |rows| ensures rows[i].seqno <= last.rank { RowBelowLast(rows, out, cap, i); }
      if MaxSeq(rows) > 0 {
        var i :| 0 <= i < |rows| && rows[i].seqno == MaxSeq(rows);
      }
      var k :| 0 <= k < |rows| && RowItems(rows)[k] == last;
    }
  }

  lemma RowBelowLast(rows: seq<Row>, out: seq<Row>, cap: nat, i: nat)
    requires KeepsLargest(multiset(RowItems(rows)), multiset(RowItems(out)), cap) && i < |rows| && out != []
    requires forall i, j :: 0 <= i < j < |out| ==> out[i].seqno <= out[j].seqno
    ensures rows[i].seqno <= out[|out| - 1].seqno
  {
    var all, kept, x := multiset(RowItems(rows)), multiset(RowItems(out)), RowItems(rows)[i];
    assert x in all && RowItems(out)[|out| - 1] in kept;
    if x in kept {
      var k :| 0 <= k < |out| && RowItems(out)[k] == x;
    } else {
      assert x in all - kept;
    }
  }

  // ----- Top

  datatype ApexCount = ApexCount(apex: Bytes, count: nat)

  /** The counter of an entry of the count space; corrupt values are skipped. */
  function CounterOf(e: Entry): Option<ApexCount> {
    if |e.value| == 8 && e.key != [] then Some(ApexCount(e.key[1..], FromBE(e.value))) else None
  }

  function Counters(it: seq<Entry>): seq<Item<ApexCount>> {
    if it == [] then []
    else
      var rest := Counters(it[..|it| - 1]);
      match CounterOf(it[|it| - 1])
      case Some(c) => rest + [Item(c.count, c)]
      case None => rest
  }

  /** The entries a bounded Top looks at. */
  function Inspected(it: seq<Entry>, maxIter: int): seq<Entry> {
    if maxIter > 0 && |it| > maxIter then it[..maxIter] else it
  }

  /** The n busiest apexes among those inspected, busiest first. */
  method Top(it: seq<Entry>, n: nat, maxIter: int) returns (out: seq<Item<ApexCount>>)
    requires n >= 1
    ensures KeepsLargest(multiset(Counters(Inspected(it, maxIter))), multiset(out), n)
    ensures forall i, j :: 0 <= i < j < |out| ==> out[i].rank >= out[j].rank
  {
    hide CounterOf, IsHeap, KeepsLargest;
    var h := new Heap<ApexCount>();
    EmptyHeap<ApexCount>();
    LargestFirst<ApexCount>(n);
    var iterated := 0;
    while iterated < |it|
      invariant 0 <= iterated <= |it| && (maxIter > 0 ==> iterated <= maxIter)
      invariant fresh(h) && IsHeap(h.a)
      invariant KeepsLargest(multiset(Counters(it[..iterated])), multiset(h.a), n)
    {
      if maxIter > 0 && iterated + 1 > maxIter { break; }
      assert it[..iterated + 1][..iterated] == it[..iterated];
      match CounterOf(it[iterated]) {
        case None =>
        case Some(c) => Offer(h, n, Item(c.count, c), multiset(Counters(it[..iterated])));
      }
      iterated := iterated + 1;
    }
    assert it[..|it|] == it && it[..iterated] == Inspected(it, maxIter);
    var up := Drain(h);
    out := Reversed(up);
    ReversedOrder(up);
  }

  /** The final swap loop. */
  function Reversed<T>(s: seq<T>): (r: seq<T>)
    ensures |r| == |s| && forall i :: 0 <= i < |s| ==> r[i] == s[|s| - 1 - i]
  {
    seq(|s|, i requires 0 <= i < |s| => s[|s| - 1 - i])
  }

  lemma {:induction false} ReversedMultiset<T>(s: seq<T>)
    ensures multiset(Reversed(s)) == multiset(s)
    decreases |s|
  {
    if s != [] {
      var n := |s| - 1;
      ReversedMultiset(s[..n]);
      assert Reversed(s) == [s[n]] + Reversed(s[..n]);
      assert s == s[..n] + [s[n]];
    }
  }

  lemma ReversedOrder<T>(s: seq<Item<T>>)
    requires Ascending(s)
    ensures multiset(Reversed(s)) == multiset(s)
    ensures forall i, j :: 0 <= i < j < |s| ==> Reversed(s)[i].rank >= Reversed(s)[j].rank
  {
    ReversedMultiset(s);
  }
}
