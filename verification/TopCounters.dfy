/** The busiest apexes: from the bytes of the count space to what Top returns. */
module TopCounters {
  import opened ByteStrings
  import opened StoreModel
  import opened Heaps
  import opened Scans
  import opened Keys
  import Cursor

  /** The item of an apex's stored counter. */
  function ItemOf(counts: map<Bytes, nat>, a: Bytes): Item<ApexCount>
    requires a in counts
  {
    Item(counts[a], ApexCount(a, counts[a]))
  }

  /** Keys of the count space are 0xfe and the apex. */
  lemma CountRange(k: Bytes)
    ensures InRange(k, [0xfe], [0xff]) <==> k != [] && k[0] == 0xfe
  {
    if k != [] {
      assert [0xfe][1..] == [] && [0xff][1..] == [];
      assert !Less(k[1..], []);
    }
  }

  lemma EntryIsCounter(m: ByteDB, db: DB, e: Entry)
    requires RepsCounts(m, db.counts) && e.key in m && InRange(e.key, [0xfe], [0xff]) && e.value == m[e.key]
    ensures e.key != [] && e.key == [0xfe] + e.key[1..] && e.key[1..] in db.counts
    ensures var a := e.key[1..]; CounterOf(e) == Some(ApexCount(a, db.counts[a]))
  {
    hide BE8;
    CountRange(e.key);
    var a := e.key[1..];
    assert e.key == [0xfe] + a == CountKey(a);
    BE8Back(db.counts[a]);
  }

  lemma CountersOne(it: seq<Entry>, e: Entry, c: ApexCount)
    requires CounterOf(e) == Some(c)
    ensures Counters(it + [e]) == Counters(it) + [Item(c.count, c)]
  {
    assert (it + [e])[..|it|] == it;
  }

  /** Iterating the count space inspects one counter per entry: that of its apex. */
  lemma {:induction false} CountersAre(m: ByteDB, db: DB, it: seq<Entry>)
    requires RepsCounts(m, db.counts)
    requires forall i :: 0 <= i < |it| ==>
               it[i].key in m && InRange(it[i].key, [0xfe], [0xff]) && it[i].value == m[it[i].key]
    ensures |Counters(it)| == |it|
    ensures forall i :: 0 <= i < |it| ==>
              && it[i].key != [] && it[i].key == [0xfe] + it[i].key[1..] && it[i].key[1..] in db.counts
              && Counters(it)[i] == ItemOf(db.counts, it[i].key[1..])
    decreases |it|
  {
    hide RepsCounts, CounterOf, InRange, Counters;
    if it == [] {
      NoCounters();
    } else {
      var n := |it| - 1;
      CountersAre(m, db, it[..n]);
      EntryIsCounter(m, db, it[n]);
      CountersOne(it[..n], it[n], ApexCount(it[n].key[1..], db.counts[it[n].key[1..]]));
      assert it == it[..n] + [it[n]];
      forall i | 0 <= i < |it|
        ensures it[i].key != [] && it[i].key == [0xfe] + it[i].key[1..] && it[i].key[1..] in db.counts
        ensures Counters(it)[i] == ItemOf(db.counts, it[i].key[1..])
      {
        if i < n { assert it[..n][i] == it[i]; }
      }
    }
  }

  lemma NoCounters()
    ensures Counters([]) == []
  {
  }

  /** The item carries its apex's stored counter. */
  ghost predicate OwnCounter(counts: map<Bytes, nat>, x: Item<ApexCount>) {
    x.val.apex in counts && x == ItemOf(counts, x.val.apex)
  }

  /** The apex has no item in the list. */
  ghost predicate LeftOut(out: seq<Item<ApexCount>>, a: Bytes) {
    forall j :: 0 <= j < |out| ==> out[j].val.apex != a
  }

  /** All stored counters, each once. */
  ghost predicate AllCounters(counts: map<Bytes, nat>, items: seq<Item<ApexCount>>) {
    && (forall i :: 0 <= i < |items| ==> OwnCounter(counts, items[i]))
    && (forall a :: a in counts ==> exists i :: 0 <= i < |items| && items[i].val.apex == a)
    && (forall i, j :: 0 <= i < j < |items| ==> items[i].val.apex != items[j].val.apex)
  }

  lemma EntryOf(m: ByteDB, db: DB, it: seq<Entry>, a: Bytes) returns (i: nat)
    requires RepsCounts(m, db.counts) && a in db.counts && Cursor.IsIteration(m, [0xfe], [0xff], it)
    ensures i < |it| && it[i].key == [0xfe] + a
  {
    hide InRange, Less, BE8;
    CountKeyIs(a);
    CountRange(CountKey(a));
    i :| 0 <= i < |it| && it[i].key == CountKey(a);
  }

  lemma AllThere(m: ByteDB, db: DB, it: seq<Entry>, items: seq<Item<ApexCount>>)
    requires RepsCounts(m, db.counts) && Cursor.IsIteration(m, [0xfe], [0xff], it)
    requires |items| == |it| && forall i :: 0 <= i < |it| ==> it[i].key == [0xfe] + items[i].val.apex
    ensures forall a :: a in db.counts ==> exists i :: 0 <= i < |items| && items[i].val.apex == a
  {
    hide RepsCounts, Cursor.IsIteration;
    forall a | a in db.counts ensures exists i :: 0 <= i < |items| && items[i].val.apex == a {
      var i := EntryOf(m, db, it, a);
      assert ([0xfe] + a)[1..] == a && ([0xfe] + items[i].val.apex)[1..] == items[i].val.apex;
    }
  }

  lemma ItemsDistinct(it: seq<Entry>, items: seq<Item<ApexCount>>)
    requires |items| == |it| && forall i :: 0 <= i < |it| ==> it[i].key == [0xfe] + items[i].val.apex
    requires forall i, j :: 0 <= i < j < |it| ==> Less(it[i].key, it[j].key)
    ensures forall i, j :: 0 <= i < j < |items| ==> items[i].val.apex != items[j].val.apex
  {
    hide Less;
    forall i, j | 0 <= i < j < |items| ensures items[i].val.apex != items[j].val.apex {
      Cursor.LessIrreflexive(it[i].key);
      assert Less(it[i].key, it[j].key);
    }
  }

  lemma IterationIsCounters(m: ByteDB, db: DB, it: seq<Entry>)
    requires Represents(m, db) && Cursor.IsIteration(m, [0xfe], [0xff], it)
    ensures AllCounters(db.counts, Counters(it))
    ensures |it| == |db.counts|
  {
    hide RepsRecords, RepsNumber, RepsWMs, RepsCounts, CounterOf, Counters, Less, InRange;
    CountersAre(m, db, it);
    var items := Counters(it);
    ItemsDistinct(it, items);
    AllThere(m, db, it, items);
    AsMany(db.counts, items);
  }

  lemma CountKeyIs(a: Bytes)
    ensures CountKey(a) == [0xfe] + a && CountKey(a)[1..] == a
  {
  }

  lemma {:induction false} DistinctSize(items: seq<Item<ApexCount>>)
    requires forall i, j :: 0 <= i < j < |items| ==> items[i].val.apex != items[j].val.apex
    ensures |set x | x in items :: x.val.apex| == |items|
    decreases |items|
  {
    if items != [] {
      var n := |items| - 1;
      DistinctSize(items[..n]);
      var some, all := set x | x in items[..n] :: x.val.apex, set x | x in items :: x.val.apex;
      assert items == items[..n] + [items[n]];
      assert all == some + {items[n].val.apex};
      assert items[n].val.apex !in some;
    }
  }

  lemma AsMany(counts: map<Bytes, nat>, items: seq<Item<ApexCount>>)
    requires AllCounters(counts, items)
    ensures |items| == |counts|
  {
    DistinctSize(items);
    var apexes := set x | x in items :: x.val.apex;
    forall a ensures a in apexes <==> a in counts.Keys {
      if a in counts {
        var i :| 0 <= i < |items| && items[i].val.apex == a;
        assert items[i] in items;
      }
    }
    assert apexes == counts.Keys;
    assert |counts.Keys| == |counts|;
  }

  /** What Top's contract says of a database: the min(n, all) largest counters, each with
      its own apex, none left out that is larger than one that is in. */
  lemma TopOfDatabase(m: ByteDB, db: DB, it: seq<Entry>, n: nat, out: seq<Item<ApexCount>>)
    requires Represents(m, db) && Cursor.IsIteration(m, [0xfe], [0xff], it)
    requires KeepsLargest(multiset(Counters(Inspected(it, 0))), multiset(out), n)
    ensures |out| == if |db.counts| <= n then |db.counts| else n
    ensures forall i :: 0 <= i < |out| ==> OwnCounter(db.counts, out[i])
    ensures forall i, j :: 0 <= i < j < |out| ==> out[i].val.apex != out[j].val.apex
    ensures forall a, i :: a in db.counts && 0 <= i < |out| && LeftOut(out, a) ==> db.counts[a] <= out[i].val.count
  {
    hide Represents, Cursor.IsIteration, Counters;
    IterationIsCounters(m, db, it);
    InspectedAll(it);
    AsMany(db.counts, Counters(it));
    LargestAre(db.counts, Counters(it), out, n);
  }

  lemma InspectedAll(it: seq<Entry>)
    ensures Inspected(it, 0) == it
  {
  }

  /** A bounded Top looks at the first counters in key order. */
  lemma {:induction false} InspectedFirst(m: ByteDB, db: DB, it: seq<Entry>, maxIter: nat)
    requires Represents(m, db) && Cursor.IsIteration(m, [0xfe], [0xff], it) && maxIter > 0
    ensures var some := Counters(Inspected(it, maxIter));
            && |some| == (if |db.counts| <= maxIter then |db.counts| else maxIter)
            && some <= Counters(it)
  {
    hide RepsRecords, RepsNumber, RepsWMs, CounterOf, Counters, Less, InRange;
    IterationIsCounters(m, db, it);
    CountersAre(m, db, it);
    CountersAre(m, db, Inspected(it, maxIter));
  }

  lemma LargestAre(counts: map<Bytes, nat>, items: seq<Item<ApexCount>>, out: seq<Item<ApexCount>>, n: nat)
    requires AllCounters(counts, items) && KeepsLargest(multiset(items), multiset(out), n)
    ensures |out| == if |items| <= n then |items| else n
    ensures forall i :: 0 <= i < |out| ==> OwnCounter(counts, out[i])
    ensures forall i, j :: 0 <= i < j < |out| ==> out[i].val.apex != out[j].val.apex
    ensures forall a, i :: a in counts && 0 <= i < |out| && LeftOut(out, a) ==> counts[a] <= out[i].val.count
  {
    var all, kept := multiset(items), multiset(out);
    assert |multiset(items)| == |items| && |multiset(out)| == |out|;
    forall i | 0 <= i < |out| ensures out[i] in items { assert out[i] in kept; assert out[i] in all; }
    forall i, j | 0 <= i < j < |out| ensures out[i].val.apex != out[j].val.apex {
      OnceEach(items, out, i, j);
    }
    forall a, i | a in counts && 0 <= i < |out| && LeftOut(out, a)
      ensures counts[a] <= out[i].val.count
    {
      var k :| 0 <= k < |items| && items[k].val.apex == a;
      NotKept(items, out, k);
      assert items[k] in all - kept && out[i] in kept;
    }
  }

  /** What is in the list twice would be in all items twice. */
  lemma OnceEach(items: seq<Item<ApexCount>>, out: seq<Item<ApexCount>>, i: nat, j: nat)
    requires multiset(out) <= multiset(items) && i < j < |out| && out[i] in items && out[j] in items
    requires forall p, q :: 0 <= p < q < |items| ==> items[p].val.apex != items[q].val.apex
    ensures out[i].val.apex != out[j].val.apex
  {
    if out[i].val.apex == out[j].val.apex {
      var p :| 0 <= p < |items| && items[p] == out[i];
      var q :| 0 <= q < |items| && items[q] == out[j];
      assert out[i] == out[j];
      TwiceIn(out, i, j);
      AtMostOnce(items, out[i]);
      assert false;
    }
  }

  lemma TwiceIn<T>(s: seq<T>, i: nat, j: nat)
    requires i < j < |s| && s[i] == s[j]
    ensures multiset(s)[s[i]] >= 2
  {
    assert s == s[..j] + s[j..];
    assert s[i] == s[..j][i] && s[..j][i] in s[..j];
    assert s[j] == s[j..][0] && s[j..][0] in s[j..];
  }

  lemma {:induction false} AtMostOnce(items: seq<Item<ApexCount>>, x: Item<ApexCount>)
    requires forall p, q :: 0 <= p < q < |items| ==> items[p].val.apex != items[q].val.apex
    ensures multiset(items)[x] <= 1
    decreases |items|
  {
    if items != [] {
      var n := |items| - 1;
      AtMostOnce(items[..n], x);
      assert items == items[..n] + [items[n]];
      if items[n] == x { assert x !in items[..n]; }
    }
  }

  lemma NotKept(items: seq<Item<ApexCount>>, out: seq<Item<ApexCount>>, k: nat)
    requires k < |items| && forall j :: 0 <= j < |out| ==> out[j].val.apex != items[k].val.apex
    ensures items[k] in multiset(items) - multiset(out)
  {
    assert items[k] !in out;
    assert items[k] in multiset(items);
  }
}
