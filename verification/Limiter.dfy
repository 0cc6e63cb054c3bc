/** internal/server/limiter.go: a pruned, bounded, sharded log of admissions that
    agrees with counting over the whole admission history. */
module Limiter {
  import opened ByteStrings

  type Buckets = map<Bytes, seq<int>>

  const Second: int := 1_000_000_000

  /** Times and durations are nanoseconds. */
  datatype Config = Config(limit: int, window: int, maxBuckets: nat)

  datatype Verdict = Verdict(remaining: int, ok: bool, retryAfter: int)

  /** What is left of a hit list once everything before the cutoff is dropped from its front. */
  function DropBefore(hits: seq<int>, cutoff: int): seq<int> {
    if hits != [] && hits[0] < cutoff then DropBefore(hits[1..], cutoff) else hits
  }

  function Trim(buckets: Buckets, cutoff: int): Buckets {
    map k | k in buckets && DropBefore(buckets[k], cutoff) != [] :: DropBefore(buckets[k], cutoff)
  }

  function Hits(buckets: Buckets, key: Bytes): seq<int> { if key in buckets then buckets[key] else [] }

  /** The shard after the trim that an unknown key meets when the shard is full. */
  function MakeRoom(c: Config, buckets: Buckets, key: Bytes, now: int): Buckets {
    if |buckets| >= c.maxBuckets && Hits(buckets, key) == [] then Trim(buckets, now - c.window) else buckets
  }

  /** An unknown key is turned away from a shard that is still full. */
  predicate ShutOut(c: Config, buckets: Buckets, key: Bytes, now: int) {
    |buckets| >= c.maxBuckets && Hits(buckets, key) == [] && |Trim(buckets, now - c.window)| >= c.maxBuckets
  }

  function Max(a: int, b: int): int { if a >= b then a else b }

  /** One call against one shard. */
  function AllowIn(c: Config, buckets: Buckets, key: Bytes, now: int): (Buckets, Verdict)
    requires c.limit >= 1
  {
    var room := MakeRoom(c, buckets, key, now);
    if ShutOut(c, buckets, key, now) then (room, Verdict(0, false, c.window))
    else
      var hits := DropBefore(Hits(room, key), now - c.window);
      if |hits| >= c.limit then (room[key := hits], Verdict(0, false, Max(Second, c.window - (now - hits[0]))))
      else (room[key := hits + [now]], Verdict(c.limit - |hits| - 1, true, 0))
  }

  // ----- The object

  function Hash(key: Bytes): (h: nat)
    ensures h < 0x1_0000_0000
  {
    if key == [] then 0 else (Hash(key[..|key| - 1]) * 31 + key[|key| - 1]) % 0x1_0000_0000
  }

  function ShardOf(key: Bytes): nat { Hash(key) % 64 }

  function Pow31(n: nat): nat { if n == 0 then 1 else 31 * Pow31(n - 1) }

  /** The key as a number in base 31, its first byte the highest digit. */
  function Base31(key: Bytes): nat {
    if key == [] then 0 else key[0] * Pow31(|key| - 1) + Base31(key[1..])
  }

  lemma {:induction false} Base31One(key: Bytes, b: byte)
    ensures Base31(key + [b]) == 31 * Base31(key) + b
    decreases |key|
  {
    if key == [] {
      assert [b][1..] == [] && Pow31(0) == 1;
    } else {
      var n, rest := |key|, Base31(key[1..]);
      assert (key + [b])[1..] == key[1..] + [b];
      Base31One(key[1..], b);
      assert Pow31(n) == 31 * Pow31(n - 1);
      assert key[0] * Pow31(n) == 31 * (key[0] * Pow31(n - 1));
    }
  }

  /** The hash is that number, modulo 2^32; so the shard is the number modulo 64. */
  lemma {:induction false} HashIs(key: Bytes)
    ensures Hash(key) == Base31(key) % 0x1_0000_0000 && ShardOf(key) == Base31(key) % 64
    decreases |key|
  {
    if key != [] {
      var n := |key| - 1;
      HashIs(key[..n]);
      assert key == key[..n] + [key[n]];
      Base31One(key[..n], key[n]);
      Wrapped(Base31(key[..n]), key[n]);
    }
    Halved(Base31(key));
  }

  lemma Wrapped(a: nat, b: nat)
    ensures (a % 0x1_0000_0000 * 31 + b) % 0x1_0000_0000 == (31 * a + b) % 0x1_0000_0000
  {
    var q, r := a / 0x1_0000_0000, a % 0x1_0000_0000;
    assert 31 * a + b == 0x1_0000_0000 * (31 * q) + (r * 31 + b);
    ModuloAdd(31 * q, r * 31 + b);
  }

  lemma ModuloAdd(q: nat, r: nat)
    ensures (0x1_0000_0000 * q + r) % 0x1_0000_0000 == r % 0x1_0000_0000
  {
  }

  lemma Halved(a: nat)
    ensures a % 0x1_0000_0000 % 64 == a % 64
  {
    var q, r := a / 0x1_0000_0000, a % 0x1_0000_0000;
    assert a == 64 * (0x400_0000 * q) + r;
  }

  class RateLimiter {
    const config: Config
    const shards: array<Buckets>

    ghost predicate Valid()
      reads this
    {
      shards.Length == 64 && config.limit >= 1
    }

    constructor (config: Config)
      requires config.limit >= 1
      ensures Valid() && fresh(shards) && this.config == config
      ensures forall i :: 0 <= i < 64 ==> shards[i] == map[]
    {
      this.config := config;
      shards := new Buckets[64](_ => map[]);
    }

    method ShardIndex(key: Bytes) returns (i: nat)
      ensures i == ShardOf(key) && i < 64
    {
      var h: int := 0;
      for j := 0 to |key|
        invariant h == Hash(key[..j])
      {
        assert key[..j + 1][..j] == key[..j];
        h := (h * 31 + key[j]) % 0x1_0000_0000;
      }
      assert key[..|key|] == key;
      i := h % 64;
    }

    /** The pruning loop over a hit list. */
    method Expire(hits: seq<int>, cutoff: int) returns (rest: seq<int>)
      ensures rest == DropBefore(hits, cutoff)
    {
      var j := 0;
      while j < |hits| && hits[j] < cutoff
        invariant 0 <= j <= |hits| && DropBefore(hits[j..], cutoff) == DropBefore(hits, cutoff)
      {
        j := j + 1;
      }
      rest := hits[j..];
    }

    method TrimShard(i: nat, cutoff: int)
      requires Valid() && i < 64
      modifies shards
      ensures shards[i] == Trim(old(shards[i]), cutoff)
      ensures forall j :: 0 <= j < 64 && j != i ==> shards[j] == old(shards[j])
    {
      hide Trim;
      var buckets, todo := shards[i], shards[i].Keys;
      TrimNone(buckets, cutoff);
      while todo != {}
        invariant todo <= shards[i].Keys && forall j :: 0 <= j < 64 ==> shards[j] == old(shards[j])
        invariant buckets == Trimmed(shards[i], todo, cutoff)
        decreases |todo|
      {
        var k :| k in todo;
        var hits := Expire(shards[i][k], cutoff);
        TrimOne(shards[i], todo, k, cutoff);
        todo := todo - {k};
        if hits == [] {
          buckets := buckets - {k};
        } else {
          buckets := buckets[k := hits];
        }
      }
      TrimAll(shards[i], cutoff);
      shards[i] := buckets;
    }

    method Allow(key: Bytes, now: int) returns (v: Verdict)
      requires Valid()
      modifies shards
      ensures (shards[ShardOf(key)], v) == AllowIn(config, old(shards[ShardOf(key)]), key, now)
      ensures forall j :: 0 <= j < 64 && j != ShardOf(key) ==> shards[j] == old(shards[j])
    {
      hide Trim, DropBefore;
      var i := ShardIndex(key);
      if |shards[i]| >= config.maxBuckets && Hits(shards[i], key) == [] {
        TrimShard(i, now - config.window);
        if |shards[i]| >= config.maxBuckets {
          return Verdict(0, false, config.window);
        }
      }
      var hits := Expire(Hits(shards[i], key), now - config.window);
      if |hits| >= config.limit {
        var retry := config.window - (now - hits[0]);
        if retry < Second {
          retry := Second;
        }
        shards[i] := shards[i][key := hits];
        return Verdict(0, false, retry);
      }
      hits := hits + [now];
      shards[i] := shards[i][key := hits];
      return Verdict(config.limit - |hits|, true, 0);
    }

    method Sweep(now: int)
      requires Valid()
      modifies shards
      ensures forall j :: 0 <= j < 64 ==> shards[j] == Trim(old(shards[j]), now - config.window)
    {
      hide Trim;
      for i := 0 to 64
        invariant forall j :: 0 <= j < i ==> shards[j] == Trim(old(shards[j]), now - config.window)
        invariant forall j :: i <= j < 64 ==> shards[j] == old(shards[j])
      {
        TrimShard(i, now - config.window);
      }
    }
  }

  /** A shard part of whose keys, all but todo, has been trimmed. */
  ghost function Trimmed(buckets: Buckets, todo: set<Bytes>, cutoff: int): Buckets {
    map k | k in buckets && (k in todo || DropBefore(buckets[k], cutoff) != []) ::
      if k in todo then buckets[k] else DropBefore(buckets[k], cutoff)
  }

  lemma TrimNone(buckets: Buckets, cutoff: int)
    ensures Trimmed(buckets, buckets.Keys, cutoff) == buckets
  {
  }

  lemma TrimOne(buckets: Buckets, todo: set<Bytes>, k: Bytes, cutoff: int)
    requires k in todo && todo <= buckets.Keys
    ensures var t, hits := Trimmed(buckets, todo, cutoff), DropBefore(buckets[k], cutoff);
            Trimmed(buckets, todo - {k}, cutoff) == if hits == [] then t - {k} else t[k := hits]
  {
    hide DropBefore;
  }

  lemma TrimAll(buckets: Buckets, cutoff: int)
    ensures Trimmed(buckets, {}, cutoff) == Trim(buckets, cutoff)
  {
  }

  // ----- The reference: counting over the full history of admissions

  /** How many admissions lie in the closed interval [lo, hi]. */
  function Count(history: seq<int>, lo: int, hi: int): (n: nat)
    ensures n <= |history|
  {
    if history == [] then 0
    else
      var n := |history| - 1;
      Count(history[..n], lo, hi) + if lo <= history[n] <= hi then 1 else 0
  }

  ghost predicate Sorted(h: seq<int>) { forall i, j :: 0 <= i < j < |h| ==> h[i] <= h[j] }

  /** The admissions of a key so far. */
  function Past(history: Buckets, key: Bytes): seq<int> { Hits(history, key) }

  /** The bucket is the history without some admissions too old to matter at time t. */
  ghost predicate Recent(c: Config, bucket: seq<int>, past: seq<int>, t: int) {
    exists i :: 0 <= i <= |past| && bucket == past[i..] && forall j :: 0 <= j < i ==> past[j] < t - c.window
  }

  /** One shard, the history of the keys in it, and the time of the last call. */
  datatype Shard = Shard(buckets: Buckets, history: Buckets, time: int)

  /** Consecutive admissions are spread so that `limit` of them never fit in a window. */
  ghost predicate Spread(c: Config, past: seq<int>) {
    c.limit >= 1 && forall j :: 0 <= j < j + c.limit < |past| ==> past[j] < past[j + c.limit] - c.window
  }

  ghost predicate KeyInv(c: Config, s: Shard, key: Bytes) {
    var past, bucket := Past(s.history, key), Hits(s.buckets, key);
    && Sorted(past) && (forall i :: 0 <= i < |past| ==> past[i] <= s.time)
    && Recent(c, bucket, past, s.time) && Spread(c, past)
    && |bucket| <= c.limit && (key in s.buckets ==> bucket != [])
  }

  ghost predicate Inv(c: Config, s: Shard) {
    c.limit >= 1 && c.window >= 0 && |s.buckets| <= c.maxBuckets && forall key :: KeyInv(c, s, key)
  }

  lemma {:induction false} DropSuffix(past: seq<int>, i: nat, cutoff: int)
    requires i <= |past| && forall j :: 0 <= j < i ==> past[j] < cutoff
    ensures DropBefore(past[i..], cutoff) == DropBefore(past, cutoff)
    decreases i
  {
    if i > 0 {
      DropSuffix(past, i - 1, cutoff);
      assert past[i - 1..][1..] == past[i..];
    } else {
      assert past[0..] == past;
    }
  }

  /** Dropping leaves a suffix that starts at the cutoff. */
  lemma {:induction false} DropShape(h: seq<int>, cutoff: int) returns (i: nat)
    ensures i <= |h| && DropBefore(h, cutoff) == h[i..]
    ensures forall j :: 0 <= j < i ==> h[j] < cutoff
    ensures i < |h| ==> h[i] >= cutoff
    decreases |h|
  {
    if h != [] && h[0] < cutoff {
      var k := DropShape(h[1..], cutoff);
      i := k + 1;
      assert h[1..][k..] == h[i..];
      forall j | 0 <= j < i ensures h[j] < cutoff { if j > 0 { assert h[j] == h[1..][j - 1]; } }
    } else {
      i := 0;
    }
  }

  lemma {:induction false} CountSuffix(h: seq<int>, i: nat, lo: int, hi: int)
    requires i <= |h| && (forall j :: 0 <= j < i ==> h[j] < lo) && (forall j :: i <= j < |h| ==> lo <= h[j] <= hi)
    ensures Count(h, lo, hi) == |h| - i
    decreases |h|
  {
    if h != [] {
      var n := |h| - 1;
      if i <= n { CountSuffix(h[..n], i, lo, hi); } else { CountSuffix(h[..n], n, lo, hi); }
    }
  }

  /** Pruned or not, the list at the cutoff has as many hits as the history has
      admissions in the window. */
  lemma PrunedCount(c: Config, bucket: seq<int>, past: seq<int>, t: int, now: int)
    requires t <= now && c.window >= 0 && Recent(c, bucket, past, t) && Sorted(past)
    requires forall i :: 0 <= i < |past| ==> past[i] <= t
    ensures DropBefore(bucket, now - c.window) == DropBefore(past, now - c.window)
    ensures |DropBefore(bucket, now - c.window)| == Count(past, now - c.window, now)
    ensures Recent(c, DropBefore(bucket, now - c.window), past, now)
  {
    hide DropBefore, Count;
    var cutoff := now - c.window;
    var i :| 0 <= i <= |past| && bucket == past[i..] && forall j :: 0 <= j < i ==> past[j] < t - c.window;
    DropSuffix(past, i, cutoff);
    var k := DropShape(past, cutoff);
    CountSuffix(past, k, cutoff, now);
  }

  /** A spread history never puts more than `limit` admissions into a closed window. */
  lemma {:induction false} SpreadBounds(c: Config, past: seq<int>, x: int)
    requires c.limit >= 1 && Sorted(past) && Spread(c, past)
    ensures Count(past, x, x + c.window) <= c.limit
    decreases |past|
  {
    if past != [] {
      var n := |past| - 1;
      if !(x <= past[n] <= x + c.window) {
        SpreadBounds(c, past[..n], x);
      } else if n >= c.limit {
        SpreadTail(c, past, x);
      }
    }
  }

  lemma SpreadTail(c: Config, past: seq<int>, x: int)
    requires Sorted(past) && Spread(c, past) && |past| > c.limit && past[|past| - 1] <= x + c.window
    ensures Count(past, x, x + c.window) <= c.limit
  {
    var n := |past| - 1;
    var m := n + 1 - c.limit;
    assert past[m - 1] < past[m - 1 + c.limit] - c.window;
    SplitCount(past, m, x, x + c.window);
    AllBefore(past[..m], x, x + c.window);
  }

  lemma {:induction false} SplitCount(h: seq<int>, i: nat, lo: int, hi: int)
    requires i <= |h|
    ensures Count(h, lo, hi) == Count(h[..i], lo, hi) + Count(h[i..], lo, hi)
    decreases |h|
  {
    if i == |h| {
      assert h[..i] == h && h[i..] == [];
    } else {
      var n := |h| - 1;
      SplitCount(h[..n], i, lo, hi);
      assert h[..n][..i] == h[..i] && h[..n][i..] == h[i..][..n - i];
    }
  }

  lemma {:induction false} AllBefore(h: seq<int>, lo: int, hi: int)
    requires forall i :: 0 <= i < |h| ==> h[i] < lo
    ensures Count(h, lo, hi) == 0
    decreases |h|
  {
    if h != [] {
      AllBefore(h[..|h| - 1], lo, hi);
    }
  }

  // ----- Calls and sweeps in any order, at times that never run backwards

  datatype Call = Allow(key: Bytes, now: int) | Sweep(now: int)

  function Step(c: Config, s: Shard, call: Call): Shard
    requires c.limit >= 1
  {
    match call
    case Allow(key, now) =>
      var (buckets, v) := AllowIn(c, s.buckets, key, now);
      Shard(buckets, if v.ok then s.history[key := Past(s.history, key) + [now]] else s.history, now)
    case Sweep(now) => s.(buckets := Trim(s.buckets, now - c.window), time := now)
  }

  /** The reference limiter: what a key that was admitted at the times `past` is told,
      by counting alone. A denied key is told to wait until the oldest admission of the
      window has left it. */
  function Judge(c: Config, past: seq<int>, now: int): Verdict
    requires c.limit >= 1
  {
    var n := Count(past, now - c.window, now);
    if n < c.limit then Verdict(c.limit - n - 1, true, 0)
    else Verdict(0, false, Max(Second, past[|past| - n] + c.window - now))
  }

  /** A call from any state that satisfies the invariant: the whole verdict is that of
      the reference limiter unless the key is unknown to a full shard. */
  lemma VerdictIsCount(c: Config, s: Shard, key: Bytes, now: int)
    requires Inv(c, s) && s.time <= now && !ShutOut(c, s.buckets, key, now)
    ensures AllowIn(c, s.buckets, key, now).1 == Judge(c, Past(s.history, key), now)
  {
    hide DropBefore, Count, Sorted, Recent, Spread;
    var past, bucket := Past(s.history, key), Hits(s.buckets, key);
    assert KeyInv(c, s, key);
    PrunedCount(c, bucket, past, s.time, now);
    RoomKeepsHits(c, s.buckets, key, now);
    var i := DropShape(past, now - c.window);
  }

  /** Making room never touches the hits of the key itself, nor any hit in the window. */
  lemma RoomKeepsHits(c: Config, buckets: Buckets, key: Bytes, now: int)
    ensures Hits(MakeRoom(c, buckets, key, now), key) == Hits(buckets, key)
  {
    if Hits(buckets, key) == [] {
      assert DropBefore([], now - c.window) == [];
    }
  }

  /** The admissions in the closed interval [lo, hi], by their places. */
  ghost function Inside(h: seq<int>, lo: int, hi: int): set<nat> { set i: nat | i < |h| && lo <= h[i] <= hi }

  lemma {:induction false} CountIs(h: seq<int>, lo: int, hi: int)
    ensures Count(h, lo, hi) == |Inside(h, lo, hi)|
    decreases |h|
  {
    if h == [] {
      assert Inside(h, lo, hi) == {};
    } else {
      var n := |h| - 1;
      CountIs(h[..n], lo, hi);
      assert Inside(h, lo, hi) == Inside(h[..n], lo, hi) + if lo <= h[n] <= hi then {n} else {};
    }
  }

  /** The oldest admission in a window. */
  ghost predicate Oldest(h: seq<int>, window: set<nat>, i: nat)
    requires forall j :: j in window ==> j < |h|
  {
    i in window && forall j :: j in window ==> h[i] <= h[j]
  }

  lemma OldestIs(h: seq<int>, lo: int, hi: int)
    requires Sorted(h) && (forall i :: 0 <= i < |h| ==> h[i] <= hi) && Count(h, lo, hi) > 0
    ensures Oldest(h, Inside(h, lo, hi), |h| - Count(h, lo, hi))
  {
    hide Count, DropBefore;
    var k := DropShape(h, lo);
    CountSuffix(h, k, lo, hi);
  }

  /** The reference limiter in these terms: a call is admitted exactly if fewer than limit
      earlier admissions lie in the closed window that ends with it; a denied one is to wait
      until the oldest of them has left the window, and at least a second. */
  lemma JudgeIs(c: Config, past: seq<int>, now: int)
    requires c.limit >= 1 && c.window >= 0 && Sorted(past) && forall i :: 0 <= i < |past| ==> past[i] <= now
    ensures var v, window := Judge(c, past, now), Inside(past, now - c.window, now);
            && (v.ok <==> |window| < c.limit)
            && (v.ok ==> v.remaining == c.limit - |window| - 1 && v.retryAfter == 0)
            && (!v.ok ==> v.remaining == 0 && exists i: nat :: Oldest(past, window, i) && WaitsFor(c, past[i], now, v))
  {
    hide Count, Inside, Oldest;
    CountIs(past, now - c.window, now);
    if Count(past, now - c.window, now) >= c.limit { OldestIs(past, now - c.window, now); }
  }

  /** The wait until that admission has left the window, and at least a second. */
  ghost predicate WaitsFor(c: Config, admitted: int, now: int, v: Verdict) {
    var wait := admitted + c.window - now;
    v.retryAfter == if wait >= 1_000_000_000 then wait else 1_000_000_000
  }

  // ----- The invariant

  lemma RecentLater(c: Config, bucket: seq<int>, past: seq<int>, t: int, now: int)
    requires Recent(c, bucket, past, t) && t <= now
    ensures Recent(c, bucket, past, now)
  {
  }

  lemma TrimHits(buckets: Buckets, key: Bytes, cutoff: int)
    ensures Hits(Trim(buckets, cutoff), key) == DropBefore(Hits(buckets, key), cutoff)
    ensures key in Trim(buckets, cutoff) ==> Hits(Trim(buckets, cutoff), key) != []
  {
  }

  lemma {:induction false} TrimSmaller(buckets: Buckets, cutoff: int)
    ensures |Trim(buckets, cutoff)| <= |buckets|
  {
    var t := Trim(buckets, cutoff);
    assert t.Keys <= buckets.Keys;
    Smaller(t.Keys, buckets.Keys);
    assert |t| == |t.Keys| && |buckets| == |buckets.Keys|;
  }

  lemma {:induction false} DropShorter(h: seq<int>, cutoff: int)
    ensures |DropBefore(h, cutoff)| <= |h|
    decreases |h|
  {
    if h != [] && h[0] < cutoff {
      DropShorter(h[1..], cutoff);
    }
  }

  lemma KeyTrim(c: Config, s: Shard, key: Bytes, now: int)
    requires c.window >= 0 && KeyInv(c, s, key) && s.time <= now
    ensures KeyInv(c, s.(buckets := Trim(s.buckets, now - c.window), time := now), key)
  {
    hide DropBefore, Trim, Recent, Spread, Count;
    PrunedCount(c, Hits(s.buckets, key), Past(s.history, key), s.time, now);
    TrimHits(s.buckets, key, now - c.window);
    DropShorter(Hits(s.buckets, key), now - c.window);
  }

  lemma InvTrim(c: Config, s: Shard, now: int)
    requires Inv(c, s) && s.time <= now
    ensures Inv(c, s.(buckets := Trim(s.buckets, now - c.window), time := now))
  {
    hide KeyInv, Trim;
    TrimSmaller(s.buckets, now - c.window);
    var t := s.(buckets := Trim(s.buckets, now - c.window), time := now);
    forall key ensures KeyInv(c, t, key) { KeyTrim(c, s, key, now); }
  }

  lemma InvLater(c: Config, s: Shard, now: int)
    requires Inv(c, s) && s.time <= now
    ensures Inv(c, s.(time := now))
  {
    hide Recent, Spread;
    forall key ensures KeyInv(c, s.(time := now), key) {
      assert KeyInv(c, s, key);
      RecentLater(c, Hits(s.buckets, key), Past(s.history, key), s.time, now);
    }
  }

  lemma InvRoom(c: Config, s: Shard, key: Bytes, now: int)
    requires Inv(c, s) && s.time <= now
    ensures Inv(c, s.(buckets := MakeRoom(c, s.buckets, key, now), time := now))
  {
    hide Inv, Trim;
    InvTrim(c, s, now);
    InvLater(c, s, now);
  }

  /** Another key's bucket, history and invariant are untouched by a call. */
  lemma KeyElsewhere(c: Config, s: Shard, key: Bytes, hits: seq<int>, past: seq<int>, other: Bytes)
    requires KeyInv(c, s, other) && other != key
    ensures KeyInv(c, s.(buckets := s.buckets[key := hits], history := s.history[key := past]), other)
    ensures KeyInv(c, s.(buckets := s.buckets[key := hits]), other)
  {
  }

  lemma KeyDenied(c: Config, s: Shard, key: Bytes, hits: seq<int>)
    requires c.limit >= 1 && KeyInv(c, s, key) &&
             c.limit <= |hits| <= c.limit && Recent(c, hits, Past(s.history, key), s.time)
    ensures KeyInv(c, s.(buckets := s.buckets[key := hits]), key)
  {
  }

  lemma RecentAdmit(c: Config, hits: seq<int>, past: seq<int>, now: int)
    requires Recent(c, hits, past, now)
    ensures Recent(c, hits + [now], past + [now], now)
  {
    var i :| 0 <= i <= |past| && hits == past[i..] && forall j :: 0 <= j < i ==> past[j] < now - c.window;
    assert (past + [now])[i..] == past[i..] + [now];
  }

  /** A new admission keeps the history spread. */
  lemma SpreadAdmit(c: Config, past: seq<int>, now: int)
    requires c.limit >= 1 && Sorted(past) && Spread(c, past) && |DropBefore(past, now - c.window)| < c.limit
    ensures Spread(c, past + [now])
  {
    hide DropBefore;
    var k := DropShape(past, now - c.window);
    var h := past + [now];
    forall j | 0 <= j < j + c.limit < |h| ensures h[j] < h[j + c.limit] - c.window {
      if j + c.limit < |past| {
        assert past[j] < past[j + c.limit] - c.window;
      }
    }
  }

  lemma KeyAdmitted(c: Config, s: Shard, key: Bytes, hits: seq<int>)
    requires c.limit >= 1 && KeyInv(c, s, key) && |hits| < c.limit && Recent(c, hits, Past(s.history, key), s.time)
    requires |DropBefore(Past(s.history, key), s.time - c.window)| < c.limit
    ensures KeyInv(c, s.(buckets := s.buckets[key := hits + [s.time]],
            history := s.history[key := Past(s.history, key) + [s.time]]), key)
  {
    hide DropBefore, Recent, Spread;
    var past := Past(s.history, key);
    RecentAdmit(c, hits, past, s.time);
    SpreadAdmit(c, past, s.time);
  }

  lemma InvSet(c: Config, s: Shard, key: Bytes, hits: seq<int>, past: seq<int>)
    requires Inv(c, s) && (key in s.buckets || |s.buckets| < c.maxBuckets)
    requires KeyInv(c, s.(buckets := s.buckets[key := hits], history := s.history[key := past]), key)
    ensures Inv(c, s.(buckets := s.buckets[key := hits], history := s.history[key := past]))
  {
    hide KeyInv;
    var t := s.(buckets := s.buckets[key := hits], history := s.history[key := past]);
    forall other ensures KeyInv(c, t, other) {
      if other != key { KeyElsewhere(c, s, key, hits, past, other); }
    }
    assert t.buckets.Keys == s.buckets.Keys + {key};
    assert |t.buckets| == |t.buckets.Keys| && |s.buckets| == |s.buckets.Keys|;
  }

  lemma RoomLeft(c: Config, buckets: Buckets, key: Bytes, now: int)
    requires !ShutOut(c, buckets, key, now)
    ensures var room := MakeRoom(c, buckets, key, now); key in room || |room| < c.maxBuckets
  {
    hide Trim;
  }

  /** The call once room has been made: r is the shard at time `now`. */
  lemma InvCall(c: Config, r: Shard, key: Bytes)
    requires Inv(c, r) && (key in r.buckets || |r.buckets| < c.maxBuckets)
    ensures var past, hits := Past(r.history, key), DropBefore(Hits(r.buckets, key), r.time - c.window);
            if |hits| >= c.limit then Inv(c, r.(buckets := r.buckets[key := hits]))
            else Inv(c, r.(buckets := r.buckets[key := hits + [r.time]], history := r.history[key := past + [r.time]]))
  {
    hide KeyInv, DropBefore, Count, Inv, Recent, Sorted;
    var past, hits := Past(r.history, key), DropBefore(Hits(r.buckets, key), r.time - c.window);
    KeyParts(c, r, key);
    PrunedCount(c, Hits(r.buckets, key), past, r.time, r.time);
    DropShorter(Hits(r.buckets, key), r.time - c.window);
    if |hits| >= c.limit {
      KeyDenied(c, r, key, hits);
      HistorySame(r.history, key, hits, r.time - c.window);
      InvSet(c, r, key, hits, past);
    } else {
      KeyAdmitted(c, r, key, hits);
      InvSet(c, r, key, hits + [r.time], past + [r.time]);
    }
  }

  lemma InvAllow(c: Config, s: Shard, key: Bytes, now: int)
    requires Inv(c, s) && s.time <= now
    ensures Inv(c, Step(c, s, Allow(key, now)))
  {
    hide Inv, MakeRoom, DropBefore, ShutOut;
    KeyParts(c, s, key);
    InvRoom(c, s, key, now);
    if !ShutOut(c, s.buckets, key, now) {
      RoomLeft(c, s.buckets, key, now);
      InvCall(c, s.(buckets := MakeRoom(c, s.buckets, key, now), time := now), key);
    }
  }

  lemma KeyParts(c: Config, s: Shard, key: Bytes)
    requires Inv(c, s)
    ensures var past, bucket := Past(s.history, key), Hits(s.buckets, key);
            && c.limit >= 1 && c.window >= 0 && KeyInv(c, s, key) && Sorted(past) &&
               (forall i :: 0 <= i < |past| ==> past[i] <= s.time)
            && Recent(c, bucket, past, s.time) && |bucket| <= c.limit
  {
    assert KeyInv(c, s, key);
  }

  lemma HistorySame(history: Buckets, key: Bytes, hits: seq<int>, cutoff: int)
    requires hits != [] && hits == DropBefore(Past(history, key), cutoff)
    ensures history[key := Past(history, key)] == history
  {
  }

  /** Calls at times that never run backwards. */
  predicate Ordered(from: int, calls: seq<Call>)
    decreases |calls|
  {
    calls == [] || (from <= calls[0].now && Ordered(calls[0].now, calls[1..]))
  }

  ghost function Run(c: Config, s: Shard, calls: seq<Call>): Shard
    requires c.limit >= 1
    decreases |calls|
  {
    if calls == [] then s else Run(c, Step(c, s, calls[0]), calls[1..])
  }

  lemma StepInv(c: Config, s: Shard, call: Call)
    requires Inv(c, s) && s.time <= call.now
    ensures Inv(c, Step(c, s, call)) && Step(c, s, call).time == call.now
  {
    hide KeyInv, AllowIn, Trim;
    match call
    case Allow(key, now) => InvAllow(c, s, key, now);
    case Sweep(now) => InvTrim(c, s, now);
  }

  lemma {:induction false} RunInv(c: Config, s: Shard, calls: seq<Call>)
    requires Inv(c, s) && Ordered(s.time, calls)
    ensures Inv(c, Run(c, s, calls))
    decreases |calls|
  {
    hide Inv, Step;
    if calls != [] {
      StepInvHidden(c, s, calls[0]);
      RunInv(c, Step(c, s, calls[0]), calls[1..]);
    }
  }

  lemma StepInvHidden(c: Config, s: Shard, call: Call)
    requires Inv(c, s) && s.time <= call.now
    ensures c.limit >= 1 && Inv(c, Step(c, s, call)) && Step(c, s, call).time == call.now
  {
    hide KeyInv, Step;
    StepInv(c, s, call);
  }

  const Start := Shard(map[], map[], 0)

  lemma StartInv(c: Config, time: int)
    requires c.limit >= 1 && c.window >= 0
    ensures Inv(c, Start.(time := time))
  {
    forall key ensures KeyInv(c, Start.(time := time), key) {
      var past: seq<int> := [];
      assert past[0..] == [];
      assert Recent(c, [], past, time);
    }
  }

  /** After any calls and sweeps, the next verdict for a key that is known or finds
      room is that of counting its own admissions in the closed window; only an unknown
      key is ever shut out; the shard never tracks more than maxBuckets keys; and no
      closed window ever holds more than `limit` admissions of a key. */
  lemma {:induction false} SlidingWindow(c: Config, time: int, calls: seq<Call>, key: Bytes, now: int, x: int)
    requires c.limit >= 1 && c.window >= 0
    requires Ordered(time, calls) && Run(c, Start.(time := time), calls).time <= now
    ensures var s := Run(c, Start.(time := time), calls);
            && |s.buckets| <= c.maxBuckets
            && Count(Past(s.history, key), x, x + c.window) <= c.limit
            && AllowIn(c, s.buckets, key, now).1 ==
               (if ShutOut(c, s.buckets, key, now) then Verdict(0, false, c.window)
                 else Judge(c, Past(s.history, key), now))
            && (ShutOut(c, s.buckets, key, now) ==> Hits(s.buckets, key) == [])
  {
    hide Run, KeyInv, Count, DropBefore, Trim, Judge;
    StartInv(c, time);
    RunInv(c, Start.(time := time), calls);
    var s := Run(c, Start.(time := time), calls);
    KeySpread(c, s, key);
    SpreadBounds(c, Past(s.history, key), x);
    if !ShutOut(c, s.buckets, key, now) { VerdictIsCount(c, s, key, now); }
  }

  lemma KeySpread(c: Config, s: Shard, key: Bytes)
    requires Inv(c, s)
    ensures Sorted(Past(s.history, key)) && Spread(c, Past(s.history, key))
  {
    assert KeyInv(c, s, key);
  }

  // ----- Sweeps

  /** What every call is told, and whether it was shut out. */
  ghost function Answers(c: Config, s: Shard, calls: seq<Call>): seq<(Verdict, bool)>
    requires c.limit >= 1
    decreases |calls|
  {
    if calls == [] then []
    else
      (match calls[0]
       case Allow(key, now) => [(AllowIn(c, s.buckets, key, now).1, ShutOut(c, s.buckets, key, now))]
       case Sweep(_) => []) + Answers(c, Step(c, s, calls[0]), calls[1..])
  }

  function WithoutSweeps(calls: seq<Call>): seq<Call>
    decreases |calls|
  {
    if calls == [] then []
    else if calls[0].Sweep? then WithoutSweeps(calls[1..])
    else [calls[0]] + WithoutSweeps(calls[1..])
  }

  /** Two shards that agree once both are trimmed: t has missed some sweeps of s. */
  ghost predicate Alike(c: Config, s: Shard, t: Shard) {
    && Inv(c, s) && Inv(c, t) && t.time <= s.time && s.history == t.history
    && Trim(s.buckets, s.time - c.window) == Trim(t.buckets, s.time - c.window)
  }

  lemma {:induction false} DropTwice(h: seq<int>, x: int, y: int)
    requires x <= y
    ensures DropBefore(DropBefore(h, x), y) == DropBefore(h, y)
    decreases |h|
  {
    if h != [] && h[0] < x {
      DropTwice(h[1..], x, y);
    }
  }

  /** A trim that a later one follows may be left out. */
  lemma TrimTwice(buckets: Buckets, x: int, y: int)
    requires x <= y
    ensures Trim(Trim(buckets, x), y) == Trim(buckets, y)
  {
    hide DropBefore;
    forall k | k in buckets ensures DropBefore(DropBefore(buckets[k], x), y) == DropBefore(buckets[k], y) {
      DropTwice(buckets[k], x, y);
    }
    if DropBefore([], y) != [] { var i := DropShape([], y); }
  }

  lemma AlikeLater(c: Config, s: Shard, t: Shard, now: int)
    requires Alike(c, s, t) && s.time <= now
    ensures Trim(s.buckets, now - c.window) == Trim(t.buckets, now - c.window)
  {
    hide Trim, Inv;
    TrimTwice(s.buckets, s.time - c.window, now - c.window);
    TrimTwice(t.buckets, s.time - c.window, now - c.window);
  }

  /** Who is shut out depends on the trimmed shard alone: a shard never holds more than
      maxBuckets keys, so if it is full after the trim it had no stale key before. */
  lemma ShutOutIff(c: Config, s: Shard, key: Bytes, now: int)
    requires Inv(c, s)
    ensures var left := Trim(s.buckets, now - c.window);
            ShutOut(c, s.buckets, key, now) <==> |left| >= c.maxBuckets && key !in left
  {
    hide Trim, KeyInv;
    var left := Trim(s.buckets, now - c.window);
    NoEmptyBucket(c, s, key);
    TrimKeys(s.buckets, now - c.window);
    assert |left| == |left.Keys| && |s.buckets| == |s.buckets.Keys|;
    Smaller(left.Keys, s.buckets.Keys);
    if |left| >= c.maxBuckets { AllOf(left.Keys, s.buckets.Keys); }
  }

  lemma NoEmptyBucket(c: Config, s: Shard, key: Bytes)
    requires Inv(c, s)
    ensures key in s.buckets <==> Hits(s.buckets, key) != []
  {
    assert KeyInv(c, s, key);
  }

  lemma TrimKeys(buckets: Buckets, cutoff: int)
    ensures Trim(buckets, cutoff).Keys <= buckets.Keys
  {
  }

  lemma AllOf(a: set<Bytes>, b: set<Bytes>)
    requires a <= b && |b| <= |a|
    ensures a == b
  {
    assert b == a + (b - a);
  }

  /** The keys with an admission in the window that ends now. */
  ghost function Busy(c: Config, s: Shard, now: int): set<Bytes> {
    set k | k in s.history && Count(s.history[k], now - c.window, now) > 0
  }

  /** A key is shut out exactly if it has no admission in the window and as many others have
      one as the shard may track. */
  lemma ShutOutIsFull(c: Config, s: Shard, key: Bytes, now: int)
    requires Inv(c, s) && s.time <= now
    ensures ShutOut(c, s.buckets, key, now) <==> |Busy(c, s, now)| >= c.maxBuckets && key !in Busy(c, s, now)
  {
    hide Inv, ShutOut, Trim, Count, DropBefore, Recent, Sorted, Spread;
    var busy := Busy(c, s, now);
    var left := Trim(s.buckets, now - c.window);
    ShutOutIff(c, s, key, now);
    forall k ensures k in left <==> k in busy {
      KeyParts(c, s, k);
      PrunedCount(c, Hits(s.buckets, k), Past(s.history, k), s.time, now);
      KeptIff(s.buckets, k, now - c.window);
      NoPast(now - c.window, now);
    }
    assert left.Keys == busy;
    assert |left| == |left.Keys|;
  }

  lemma KeptIff(buckets: Buckets, k: Bytes, cutoff: int)
    ensures k in Trim(buckets, cutoff) <==> DropBefore(Hits(buckets, k), cutoff) != []
  {
    if DropBefore([], cutoff) != [] { var i := DropShape([], cutoff); }
  }

  lemma NoPast(lo: int, hi: int)
    ensures Count([], lo, hi) == 0
  {
  }

  lemma TrimSet(buckets: Buckets, key: Bytes, hits: seq<int>, cutoff: int)
    ensures Trim(buckets[key := hits], cutoff) ==
            if DropBefore(hits, cutoff) == [] then Trim(buckets, cutoff) - {key}
            else Trim(buckets, cutoff)[key := DropBefore(hits, cutoff)]
  {
    hide DropBefore;
  }

  /** What is kept at a cutoff is kept again. */
  lemma KeptAgain(h: seq<int>, cutoff: int, now: int)
    requires cutoff <= now
    ensures var kept := DropBefore(h, cutoff);
            && DropBefore(kept, cutoff) == kept
            && DropBefore(kept + [now], cutoff) == kept + [now]
  {
    var i := DropShape(h, cutoff);
  }

  /** A call depends only on the shard as trimmed at its time, and so does the shard
      it leaves. */
  lemma AllowTrimmed(c: Config, s: Shard, key: Bytes, now: int)
    requires Inv(c, s) && !ShutOut(c, s.buckets, key, now)
    ensures var left := Trim(s.buckets, now - c.window);
            var (after, verdict) := AllowIn(c, s.buckets, key, now);
            var hits := Hits(left, key);
            if |hits| >= c.limit then
              && verdict == Verdict(0, false, Max(Second, c.window - (now - hits[0])))
              && Trim(after, now - c.window) == left[key := hits]
            else
              && verdict == Verdict(c.limit - |hits| - 1, true, 0)
              && Trim(after, now - c.window) == left[key := hits + [now]]
  {
    hide DropBefore, Trim, KeyInv, ShutOut;
    var cutoff, room := now - c.window, MakeRoom(c, s.buckets, key, now);
    var hits := DropBefore(Hits(room, key), cutoff);
    RoomKeepsHits(c, s.buckets, key, now);
    TrimHits(s.buckets, key, cutoff);
    TrimTwice(s.buckets, cutoff, cutoff);
    KeptAgain(Hits(room, key), cutoff, now);
    TrimSet(room, key, hits, cutoff);
    TrimSet(room, key, hits + [now], cutoff);
  }

  lemma AlikeAllow(c: Config, s: Shard, t: Shard, key: Bytes, now: int)
    requires Alike(c, s, t) && s.time <= now
    ensures AllowIn(c, s.buckets, key, now).1 == AllowIn(c, t.buckets, key, now).1
    ensures ShutOut(c, s.buckets, key, now) == ShutOut(c, t.buckets, key, now)
    ensures Alike(c, Step(c, s, Allow(key, now)), Step(c, t, Allow(key, now)))
  {
    hide DropBefore, Trim, KeyInv, ShutOut, Inv;
    InvAllow(c, s, key, now);
    InvAllow(c, t, key, now);
    KeyParts(c, s, key);
    AlikeLater(c, s, t, now);
    ShutOutIff(c, s, key, now);
    ShutOutIff(c, t, key, now);
    if ShutOut(c, s.buckets, key, now) {
      TrimTwice(s.buckets, now - c.window, now - c.window);
      TrimTwice(t.buckets, now - c.window, now - c.window);
    } else {
      AllowTrimmed(c, s, key, now);
      AllowTrimmed(c, t, key, now);
    }
  }

  lemma AlikeSweep(c: Config, s: Shard, t: Shard, now: int)
    requires Alike(c, s, t) && s.time <= now
    ensures Alike(c, Step(c, s, Sweep(now)), t)
  {
    hide Trim, Inv;
    InvTrim(c, s, now);
    AlikeLater(c, s, t, now);
    TrimTwice(s.buckets, now - c.window, now - c.window);
  }

  /** Sweeps are invisible: with all of them left out, every call is told the same and
      the same calls are shut out. */
  lemma {:induction false} SweepsAreInvisible(c: Config, s: Shard, t: Shard, calls: seq<Call>)
    requires Alike(c, s, t) && Ordered(s.time, calls)
    ensures Answers(c, s, calls) == Answers(c, t, WithoutSweeps(calls))
    decreases |calls|
  {
    hide Alike, Step, AllowIn, ShutOut;
    if calls != [] {
      AlikeTime(c, s, t, calls[0]);
      match calls[0]
      case Allow(key, now) =>
        AlikeAllow(c, s, t, key, now);
        SweepsAreInvisible(c, Step(c, s, calls[0]), Step(c, t, calls[0]), calls[1..]);
        assert ([calls[0]] + WithoutSweeps(calls[1..]))[1..] == WithoutSweeps(calls[1..]);
      case Sweep(now) =>
        AlikeSweep(c, s, t, now);
        SweepsAreInvisible(c, Step(c, s, calls[0]), t, calls[1..]);
    }
  }

  lemma AlikeTime(c: Config, s: Shard, t: Shard, call: Call)
    requires Alike(c, s, t)
    ensures c.limit >= 1 && Step(c, s, call).time == call.now
  {
    hide Trim, AllowIn;
  }

  /** In particular from an empty shard. */
  lemma {:induction false} SweepsChangeNothing(c: Config, time: int, calls: seq<Call>)
    requires c.limit >= 1 && c.window >= 0 && Ordered(time, calls)
    ensures Answers(c, Start.(time := time), calls) == Answers(c, Start.(time := time), WithoutSweeps(calls))
  {
    StartInv(c, time);
    SweepsAreInvisible(c, Start.(time := time), Start.(time := time), calls);
  }

  // ----- Isolation and retry

  /** The times of a key's own calls. */
  function Own(key: Bytes, calls: seq<Call>): seq<int>
    decreases |calls|
  {
    if calls == [] then []
    else if calls[0].Allow? && calls[0].key == key then [calls[0].now] + Own(key, calls[1..])
    else Own(key, calls[1..])
  }

  /** What the key's calls are told. */
  ghost function KeyAnswers(c: Config, s: Shard, key: Bytes, calls: seq<Call>): seq<Verdict>
    requires c.limit >= 1
    decreases |calls|
  {
    if calls == [] then []
    else
      (if calls[0].Allow? && calls[0].key == key then [AllowIn(c, s.buckets, key, calls[0].now).1] else [])
      + KeyAnswers(c, Step(c, s, calls[0]), key, calls[1..])
  }

  /** The key's admissions after calls at these times to the reference limiter. */
  function Admit(c: Config, past: seq<int>, now: int): seq<int>
    requires c.limit >= 1
  {
    if Judge(c, past, now).ok then past + [now] else past
  }

  /** What the reference limiter, alone with the key, tells calls at these times. */
  function SoloAnswers(c: Config, past: seq<int>, times: seq<int>): seq<Verdict>
    requires c.limit >= 1
    decreases |times|
  {
    if times == [] then [] else [Judge(c, past, times[0])] + SoloAnswers(c, Admit(c, past, times[0]), times[1..])
  }

  /** None of the key's calls finds the shard full. */
  ghost predicate FindsRoom(c: Config, s: Shard, key: Bytes, calls: seq<Call>)
    requires c.limit >= 1
    decreases |calls|
  {
    calls == [] ||
    (&& (calls[0].Allow? && calls[0].key == key ==> !ShutOut(c, s.buckets, key, calls[0].now))
     && FindsRoom(c, Step(c, s, calls[0]), key, calls[1..]))
  }

  /** Isolation: whatever other keys do and however often the shard is swept, a key that
      finds room is told exactly what the reference limiter tells it when alone. */
  lemma {:induction false} Isolation(c: Config, s: Shard, key: Bytes, calls: seq<Call>)
    requires Inv(c, s) && c.limit >= 1 && Ordered(s.time, calls) && FindsRoom(c, s, key, calls)
    ensures KeyAnswers(c, s, key, calls) == SoloAnswers(c, Past(s.history, key), Own(key, calls))
    decreases |calls|
  {
    hide Inv, Step, Past, Judge, AllowIn, ShutOut;
    if calls != [] {
      StepInvHidden(c, s, calls[0]);
      Isolation(c, Step(c, s, calls[0]), key, calls[1..]);
      if calls[0].Allow? && calls[0].key == key {
        OwnStep(c, s, key, calls[0].now);
        assert ([calls[0].now] + Own(key, calls[1..]))[1..] == Own(key, calls[1..]);
      } else {
        OtherStep(c, s, key, calls[0]);
      }
    }
  }

  lemma OwnStep(c: Config, s: Shard, key: Bytes, now: int)
    requires Inv(c, s) && c.limit >= 1 && s.time <= now && !ShutOut(c, s.buckets, key, now)
    ensures AllowIn(c, s.buckets, key, now).1 == Judge(c, Past(s.history, key), now)
    ensures Past(Step(c, s, Allow(key, now)).history, key) == Admit(c, Past(s.history, key), now)
  {
    hide Inv, AllowIn, Judge, ShutOut;
    VerdictIsCount(c, s, key, now);
  }

  /** Calls that are not for this key. */
  predicate Others(key: Bytes, calls: seq<Call>) {
    forall i :: 0 <= i < |calls| ==> !(calls[i].Allow? && calls[i].key == key)
  }

  lemma OtherStep(c: Config, s: Shard, key: Bytes, call: Call)
    requires c.limit >= 1 && !(call.Allow? && call.key == key)
    ensures Past(Step(c, s, call).history, key) == Past(s.history, key)
  {
    hide MakeRoom, ShutOut, DropBefore, Trim;
  }

  lemma {:induction false} OthersKeepHistory(c: Config, s: Shard, key: Bytes, calls: seq<Call>)
    requires c.limit >= 1 && Others(key, calls)
    ensures Past(Run(c, s, calls).history, key) == Past(s.history, key)
    decreases |calls|
  {
    hide Step, Past;
    if calls != [] {
      OtherStep(c, s, key, calls[0]);
      OthersKeepHistory(c, Step(c, s, calls[0]), key, calls[1..]);
    }
  }

  /** After a denial for the limit, with no further call for the key, any call strictly
      later than now + retryAfter is admitted while the key is tracked or finds room. */
  lemma RetryIsEnough(c: Config, s: Shard, key: Bytes, now: int, calls: seq<Call>, later: int)
    requires Inv(c, s) && s.time <= now && !ShutOut(c, s.buckets, key, now) && !AllowIn(c, s.buckets, key, now).1.ok
    requires Ordered(now, calls) && Others(key, calls)
    requires var t := Run(c, Step(c, s, Allow(key, now)), calls);
             && t.time <= later && !ShutOut(c, t.buckets, key, later)
             && later > now + AllowIn(c, s.buckets, key, now).1.retryAfter
    ensures AllowIn(c, Run(c, Step(c, s, Allow(key, now)), calls).buckets, key, later).1.ok
  {
    hide Run, KeyInv, DropBefore, Trim, ShutOut, MakeRoom, Count;
    var u := Step(c, s, Allow(key, now));
    var t := Run(c, u, calls);
    StepInv(c, s, Allow(key, now));
    RunInv(c, u, calls);
    OthersKeepHistory(c, u, key, calls);
    VerdictIsCount(c, t, key, later);
    DeniedUntil(c, s, key, now, later);
  }

  /** By then too few admissions are left in the window. */
  lemma DeniedUntil(c: Config, s: Shard, key: Bytes, now: int, later: int)
    requires Inv(c, s) && s.time <= now && !ShutOut(c, s.buckets, key, now) && !AllowIn(c, s.buckets, key, now).1.ok
    requires later > now + AllowIn(c, s.buckets, key, now).1.retryAfter
    ensures Count(Past(s.history, key), later - c.window, later) < c.limit
    ensures Step(c, s, Allow(key, now)).history == s.history
  {
    hide DropBefore, Trim, ShutOut, MakeRoom, Count, KeyInv, Recent, Spread;
    var past, bucket := Past(s.history, key), Hits(s.buckets, key);
    KeyParts(c, s, key);
    RoomKeepsHits(c, s.buckets, key, now);
    PrunedCount(c, bucket, past, s.time, now);
    DropShorter(bucket, now - c.window);
    PrunedCount(c, bucket, past, s.time, later);
    DropFewer(past, now - c.window, later - c.window);
  }

  /** Once the first hit kept has expired too, strictly fewer are kept. */
  lemma DropFewer(h: seq<int>, cutoff: int, cutoff': int)
    requires Sorted(h) && cutoff <= cutoff'
    requires DropBefore(h, cutoff) != [] && DropBefore(h, cutoff)[0] < cutoff'
    ensures |DropBefore(h, cutoff')| < |DropBefore(h, cutoff)|
  {
    hide DropBefore;
    var i := DropShape(h, cutoff);
    var j := DropShape(h, cutoff');
  }
}
