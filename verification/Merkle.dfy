/** The Merkle audit-path verifier of internal/rfc6962/merkle.go, checked
    against the recursive tree hash and audit path of RFC 6962, section 2.1. */
module Merkle {
  import opened ByteStrings

  type Digest = d: Bytes | |d| == 32 witness seq(32, _ => 0)

  /** SHA-256 is left uninterpreted: any total function to 32-byte digests. */
  type Hash = Bytes -> Digest

  function LeafInput(leaf: Bytes): Bytes { [0x00] + leaf }

  function NodeInput(l: Bytes, r: Bytes): Bytes { [0x01] + l + r }

  function LeafHash(H: Hash, leaf: Bytes): Digest { H(LeafInput(leaf)) }

  function NodeHash(H: Hash, l: Bytes, r: Bytes): Digest { H(NodeInput(l, r)) }

  datatype Verdict =
    | Accepted
    | LeafHashSize
    | RootSize
    | TreeSizeNotPositive
    | IndexOutOfRange
    | PathNodeSize
    | PathTooShort
    | RootMismatch

  // ----- The reference tree (RFC 6962, sections 2.1 and 2.1.1)

  /** 2^m is the largest power of two smaller than n. */
  ghost predicate SplitsAt(m: nat, n: nat) { Pow2(m) < n <= 2 * Pow2(m) }

  lemma {:induction false} SplitExists(n: nat) returns (m: nat)
    requires n >= 2
    ensures SplitsAt(m, n)
    decreases n
  {
    if n == 2 {
      m := 0;
    } else {
      m := SplitExists((n + 1) / 2);
      m := m + 1;
    }
  }

  ghost function SplitExp(n: nat): (m: nat)
    requires n >= 2
    ensures Pow2(m) < n <= 2 * Pow2(m)
  {
    assert exists m :: SplitsAt(m, n) by { var m := SplitExists(n); }
    var m: nat :| SplitsAt(m, n);
    m
  }

  ghost function Split(n: nat): (k: nat)
    requires n >= 2
    ensures 0 < k < n <= 2 * k
  {
    Pow2(SplitExp(n))
  }

  ghost function MTH(H: Hash, D: seq<Bytes>): Digest {
    if |D| == 0 then H([])
    else if |D| == 1 then LeafHash(H, D[0])
    else
      var k := Split(|D|);
      NodeHash(H, MTH(H, D[..k]), MTH(H, D[k..]))
  }

  /** PATH(i, D): the siblings met on the way from leaf i to the root. */
  ghost function Path(H: Hash, i: nat, D: seq<Bytes>): (path: seq<Digest>)
    requires i < |D|
    decreases |D|
  {
    if |D| == 1 then []
    else
      var k := Split(|D|);
      if i < k then Path(H, i, D[..k]) + [MTH(H, D[k..])]
      else Path(H, i - k, D[k..]) + [MTH(H, D[..k])]
  }

  /** The turns of that path, leaf first: true where the sibling is on the left. */
  ghost function Turns(i: nat, n: nat): seq<bool>
    requires i < n
    decreases n
  {
    if n == 1 then []
    else
      var k := Split(n);
      if i < k then Turns(i, k) + [false] else Turns(i - k, n - k) + [true]
  }

  /** The hash obtained from h by climbing along a path with the given turns. */
  function Climb(H: Hash, h: Bytes, path: seq<Bytes>, turns: seq<bool>): Bytes
    requires |path| == |turns|
    decreases |path|
  {
    if path == [] then h
    else
      var n := |path| - 1;
      var r := Climb(H, h, path[..n], turns[..n]);
      if turns[n] then NodeHash(H, path[n], r) else NodeHash(H, r, path[n])
  }

  function Lefts(n: nat): (s: seq<bool>)
    ensures |s| == n
  {
    seq(n, _ => true)
  }

  /** The verdict told top-down: climb along the turns of leaf `index`, and then,
      when the path is over-long, with every further sibling on the left. */
  ghost function Judge(H: Hash, leafHash: Bytes, index: int, size: int, path: seq<Bytes>, root: Bytes): Verdict {
    if |leafHash| != 32 then LeafHashSize
    else if |root| != 32 then RootSize
    else if size <= 0 then TreeSizeNotPositive
    else if index < 0 || index >= size then IndexOutOfRange
    else if exists j :: 0 <= j < |path| && |path[j]| != 32 then PathNodeSize
    else
      var turns := Turns(index, size);
      if |path| < |turns| then PathTooShort
      else if Climb(H, leafHash, path, turns + Lefts(|path| - |turns|)) != root then RootMismatch
      else Accepted
  }

  // ----- The turns of the loop

  /** The turns the loop takes from position fn of a level whose last position
      is sn until sn reaches zero. An even last node is promoted unpaired. */
  function Steps(fn: nat, sn: nat): seq<bool>
    requires fn <= sn
    decreases sn
  {
    if sn == 0 then []
    else if fn == sn && fn % 2 == 0 then Steps(fn / 2, sn / 2)
    else [fn % 2 == 1 || fn == sn] + Steps(fn / 2, sn / 2)
  }

  /** Climbing inside a perfect left subtree, then out of it. */
  lemma {:induction false} StepsLeft(m: nat, fn: nat, sn: nat)
    requires fn < Pow2(m) <= sn < 2 * Pow2(m)
    ensures Steps(fn, sn) == Steps(fn, Pow2(m) - 1) + [false]
    decreases m
  {
    if m == 0 {
      assert Steps(0, 1) == [false] + Steps(0, 0);
    } else {
      StepsLeft(m - 1, fn / 2, sn / 2);
      assert (Pow2(m) - 1) / 2 == Pow2(m - 1) - 1;
    }
  }

  /** One unfolding of Steps, without division. */
  lemma StepsDouble(f: nat, s: nat, b: nat, c: nat)
    requires f <= s && b <= 1 && c <= 1 && 2 * f + b <= 2 * s + c && 0 < s + c
    ensures Steps(2 * f + b, 2 * s + c) ==
            if f == s && b == 0 == c then Steps(f, s) else [b == 1 || (f == s && b == c)] + Steps(f, s)
  {
    assert (2 * f + b) / 2 == f && (2 * s + c) / 2 == s;
  }

  /** A right subtree twice as high, from the next bits b and c of the positions. */
  lemma StepsRightDouble(q: nat, f: nat, s: nat, b: nat, c: nat)
    requires f <= s < q && b <= 1 && c <= 1 && 2 * f + b <= 2 * s + c && 0 < s + c
    requires Steps(q + f, q + s) == Steps(f, s) + [true]
    ensures Steps(2 * (q + f) + b, 2 * (q + s) + c) == Steps(2 * f + b, 2 * s + c) + [true]
  {
    hide Steps;
    var t := [b == 1 || (f == s && b == c)];
    var u := Steps(f, s);
    StepsDouble(q + f, q + s, b, c);
    StepsDouble(f, s, b, c);
    assert t + (u + [true]) == (t + u) + [true];
  }

  /** Climbing inside the right subtree, then out of it. */
  lemma {:induction false} StepsRight(m: nat, p: nat, fn: nat, sn: nat)
    requires fn <= sn < p == Pow2(m)
    ensures Steps(p + fn, p + sn) == Steps(fn, sn) + [true]
    decreases m
  {
    if m == 0 {
      assert Steps(1, 1) == [true] + Steps(0, 0);
    } else {
      var q, f, s, b, c := Pow2(m - 1), fn / 2, sn / 2, fn % 2, sn % 2;
      StepsRight(m - 1, q, f, s);
      if sn == 0 {
        StepsDouble(q, q, 0, 0);
      } else {
        StepsRightDouble(q, f, s, b, c);
        assert fn == 2 * f + b && sn == 2 * s + c;
        assert p + fn == 2 * (q + f) + b && p + sn == 2 * (q + s) + c;
      }
    }
  }

  lemma TurnsUnfold(i: nat, n: nat)
    requires i < n
    ensures n == 1 ==> Turns(i, n) == [] == Steps(i, n - 1)
    ensures n > 1 && i < Split(n) ==> Turns(i, n) == Turns(i, Split(n)) + [false]
    ensures n > 1 && i >= Split(n) ==> Turns(i, n) == Turns(i - Split(n), n - Split(n)) + [true]
  {
  }

  /** The bottom-up loop takes the turns of the top-down tree. */
  lemma {:induction false} StepsAreTurns(i: nat, n: nat)
    requires i < n
    ensures Steps(i, n - 1) == Turns(i, n)
    decreases n
  {
    hide Steps, Turns;
    TurnsUnfold(i, n);
    if n > 1 {
      var m := SplitExp(n);
      var k := Pow2(m);
      if i < k {
        StepsAreTurns(i, k);
        StepsLeft(m, i, n - 1);
      } else {
        StepsAreTurns(i - k, n - k);
        StepsRight(m, k, i - k, n - k - 1);
      }
    }
  }

  lemma {:induction false} StepsEmpty(fn: nat, sn: nat)
    requires fn <= sn
    ensures Steps(fn, sn) == [] <==> sn == 0
    decreases sn
  {
    if sn > 0 && fn == sn && fn % 2 == 0 {
      StepsEmpty(fn / 2, sn / 2);
    }
  }

  lemma ClimbOne(H: Hash, h: Bytes, path: seq<Bytes>, turns: seq<bool>, p: Bytes, turn: bool)
    requires |path| == |turns|
    ensures Climb(H, h, path + [p], turns + [turn]) ==
            var r := Climb(H, h, path, turns);
            if turn then NodeHash(H, p, r) else NodeHash(H, r, p)
  {
    assert (path + [p])[..|path|] == path;
    assert (turns + [turn])[..|turns|] == turns;
  }

  /** Where the loop stands: `taken` are the turns behind it. */
  ghost predicate OnTheWay(turns: seq<bool>, taken: seq<bool>, fn: nat, sn: nat) {
    && fn <= sn
    && (sn > 0 ==> taken + Steps(fn, sn) == turns)
    && (sn == 0 ==> |taken| >= |turns| && taken == turns + Lefts(|taken| - |turns|))
  }

  lemma OnTheWayNext(turns: seq<bool>, taken: seq<bool>, fn: nat, sn: nat, turn: bool)
    requires OnTheWay(turns, taken, fn, sn)
    requires fn == sn && fn % 2 == 0 ==> fn == 0
    requires turn == (fn % 2 == 1 || fn == sn)
    ensures OnTheWay(turns, taken + [turn], fn / 2, sn / 2)
  {
    if sn > 0 {
      assert taken + ([turn] + Steps(fn / 2, sn / 2)) == (taken + [turn]) + Steps(fn / 2, sn / 2);
      StepsEmpty(fn / 2, sn / 2);
    }
  }

  /** The loop invariant after j nodes of the path. */
  ghost predicate Climbed(H: Hash, h: Bytes, path: seq<Bytes>, j: nat, turns: seq<bool>, taken: seq<bool>,
                          fn: nat, sn: nat, r: Bytes) {
    && |taken| == j <= |path|
    && OnTheWay(turns, taken, fn, sn)
    && r == Climb(H, h, path[..j], taken)
  }

  lemma ClimbedFirst(H: Hash, h: Bytes, path: seq<Bytes>, i: nat, n: nat)
    requires i < n
    ensures Climbed(H, h, path, 0, Turns(i, n), [], i, n - 1, h)
  {
    StepsAreTurns(i, n);
  }

  /** Clearing a trailing zero on the right edge moves to where the node is paired. */
  lemma ClimbedHalve(H: Hash, h: Bytes, path: seq<Bytes>, j: nat, turns: seq<bool>, taken: seq<bool>, fn: nat, r: Bytes)
    requires fn > 0 && fn % 2 == 0 && Climbed(H, h, path, j, turns, taken, fn, fn, r)
    ensures Climbed(H, h, path, j, turns, taken, fn / 2, fn / 2, r)
  {
  }

  lemma ClimbedNext(H: Hash, h: Bytes, path: seq<Bytes>, j: nat, turns: seq<bool>, taken: seq<bool>, fn: nat,
                    sn: nat, r: Bytes, turn: bool)
    requires j < |path| && Climbed(H, h, path, j, turns, taken, fn, sn, r)
    requires fn == sn && fn % 2 == 0 ==> fn == 0
    requires turn == (fn % 2 == 1 || fn == sn)
    ensures Climbed(H, h, path, j + 1, turns, taken + [turn], fn / 2, sn / 2,
                    if turn then NodeHash(H, path[j], r) else NodeHash(H, r, path[j]))
  {
    assert path[..j + 1] == path[..j] + [path[j]];
    ClimbOne(H, h, path[..j], taken, path[j], turn);
    OnTheWayNext(turns, taken, fn, sn, turn);
  }

  lemma ClimbedLast(H: Hash, h: Bytes, path: seq<Bytes>, turns: seq<bool>, taken: seq<bool>, fn: nat, sn: nat, r: Bytes)
    requires Climbed(H, h, path, |path|, turns, taken, fn, sn, r)
    ensures sn == 0 <==> |path| >= |turns|
    ensures sn == 0 ==> r == Climb(H, h, path, turns + Lefts(|path| - |turns|))
  {
    assert path[..|path|] == path;
    StepsEmpty(fn, sn);
  }

  method VerifyInclusion(H: Hash, leafHash: Bytes, leafIndex: int, treeSize: int, auditPath: seq<Bytes>, root: Bytes)
    returns (verdict: Verdict)
    ensures verdict == Judge(H, leafHash, leafIndex, treeSize, auditPath, root)
  {
    hide Climbed, Turns, Climb;
    if |leafHash| != 32 { return LeafHashSize; }
    if |root| != 32 { return RootSize; }
    if treeSize <= 0 { return TreeSizeNotPositive; }
    if leafIndex < 0 || leafIndex >= treeSize { return IndexOutOfRange; }
    var fn: nat, sn: nat, r := leafIndex, treeSize - 1, leafHash;
    ghost var turns, taken: seq<bool> := Turns(leafIndex, treeSize), [];
    ClimbedFirst(H, leafHash, auditPath, leafIndex, treeSize);
    for j := 0 to |auditPath|
      invariant forall i :: 0 <= i < j ==> |auditPath[i]| == 32
      invariant fn <= sn && Climbed(H, leafHash, auditPath, j, turns, taken, fn, sn, r)
    {
      var p := auditPath[j];
      if |p| != 32 { return PathNodeSize; }
      ghost var r0, turn := r, fn % 2 == 1 || fn == sn;
      if fn % 2 == 1 || fn == sn {
        r := NodeHash(H, p, r);
        if fn % 2 == 0 {
          while fn != 0 && fn % 2 == 0
            invariant fn == sn && Climbed(H, leafHash, auditPath, j, turns, taken, fn, sn, r0)
          {
            ClimbedHalve(H, leafHash, auditPath, j, turns, taken, fn, r0);
            fn, sn := fn / 2, sn / 2;
          }
        }
      } else {
        r := NodeHash(H, r, p);
      }
      ClimbedNext(H, leafHash, auditPath, j, turns, taken, fn, sn, r0, turn);
      taken := taken + [turn];
      fn, sn := fn / 2, sn / 2;
    }
    ClimbedLast(H, leafHash, auditPath, turns, taken, fn, sn, r);
    if sn != 0 {
      return PathTooShort;
    }
    return if r != root then RootMismatch else Accepted;
  }

  // ----- Completeness

  lemma {:induction false} PathLength(H: Hash, i: nat, D: seq<Bytes>)
    requires i < |D|
    ensures |Path(H, i, D)| == |Turns(i, |D|)|
    decreases |D|
  {
    if |D| > 1 {
      var k := Split(|D|);
      if i < k { PathLength(H, i, D[..k]); } else { PathLength(H, i - k, D[k..]); }
    }
  }

  lemma ClimbNone(H: Hash, h: Bytes)
    ensures Climb(H, h, [], []) == h
  {
  }

  lemma {:induction false} ClimbPath(H: Hash, i: nat, D: seq<Bytes>)
    requires i < |D| && |Path(H, i, D)| == |Turns(i, |D|)|
    ensures Climb(H, LeafHash(H, D[i]), Path(H, i, D), Turns(i, |D|)) == MTH(H, D)
    decreases |D|
  {
    hide Climb, Turns, Split;
    var h, k := LeafHash(H, D[i]), if |D| > 1 then Split(|D|) else 0;
    TurnsUnfold(i, |D|);
    if |D| == 1 {
      ClimbNone(H, h);
    } else if i < k {
      PathLength(H, i, D[..k]);
      ClimbPath(H, i, D[..k]);
      ClimbOne(H, h, Path(H, i, D[..k]), Turns(i, k), MTH(H, D[k..]), false);
    } else {
      PathLength(H, i - k, D[k..]);
      ClimbPath(H, i - k, D[k..]);
      ClimbOne(H, h, Path(H, i - k, D[k..]), Turns(i - k, |D| - k), MTH(H, D[..k]), true);
    }
  }

  /** Every honest audit path is accepted. */
  lemma {:induction false} Completeness(H: Hash, i: nat, D: seq<Bytes>)
    requires i < |D|
    ensures Judge(H, LeafHash(H, D[i]), i, |D|, Path(H, i, D), MTH(H, D)) == Accepted
  {
    PathLength(H, i, D);
    ClimbPath(H, i, D);
    assert Turns(i, |D|) + Lefts(0) == Turns(i, |D|);
  }

  // ----- Soundness, up to a collision among the inputs actually hashed

  /** The inputs hashed in building the tree. */
  ghost function TreeInputs(H: Hash, D: seq<Bytes>): set<Bytes> {
    if |D| == 0 then {[]}
    else if |D| == 1 then {LeafInput(D[0])}
    else
      var k := Split(|D|);
      {NodeInput(MTH(H, D[..k]), MTH(H, D[k..]))} + TreeInputs(H, D[..k]) + TreeInputs(H, D[k..])
  }

  /** The inputs hashed in climbing. */
  ghost function ClimbInputs(H: Hash, h: Bytes, path: seq<Bytes>, turns: seq<bool>): set<Bytes>
    requires |path| == |turns|
    decreases |path|
  {
    if path == [] then {}
    else
      var n := |path| - 1;
      var r := Climb(H, h, path[..n], turns[..n]);
      {if turns[n] then NodeInput(path[n], r) else NodeInput(r, path[n])} + ClimbInputs(H, h, path[..n], turns[..n])
  }

  /** Some input of A and some different input of B have the same hash. */
  ghost predicate Collide(H: Hash, A: set<Bytes>, B: set<Bytes>) {
    exists x, y :: x in A && y in B && x != y && H(x) == H(y)
  }

  lemma CollideMono(H: Hash, A: set<Bytes>, B: set<Bytes>, A': set<Bytes>, B': set<Bytes>)
    requires A <= A' && B <= B'
    ensures Collide(H, A, B) ==> Collide(H, A', B')
  {
  }

  lemma NodeInputInjective(l: Bytes, r: Bytes, l': Bytes, r': Bytes)
    requires |l| == |l'| && NodeInput(l, r) == NodeInput(l', r')
    ensures l == l' && r == r'
  {
    var x, y := NodeInput(l, r), NodeInput(l', r');
    assert x[1..1 + |l|] == l && y[1..1 + |l|] == l';
    assert x[1 + |l|..] == r && y[1 + |l|..] == r';
  }

  lemma TreeInputsSplit(H: Hash, D: seq<Bytes>, k: nat)
    requires |D| > 1 && k == Split(|D|)
    ensures NodeInput(MTH(H, D[..k]), MTH(H, D[k..])) in TreeInputs(H, D)
    ensures TreeInputs(H, D[..k]) <= TreeInputs(H, D)
    ensures TreeInputs(H, D[k..]) <= TreeInputs(H, D)
  {
  }

  lemma {:induction false} LeafInTree(H: Hash, D: seq<Bytes>, i: nat)
    requires i < |D|
    ensures LeafInput(D[i]) in TreeInputs(H, D)
    decreases |D|
  {
    if |D| > 1 {
      var (D', i') := Half(D, i);
      LeafInTree(H, D', i');
      TreeInputsSplit(H, D, Split(|D|));
    }
  }

  /** A climb that ends in the root of D ends with the children of D's root,
      unless it collides with the tree. */
  lemma TopNode(H: Hash, D: seq<Bytes>, l: Bytes, r: Bytes, B: set<Bytes>)
    requires |D| > 0 && |l| == 32
    requires NodeInput(l, r) in B && NodeHash(H, l, r) == MTH(H, D)
    ensures Collide(H, TreeInputs(H, D), B) ||
            (|D| > 1 && l == MTH(H, D[..Split(|D|)]) && r == MTH(H, D[Split(|D|)..]))
  {
    if |D| == 1 {
      assert LeafInput(D[0])[0] != NodeInput(l, r)[0];
      assert LeafInput(D[0]) in TreeInputs(H, D);
    } else {
      var k := Split(|D|);
      var L, R := MTH(H, D[..k]), MTH(H, D[k..]);
      TreeInputsSplit(H, D, k);
      if NodeInput(L, R) == NodeInput(l, r) {
        NodeInputInjective(L, R, l, r);
      }
    }
  }

  /** The last step of a climb, and what it leaves to climb. */
  lemma ClimbLast(H: Hash, h: Bytes, path: seq<Bytes>, turns: seq<bool>) returns (l: Bytes, r: Bytes)
    requires |path| == |turns| > 0
    ensures var n := |path| - 1;
            var c := Climb(H, h, path[..n], turns[..n]);
            (l, r) == if turns[n] then (path[n], c) else (c, path[n])
    ensures Climb(H, h, path, turns) == NodeHash(H, l, r)
    ensures NodeInput(l, r) in ClimbInputs(H, h, path, turns)
    ensures ClimbInputs(H, h, path[..|path| - 1], turns[..|path| - 1]) <= ClimbInputs(H, h, path, turns)
  {
    var n := |path| - 1;
    var c := Climb(H, h, path[..n], turns[..n]);
    l, r := if turns[n] then path[n] else c, if turns[n] then c else path[n];
  }

  ghost predicate AllDigests(path: seq<Bytes>) { forall j :: 0 <= j < |path| ==> |path[j]| == 32 }

  lemma ClimbSize(H: Hash, h: Bytes, path: seq<Bytes>, turns: seq<bool>)
    requires |path| == |turns| && |h| == 32
    ensures |Climb(H, h, path, turns)| == 32
  {
  }

  lemma SoundLeaf(H: Hash, D: seq<Bytes>, h: Bytes, path: seq<Bytes>)
    requires |D| == 1 && |path| == |Turns(0, 1)|
    requires Climb(H, h, path, Turns(0, 1)) == MTH(H, D)
    ensures h == LeafHash(H, D[0]) && path == Path(H, 0, D)
  {
  }

  /** The subtree below the root of D that holds leaf i, and i's place in it. */
  ghost function Half(D: seq<Bytes>, i: nat): (r: (seq<Bytes>, nat))
    requires i < |D| && |D| > 1
    ensures 0 < |r.0| < |D| && r.1 < |r.0| && r.0[r.1] == D[i]
  {
    var k := Split(|D|);
    if i < k then (D[..k], i) else (D[k..], i - k)
  }

  lemma PathUnfold(H: Hash, i: nat, D: seq<Bytes>)
    requires i < |D| && |D| > 1
    ensures var k := Split(|D|);
            var (D', i') := Half(D, i);
            && Path(H, i, D) == Path(H, i', D') + [MTH(H, if i < k then D[k..] else D[..k])]
            && Turns(i, |D|) == Turns(i', |D'|) + [i >= k]
  {
    hide Split, MTH;
    var k := Split(|D|);
    if i < k {
      assert Path(H, i, D) == Path(H, i, D[..k]) + [MTH(H, D[k..])];
    } else {
      assert Path(H, i, D) == Path(H, i - k, D[k..]) + [MTH(H, D[..k])];
    }
  }

  /** A path of exactly the right length proves the leaf, and is the honest path. */
  lemma {:induction false} SoundExact(H: Hash, D: seq<Bytes>, i: nat, h: Bytes, path: seq<Bytes>)
    requires i < |D| && |h| == 32 && AllDigests(path) && |path| == |Turns(i, |D|)|
    requires Climb(H, h, path, Turns(i, |D|)) == MTH(H, D)
    ensures Collide(H, TreeInputs(H, D), ClimbInputs(H, h, path, Turns(i, |D|))) ||
            (h == LeafHash(H, D[i]) && path == Path(H, i, D))
    decreases |D|
  {
    hide Climb, ClimbInputs, TreeInputs, MTH, Collide, Turns, Path, Split;
    if |D| == 1 {
      SoundLeaf(H, D, h, path);
      return;
    }
    var A, B := TreeInputs(H, D), ClimbInputs(H, h, path, Turns(i, |D|));
    if !Collide(H, A, B) {
      var n, turns := |path| - 1, Turns(i, |D|);
      var (D', i') := Half(D, i);
      PathUnfold(H, i, D);
      assert turns[..n] == Turns(i', |D'|);
      var l, r := ClimbLast(H, h, path, turns);
      ClimbSize(H, h, path[..n], turns[..n]);
      TopNode(H, D, l, r, B);
      SoundExact(H, D', i', h, path[..n]);
      TreeInputsSplit(H, D, Split(|D|));
      CollideMono(H, TreeInputs(H, D'), ClimbInputs(H, h, path[..n], turns[..n]), A, B);
      assert path == path[..n] + [path[n]];
    }
  }

  /** Descending against the turns walks past a leaf. */
  ghost predicate FallsOff(n: nat, turns: seq<bool>)
    requires n > 0
    decreases |turns|
  {
    turns != [] &&
    (n == 1 || var t := |turns| - 1; FallsOff(if turns[t] then n - Split(n) else Split(n), turns[..t]))
  }

  lemma {:induction false} DeepFallsOff(m: nat, n: nat, turns: seq<bool>)
    requires 0 < n <= Pow2(m) && m < |turns|
    ensures FallsOff(n, turns)
    decreases m
  {
    if n > 1 {
      var t := |turns| - 1;
      SplitWithin(m, n);
      DeepFallsOff(m - 1, if turns[t] then n - Split(n) else Split(n), turns[..t]);
    }
  }

  lemma {:induction false} Pow2Mono(a: nat, b: nat)
    requires Pow2(a) < Pow2(b)
    ensures a < b
    decreases a
  {
    if b > 0 && a > 0 {
      Pow2Mono(a - 1, b - 1);
    }
  }

  lemma {:induction false} Pow2Le(a: nat, b: nat)
    requires a <= b
    ensures Pow2(a) <= Pow2(b)
    decreases b
  {
    if a < b {
      Pow2Le(a, b - 1);
    }
  }

  lemma SplitWithin(m: nat, n: nat)
    requires 1 < n <= Pow2(m)
    ensures m > 0 && Split(n) <= Pow2(m - 1)
  {
    Pow2Mono(SplitExp(n), m);
    Pow2Le(SplitExp(n), m - 1);
  }

  /** No path is longer than the logarithm of the tree size, rounded up. */
  lemma {:induction false} TurnsBound(m: nat, i: nat, n: nat)
    requires i < n <= Pow2(m)
    ensures |Turns(i, n)| <= m
    decreases m
  {
    if n > 1 {
      SplitWithin(m, n);
      if i < Split(n) { TurnsBound(m - 1, i, Split(n)); } else { TurnsBound(m - 1, i - Split(n), n - Split(n)); }
    }
  }

  /** In a perfect tree every path has the same length. */
  lemma {:induction false} TurnsPerfect(m: nat, i: nat)
    requires i < Pow2(m)
    ensures |Turns(i, Pow2(m))| == m
    decreases m
  {
    if m > 0 {
      SplitPow2(m);
      var k := Pow2(m - 1);
      TurnsPerfect(m - 1, if i < k then i else i - k);
    }
  }

  lemma SplitPow2(m: nat)
    requires m > 0
    ensures Split(Pow2(m)) == Pow2(m - 1)
  {
    var e := SplitExp(Pow2(m));
    Pow2Mono(e, m);
    if e < m - 1 { Pow2Le(e + 1, m - 1); }
  }

  lemma FallsOffLeft(i: nat, n: nat, e: nat)
    requires n > 1 && i < Split(n) && e > 0
    ensures FallsOff(n, Turns(i, n) + Lefts(e))
  {
    hide FallsOff, Turns;
    var m := SplitExp(n);
    TurnsUnfold(i, n);
    TurnsPerfect(m, i);
    DeepFallsOff(m + 1, n, Turns(i, n) + Lefts(e));
  }

  lemma FallsOffRight(i: nat, n: nat, e: nat)
    requires n > 1 && Split(n) <= i < n && e > 0
    requires FallsOff(n - Split(n), Turns(i - Split(n), n - Split(n)) + Lefts(e))
    ensures FallsOff(n, Turns(i, n) + Lefts(e))
  {
    hide Turns, Split;
    TurnsUnfold(i, n);
    var turns, inner := Turns(i, n) + Lefts(e), Turns(i - Split(n), n - Split(n));
    assert Lefts(e) == Lefts(e - 1) + [true] && Lefts(e) == [true] + Lefts(e - 1);
    assert turns[..|turns| - 1] == inner + Lefts(e);
  }

  /** An over-long climb walks past a leaf of the tree. */
  lemma {:induction false} OverlongFallsOff(i: nat, n: nat, e: nat)
    requires i < n && e > 0
    ensures FallsOff(n, Turns(i, n) + Lefts(e))
    decreases n
  {
    if n > 1 {
      var k := Split(n);
      if i < k {
        FallsOffLeft(i, n, e);
      } else {
        OverlongFallsOff(i - k, n - k, e);
        FallsOffRight(i, n, e);
      }
    }
  }

  lemma {:induction false} FallsOffCollides(H: Hash, D: seq<Bytes>, h: Bytes, path: seq<Bytes>, turns: seq<bool>)
    requires |D| > 0 && |h| == 32 && AllDigests(path) && |path| == |turns|
    requires FallsOff(|D|, turns) && Climb(H, h, path, turns) == MTH(H, D)
    ensures Collide(H, TreeInputs(H, D), ClimbInputs(H, h, path, turns))
    decreases |turns|
  {
    hide Climb, ClimbInputs, TreeInputs, MTH, Collide;
    var A, B, n := TreeInputs(H, D), ClimbInputs(H, h, path, turns), |path| - 1;
    var l, r := ClimbLast(H, h, path, turns);
    ClimbSize(H, h, path[..n], turns[..n]);
    TopNode(H, D, l, r, B);
    if !Collide(H, A, B) {
      var k := Split(|D|);
      var D' := if turns[n] then D[k..] else D[..k];
      FallsOffCollides(H, D', h, path[..n], turns[..n]);
      TreeInputsSplit(H, D, k);
      CollideMono(H, TreeInputs(H, D'), ClimbInputs(H, h, path[..n], turns[..n]), A, B);
    }
  }

  /** The inputs the verifier hashes on a path of admissible length. */
  ghost function VerifierInputs(H: Hash, h: Bytes, i: nat, n: nat, path: seq<Bytes>): set<Bytes>
    requires i < n && |path| >= |Turns(i, n)|
  {
    ClimbInputs(H, h, path, Turns(i, n) + Lefts(|path| - |Turns(i, n)|))
  }

  /** Whatever the verifier accepts against the root of D, at any path length, is
      the hash of leaf i along the honest path, or else the verifier and the tree
      have hashed two different inputs to the same digest. */
  lemma {:induction false} Soundness(H: Hash, D: seq<Bytes>, h: Bytes, i: int, path: seq<Bytes>)
    requires |D| > 0 && Judge(H, h, i, |D|, path, MTH(H, D)) == Accepted
    ensures 0 <= i < |D| && |path| >= |Turns(i, |D|)|
    ensures (h == LeafHash(H, D[i]) && path == Path(H, i, D)) ||
            Collide(H, TreeInputs(H, D), VerifierInputs(H, h, i, |D|, path))
  {
    var e := |path| - |Turns(i, |D|)|;
    if e == 0 {
      assert Turns(i, |D|) + Lefts(0) == Turns(i, |D|);
      SoundExact(H, D, i, h, path);
    } else {
      OverlongFallsOff(i, |D|, e);
      FallsOffCollides(H, D, h, path, Turns(i, |D|) + Lefts(e));
    }
  }

  /** An accepted path longer than the honest one always exhibits a collision. */
  lemma {:induction false} OverlongNeverHonest(H: Hash, D: seq<Bytes>, h: Bytes, i: int, path: seq<Bytes>)
    requires |D| > 0 && Judge(H, h, i, |D|, path, MTH(H, D)) == Accepted
    requires |path| > |Path(H, i, D)|
    ensures Collide(H, TreeInputs(H, D), VerifierInputs(H, h, i, |D|, path))
  {
    PathLength(H, i, D);
    Soundness(H, D, h, i, path);
  }

  /** The path length: the honest path takes exactly the loop's turns until sn is zero,
      at most the logarithm of the size, and every shorter path is rejected. */
  lemma {:induction false} PathLengthLaw(H: Hash, D: seq<Bytes>, i: nat, m: nat, h: Bytes, path: seq<Bytes>,
                                         root: Bytes)
    requires i < |D| <= Pow2(m)
    ensures |Path(H, i, D)| == |Steps(i, |D| - 1)| <= m
    ensures |path| < |Path(H, i, D)| ==> Judge(H, h, i, |D|, path, root) != Accepted
  {
    PathLength(H, i, D);
    StepsAreTurns(i, |D|);
    TurnsBound(m, i, |D|);
  }

  // ----- The same in bytes: the two prefixes, the order of the children, the promotion

  /** Section 2.1 of RFC 6962, spelled out; k is the largest power of two below n. */
  lemma TreeHashInBytes(H: Hash, D: seq<Bytes>, m: nat)
    ensures MTH(H, []) == H([])
    ensures |D| == 1 ==> MTH(H, D) == H([0x00] + D[0])
    ensures var k := Pow2(m);
            |D| > 1 && k < |D| <= 2 * k ==> MTH(H, D) == H([0x01] + MTH(H, D[..k]) + MTH(H, D[k..]))
  {
    if |D| > 1 && Pow2(m) < |D| <= 2 * Pow2(m) {
      SplitIs(|D|, m);
    }
  }

  lemma SplitIs(n: nat, m: nat)
    requires n >= 2 && Pow2(m) < n <= 2 * Pow2(m)
    ensures Split(n) == Pow2(m)
  {
    var e := SplitExp(n);
    if e < m { Pow2Le(e + 1, m); }
    if m < e { Pow2Le(m + 1, e); }
  }

  /** What the verifier says of 32-byte nodes on a path of the right length. */
  lemma JudgeClimbs(H: Hash, h: Bytes, i: nat, n: nat, path: seq<Bytes>, root: Bytes)
    requires |h| == 32 && i < n && AllDigests(path) && |path| == |Turns(i, n)|
    ensures Judge(H, h, i, n, path, root) == Accepted <==> |root| == 32 && Climb(H, h, path, Turns(i, n)) == root
  {
    assert Turns(i, n) + Lefts(0) == Turns(i, n);
  }

  lemma SmallTurns()
    ensures Turns(0, 1) == [] && Turns(0, 2) == [false] && Turns(1, 2) == [true]
    ensures Turns(0, 3) == [false, false] && Turns(1, 3) == [true, false] && Turns(2, 3) == [true]
  {
    assert Pow2(0) == 1 && Pow2(1) == 2;
    SplitIs(2, 0);
    SplitIs(3, 1);
    assert Turns(0, 2) == Turns(0, 1) + [false];
  }

  lemma ClimbTwo(H: Hash, h: Bytes, p: Bytes, q: Bytes, t: bool, u: bool)
    ensures Climb(H, h, [p], [t]) == if t then H([0x01] + p + h) else H([0x01] + h + p)
    ensures var r := Climb(H, h, [p], [t]);
            Climb(H, h, [p, q], [t, u]) == if u then H([0x01] + q + r) else H([0x01] + r + q)
  {
    assert [p][..0] == [] && [p, q][..1] == [p] && [t, u][..1] == [t];
    ClimbNone(H, h);
  }

  /** A tree of two leaves, in bytes. */
  lemma TwoLeaves(H: Hash, a: Bytes, b: Bytes, root: Bytes)
    ensures var x, y := H([0x00] + a), H([0x00] + b);
            && (Judge(H, x, 0, 2, [y], root) == Accepted <==> root == H([0x01] + x + y))
            && (Judge(H, y, 1, 2, [x], root) == Accepted <==> root == H([0x01] + x + y))
  {
    hide Judge, Climb, Turns;
    var x, y := H([0x00] + a), H([0x00] + b);
    SmallTurns();
    JudgeClimbs(H, x, 0, 2, [y], root);
    JudgeClimbs(H, y, 1, 2, [x], root);
    ClimbTwo(H, x, y, y, false, false);
    ClimbTwo(H, y, x, x, true, false);
  }

  /** A tree of three leaves, in bytes: the third is promoted to the level of the node
      above the other two. */
  lemma ThreeLeaves(H: Hash, a: Bytes, b: Bytes, c: Bytes, root: Bytes)
    ensures var x, y, z := H([0x00] + a), H([0x00] + b), H([0x00] + c);
            var xy := H([0x01] + x + y);
            && (Judge(H, x, 0, 3, [y, z], root) == Accepted <==> root == H([0x01] + xy + z))
            && (Judge(H, y, 1, 3, [x, z], root) == Accepted <==> root == H([0x01] + xy + z))
            && (Judge(H, z, 2, 3, [xy], root) == Accepted <==> root == H([0x01] + xy + z))
  {
    hide Judge, Climb, Turns;
    var x, y, z := H([0x00] + a), H([0x00] + b), H([0x00] + c);
    var xy := H([0x01] + x + y);
    SmallTurns();
    JudgeClimbs(H, x, 0, 3, [y, z], root);
    JudgeClimbs(H, y, 1, 3, [x, z], root);
    JudgeClimbs(H, z, 2, 3, [xy], root);
    ClimbTwo(H, x, y, z, false, false);
    ClimbTwo(H, y, x, z, true, false);
    ClimbTwo(H, z, xy, xy, true, false);
  }

  /** What the two sides of a collision are: an input hashed in building the tree is empty
      for the empty tree, or a leaf behind 0x00, or two neighbouring subtrees behind 0x01. */
  lemma {:induction false} TreeInputsAre(H: Hash, D: seq<Bytes>, x: Bytes)
    requires x in TreeInputs(H, D)
    ensures || (D == [] && x == [])
            || (exists i :: 0 <= i < |D| && x == [0x00] + D[i])
            || exists lo, mid, hi :: NodeOver(H, D, lo, mid, hi, x)
    decreases |D|
  {
    hide MTH, NodeOver;
    if |D| > 1 {
      var k := Split(|D|);
      assert D[0..k] == D[..k] && D[k..|D|] == D[k..];
      if x in TreeInputs(H, D[..k]) {
        TreeInputsAre(H, D[..k], x);
        InputShifts(H, D, 0, k, x);
      } else if x in TreeInputs(H, D[k..]) {
        TreeInputsAre(H, D[k..], x);
        InputShifts(H, D, k, |D|, x);
      } else {
        TopInput(H, D, k, x);
      }
    }
  }

  lemma TopInput(H: Hash, D: seq<Bytes>, k: nat, x: Bytes)
    requires 0 < k < |D| && x == NodeInput(MTH(H, D[..k]), MTH(H, D[k..]))
    ensures NodeOver(H, D, 0, k, |D|, x)
  {
    hide MTH;
    assert D[0..k] == D[..k] && D[k..|D|] == D[k..];
  }

  ghost predicate NodeOver(H: Hash, D: seq<Bytes>, lo: int, mid: int, hi: int, x: Bytes) {
    0 <= lo < mid < hi <= |D| && x == [0x01] + MTH(H, D[lo..mid]) + MTH(H, D[mid..hi])
  }

  lemma InputShifts(H: Hash, D: seq<Bytes>, from: nat, to: nat, x: Bytes)
    requires from < to <= |D|
    requires var E := D[from..to];
             (exists i :: 0 <= i < |E| && x == [0x00] + E[i]) || exists lo, mid, hi :: NodeOver(H, E, lo, mid, hi, x)
    ensures (exists i :: 0 <= i < |D| && x == [0x00] + D[i]) || exists lo, mid, hi :: NodeOver(H, D, lo, mid, hi, x)
  {
    hide MTH;
    var E := D[from..to];
    if i :| 0 <= i < |E| && x == [0x00] + E[i] {
      assert x == [0x00] + D[from + i];
    } else {
      var lo, mid, hi :| NodeOver(H, E, lo, mid, hi, x);
      SliceOf(D, from, to, lo, mid);
      SliceOf(D, from, to, mid, hi);
      assert NodeOver(H, D, from + lo, from + mid, from + hi, x);
    }
  }

  lemma SliceOf(D: seq<Bytes>, from: nat, to: nat, lo: nat, hi: nat)
    requires from <= to <= |D| && lo <= hi <= to - from
    ensures D[from..to][lo..hi] == D[from + lo..from + hi]
  {
    var a, b := D[from..to][lo..hi], D[from + lo..from + hi];
    forall i | 0 <= i < |a| ensures a[i] == b[i] { assert a[i] == D[from..to][lo + i]; }
  }

  /** And one hashed by the verifier is a path node and what it has climbed to, behind 0x01. */
  lemma {:induction false} ClimbInputsAre(H: Hash, h: Bytes, path: seq<Bytes>, turns: seq<bool>, x: Bytes)
    requires |path| == |turns| && x in ClimbInputs(H, h, path, turns)
    ensures exists j :: 0 <= j < |path| && ClimbedWith(x, path[j], Climb(H, h, path[..j], turns[..j]))
    decreases |path|
  {
    hide Climb;
    var n := |path| - 1;
    if x in ClimbInputs(H, h, path[..n], turns[..n]) {
      ClimbInputsAre(H, h, path[..n], turns[..n], x);
      var j :| 0 <= j < n && ClimbedWith(x, path[..n][j], Climb(H, h, path[..n][..j], turns[..n][..j]));
      assert path[..n][..j] == path[..j] && turns[..n][..j] == turns[..j];
    } else {
      assert ClimbedWith(x, path[n], Climb(H, h, path[..n], turns[..n]));
    }
  }

  ghost predicate ClimbedWith(x: Bytes, p: Bytes, r: Bytes) { x == [0x01] + p + r || x == [0x01] + r + p }

  lemma CollisionIs(H: Hash, A: set<Bytes>, B: set<Bytes>)
    requires Collide(H, A, B)
    ensures exists x, y :: x in A && y in B && x != y && H(x) == H(y)
  {
  }

  /** When each error is the one reported. */
  lemma ErrorsInOrder(H: Hash, h: Bytes, i: int, n: int, path: seq<Bytes>, root: Bytes)
    ensures var v, sized := Judge(H, h, i, n, path, root), |h| == 32 && |root| == 32;
            && (v == LeafHashSize <==> |h| != 32)
            && (v == RootSize <==> |h| == 32 && |root| != 32)
            && (v == TreeSizeNotPositive <==> sized && n <= 0)
            && (v == IndexOutOfRange <==> sized && n > 0 && !(0 <= i < n))
            && (v == PathNodeSize <==> sized && 0 <= i < n && exists j :: 0 <= j < |path| && |path[j]| != 32)
            && (v == PathTooShort <==> sized && 0 <= i < n && AllDigests(path) && |path| < |Steps(i, n - 1)|)
  {
    if 0 <= i < n { StepsAreTurns(i, n); }
  }
}
