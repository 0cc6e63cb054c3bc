/** internal/server/feed.go: the broadcast hub, and the protocol between it and the
    loop that writes one subscriber's event stream. */
module Feed {
  import opened ByteStrings

  datatype FeedEvent = FeedEvent(apex: Bytes, sub: Bytes, firstSeen: int, seqno: nat)

  const Capacity: nat := 256

  /** The buffered channel and the drop flag of one subscription. */
  datatype Mailbox = Mailbox(buffer: seq<FeedEvent>, drop: bool)

  /** The send of a select with a default: into the buffer, unless it is full. */
  function SendTo(m: Mailbox, e: FeedEvent): Mailbox {
    if |m.buffer| < Capacity then m.(buffer := m.buffer + [e]) else m
  }

  /** What Broadcast does to one subscription, if nobody else runs in between: the send,
      and when it fails, the store of the flag. */
  function OfferTo(m: Mailbox, e: FeedEvent): Mailbox {
    if |m.buffer| < Capacity then SendTo(m, e) else m.(drop := true)
  }

  class FeedSub {
    const apex: Bytes
    var ch: seq<FeedEvent>
    var drop: bool
    var closed: bool

    constructor (apex: Bytes)
      ensures this.apex == apex && Box() == Mailbox([], false) && !closed
    {
      this.apex, ch, drop, closed := apex, [], false, false;
    }

    function Box(): Mailbox
      reads this
    {
      Mailbox(ch, drop)
    }

    /** The non-blocking send of Broadcast. */
    method TrySend(e: FeedEvent)
      modifies this`ch, this`drop
      ensures Box() == OfferTo(old(Box()), e)
    {
      if |ch| < Capacity {
        ch := ch + [e];
      } else {
        drop := true;
      }
    }

    /** drop.Swap(false) */
    method TakeDropped() returns (was: bool)
      modifies this`drop
      ensures was == old(drop) && !drop
    {
      was := drop;
      drop := false;
    }
  }

  class Hub {
    var next: int
    var subs: map<int, FeedSub>

    /** Ids below next, open subscriptions, no subscription under two ids. */
    ghost predicate Valid()
      reads this, subs.Values
    {
      && (forall id :: id in subs ==> id < next && !subs[id].closed)
      && (forall i, j :: i in subs && j in subs && i != j ==> subs[i] != subs[j])
    }

    constructor ()
      ensures Valid() && subs == map[] && next == 0
    {
      next, subs := 0, map[];
    }

    method Subscribe(apex: Bytes) returns (id: int, sub: FeedSub)
      requires Valid()
      modifies this
      ensures Valid() && id == old(next) && next == id + 1
      ensures fresh(sub) && sub.apex == apex && sub.Box() == Mailbox([], false)
      ensures id !in old(subs) && subs == old(subs)[id := sub]
    {
      id := next;
      next := next + 1;
      sub := new FeedSub(apex);
      subs := subs[id := sub];
    }

    method Unsubscribe(id: int)
      requires Valid()
      modifies this`subs, if id in subs then {subs[id]} else {}
      ensures Valid() && subs == old(subs) - {id}
      ensures id in old(subs) ==> old(subs)[id].closed && old(subs)[id].Box() == old(subs[id].Box())
    {
      if id in subs {
        subs[id].closed := true;
        subs := subs - {id};
      }
    }

    /** Close: every channel is closed; what is buffered stays readable. */
    method CloseAll()
      requires Valid()
      modifies this`subs, subs.Values
      ensures Valid() && subs == map[]
      ensures forall id :: id in old(subs) ==> old(subs)[id].closed && old(subs)[id].Box() == old(subs[id].Box())
    {
      var todo := subs.Values;
      while todo != {}
        invariant todo <= subs.Values && unchanged(this)
        invariant forall sub :: sub in subs.Values ==> (sub !in todo ==> sub.closed) && sub.Box() == old(sub.Box())
        decreases |todo|
      {
        var sub :| sub in todo;
        todo := todo - {sub};
        sub.closed := true;
      }
      subs := map[];
    }

    /** Every matching subscriber is offered the event; no other is touched. */
    method Broadcast(e: FeedEvent)
      requires Valid()
      modifies subs.Values
      ensures Valid() && unchanged(this)
      ensures forall id :: id in subs ==>
                subs[id].Box() == if subs[id].apex == e.apex then OfferTo(old(subs[id].Box()), e)
                  else old(subs[id].Box())
    {
      var todo := subs.Values;
      while todo != {}
        invariant todo <= subs.Values && unchanged(this)
        invariant forall sub :: sub in subs.Values ==>
                    sub.closed == old(sub.closed) &&
                    sub.Box() == if sub in todo || sub.apex != e.apex then old(sub.Box())
                      else OfferTo(old(sub.Box()), e)
        decreases |todo|
      {
        var sub :| sub in todo;
        todo := todo - {sub};
        if sub.apex != e.apex { continue; }
        sub.TrySend(e);
      }
    }
  }

  // ----- One stream: broadcasts on one side, the handler's loop on the other

  /** What is written to the stream. Events are named by their place in the order of
      the broadcasts that match the subscription. */
  datatype Line = Resync | Ev(n: nat)

  /** Where the handler is between receiving an event and having written it. */
  datatype Hand = Idle | Got(n: nat) | Swapped(n: nat, was: bool)

  datatype Stream = Stream(
    buffer: seq<nat>,        // places of the buffered events
    drop: bool,
    storing: bool,           // a send has failed and its store of the flag is still to come
    hand: Hand,
    out: seq<Line>,
    count: nat,              // how many matching broadcasts there have been
    drops: map<nat, nat>)    // for each dropped one, how many lines had been written by then

  /** Every access to the channel and to the flag is a move of its own. The handler takes
      no lock, so it may run between the hub's failing send and its store; the hub's lock
      keeps the next send behind that store. */
  datatype Move =
    | Offer      // sub.ch <- e, or the default branch
    | Flag       // sub.drop.Store(true) in the default branch
    | Recv       // e := <-sub.Chan()
    | Swap       // sub.takeDropped()
    | Write      // one line: the resync if one is due, otherwise the event

  const Fresh := Stream([], false, false, Idle, [], 0, map[])

  function Step(s: Stream, m: Move): Stream {
    match m
    case Offer =>
      if s.storing then s
      else if |s.buffer| < Capacity then s.(buffer := s.buffer + [s.count], count := s.count + 1)
      else s.(storing := true, count := s.count + 1, drops := s.drops[s.count := |s.out|])
    case Flag => if s.storing then s.(drop := true, storing := false) else s
    case Recv => if s.hand.Idle? && s.buffer != [] then s.(hand := Got(s.buffer[0]), buffer := s.buffer[1..]) else s
    case Swap => if s.hand.Got? then s.(hand := Swapped(s.hand.n, s.drop), drop := false) else s
    case Write =>
      if !s.hand.Swapped? then s
      else if s.hand.was then s.(hand := Swapped(s.hand.n, false), out := s.out + [Resync])
      else s.(hand := Idle, out := s.out + [Ev(s.hand.n)])
  }

  function Run(s: Stream, moves: seq<Move>): Stream {
    if moves == [] then s else Step(Run(s, moves[..|moves| - 1]), moves[|moves| - 1])
  }

  /** The mailbox a stream stands for, when `events` are the broadcasts so far. */
  ghost function BoxOf(s: Stream, events: seq<FeedEvent>): Mailbox
    requires forall i :: 0 <= i < |s.buffer| ==> s.buffer[i] < |events|
  {
    Mailbox(seq(|s.buffer|, i requires 0 <= i < |s.buffer| => events[s.buffer[i]]), s.drop)
  }

  /** The hub's send and its store are the protocol's two moves, and one after the other
      they are the whole offer. */
  lemma BcastIsOffer(s: Stream, events: seq<FeedEvent>, e: FeedEvent)
    requires |events| == s.count && !s.storing && forall i :: 0 <= i < |s.buffer| ==> s.buffer[i] < |events|
    ensures var t, all := Step(s, Offer), events + [e];
            && (forall i :: 0 <= i < |t.buffer| ==> t.buffer[i] < |all|)
            && BoxOf(t, all) == SendTo(BoxOf(s, events), e)
            && (t.storing <==> |s.buffer| >= Capacity)
            && BoxOf(Step(t, Flag), all) == OfferTo(BoxOf(s, events), e)
  {
    var t, all := Step(s, Offer), events + [e];
    var box := BoxOf(s, events).buffer;
    if |s.buffer| < Capacity {
      assert BoxOf(t, all).buffer == box + [e];
    } else {
      assert BoxOf(t, all).buffer == box;
    }
  }

  /** The places in hand. */
  function Held(h: Hand): seq<nat> {
    match h
    case Idle => []
    case Got(n) => [n]
    case Swapped(n, _) => [n]
  }

  /** The places of the events written. */
  function Written(out: seq<Line>): seq<nat> {
    if out == [] then []
    else
      var rest := Written(out[..|out| - 1]);
      match out[|out| - 1]
      case Resync => rest
      case Ev(n) => rest + [n]
  }

  /** Everything that was not dropped, in broadcast order. */
  function Kept(s: Stream): seq<nat> { Written(s.out) + Held(s.hand) + s.buffer }

  ghost predicate Increasing(a: seq<nat>) { forall i, j :: 0 <= i < j < |a| ==> a[i] < a[j] }

  /** Each broadcast is written, in hand, buffered or dropped, exactly one of them,
      and order is kept. */
  ghost predicate Conserved(s: Stream) {
    && Increasing(Kept(s))
    && (forall n :: n in Kept(s) ==> n < s.count && n !in s.drops)
    && (forall n: nat :: n < s.count ==> n in Kept(s) || n in s.drops)
    && (forall n :: n in s.drops ==> n < s.count && s.drops[n] <= |s.out|)
    && (s.storing ==> s.count > 0 && s.count - 1 in s.drops)
  }

  lemma WrittenOne(out: seq<Line>, l: Line)
    ensures Written(out + [l]) == if l.Ev? then Written(out) + [l.n] else Written(out)
  {
    assert (out + [l])[..|out|] == out;
  }

  lemma KeptStep(s: Stream, m: Move)
    ensures Kept(Step(s, m)) == if m.Offer? && !s.storing && |s.buffer| < Capacity then Kept(s) + [s.count] else Kept(s)
  {
    hide Written;
    match m
    case Offer =>
      assert Written(s.out) + Held(s.hand) + (s.buffer + [s.count]) == Kept(s) + [s.count];
    case Flag =>
    case Recv =>
      if s.hand.Idle? && s.buffer != [] {
        assert s.buffer == [s.buffer[0]] + s.buffer[1..];
        assert Written(s.out) + [] + s.buffer == Written(s.out) + [s.buffer[0]] + s.buffer[1..];
      }
    case Swap =>
    case Write =>
      if s.hand.Swapped? {
        var n := s.hand.n;
        WrittenOne(s.out, Ev(n));
        WrittenOne(s.out, Resync);
        assert Written(s.out) + [n] + s.buffer == Written(s.out) + [n] + [] + s.buffer;
      }
  }

  lemma ConservedStep(s: Stream, m: Move)
    requires Conserved(s)
    ensures Conserved(Step(s, m))
  {
    hide Kept;
    KeptStep(s, m);
    var t := Step(s, m);
    if m.Offer? && !s.storing && |s.buffer| < Capacity {
      assert Kept(t) == Kept(s) + [s.count];
      forall i, j | 0 <= i < j < |Kept(t)| ensures Kept(t)[i] < Kept(t)[j] {
        assert Kept(s)[i] in Kept(s);
      }
    }
  }

  /** Some resync was written at or after line `from`, before any event broadcast
      after d. */
  ghost predicate Resynced(out: seq<Line>, from: nat, d: nat) {
    exists q :: from <= q < |out| && out[q] == Resync && forall p :: 0 <= p < q && out[p].Ev? ==> out[p].n < d
  }

  /** A resync for the drop of d is still to come, and nothing broadcast after d can
      be written before it. */
  ghost predicate Due(s: Stream, d: nat) {
    && (s.drop || (s.hand.Swapped? && s.hand.was) || (s.storing && d == s.count - 1))
    && (forall p :: 0 <= p < |s.out| && s.out[p].Ev? ==> s.out[p].n < d)
    && (s.hand.Swapped? && !s.hand.was ==> s.hand.n < d)
  }

  /** Each dropped event has had its resync or has it coming. */
  ghost predicate Announced(s: Stream) {
    forall d :: d in s.drops ==> Resynced(s.out, s.drops[d], d) || Due(s, d)
  }

  lemma ResyncedMore(out: seq<Line>, more: seq<Line>, from: nat, d: nat)
    requires Resynced(out, from, d)
    ensures Resynced(out + more, from, d)
  {
    var q :| from <= q < |out| && out[q] == Resync && forall p :: 0 <= p < q && out[p].Ev? ==> out[p].n < d;
    assert (out + more)[q] == Resync;
  }

  lemma {:induction false} WrittenHas(out: seq<Line>, p: nat)
    requires p < |out| && out[p].Ev?
    ensures out[p].n in Written(out)
    decreases |out|
  {
    if p < |out| - 1 {
      WrittenHas(out[..|out| - 1], p);
    }
  }

  lemma AnnouncedOffer(s: Stream)
    requires Conserved(s) && Announced(s)
    ensures Announced(Step(s, Offer))
  {
    hide Increasing, Written;
    var t := Step(s, Offer);
    if !s.storing && |s.buffer| >= Capacity { LastOfAll(s); }
    forall d | d in t.drops ensures Resynced(t.out, t.drops[d], d) || Due(t, d) {
      if d in s.drops && !Resynced(s.out, s.drops[d], d) { assert Due(s, d); }
    }
  }

  /** Nothing yet written or in hand comes after the next broadcast. */
  lemma LastOfAll(s: Stream)
    requires Conserved(s)
    ensures forall p :: 0 <= p < |s.out| && s.out[p].Ev? ==> s.out[p].n < s.count && s.out[p].n !in s.drops
    ensures !s.hand.Idle? ==> s.hand.n < s.count && s.hand.n !in s.drops
  {
    hide Increasing, Written;
    forall p | 0 <= p < |s.out| && s.out[p].Ev? ensures s.out[p].n < s.count && s.out[p].n !in s.drops {
      WrittenHas(s.out, p);
      assert s.out[p].n in Kept(s);
    }
    if !s.hand.Idle? { assert s.hand.n in Kept(s); }
  }

  lemma AnnouncedWrite(s: Stream)
    requires Conserved(s) && Announced(s) && s.hand.Swapped?
    ensures Announced(Step(s, Write))
  {
    hide Conserved, Written;
    var t := Step(s, Write);
    var more := if s.hand.was then [Resync] else [Ev(s.hand.n)];
    assert t.out == s.out + more;
    forall d | d in t.drops ensures Resynced(t.out, t.drops[d], d) || Due(t, d) {
      if Resynced(s.out, s.drops[d], d) {
        ResyncedMore(s.out, more, s.drops[d], d);
      } else {
        assert Due(s, d);
        if s.hand.was {
          DropBound(s, d);
          assert t.out[|s.out|] == Resync;
          assert Resynced(t.out, t.drops[d], d);
        } else {
          assert Due(t, d);
        }
      }
    }
  }

  lemma DropBound(s: Stream, d: nat)
    requires Conserved(s) && d in s.drops
    ensures s.drops[d] <= |s.out|
  {
  }

  lemma AnnouncedTake(s: Stream, m: Move)
    requires Conserved(s) && Announced(s) && (m.Recv? || m.Swap? || m.Flag?)
    ensures Announced(Step(s, m))
  {
    hide Increasing, Kept;
    var t := Step(s, m);
    LastOfAll(s);
    forall d | d in t.drops ensures Resynced(t.out, t.drops[d], d) || Due(t, d) {
      if !Resynced(s.out, s.drops[d], d) { assert Due(s, d); }
    }
  }

  lemma AnnouncedStep(s: Stream, m: Move)
    requires Conserved(s) && Announced(s)
    ensures Announced(Step(s, m))
  {
    hide Conserved, Announced, Step;
    match m
    case Offer => AnnouncedOffer(s);
    case Flag => AnnouncedTake(s, m);
    case Recv => AnnouncedTake(s, m);
    case Swap => AnnouncedTake(s, m);
    case Write => if s.hand.Swapped? { AnnouncedWrite(s); } else { WriteIdle(s); }
  }

  lemma {:induction false} RunKeeps(moves: seq<Move>)
    ensures Conserved(Run(Fresh, moves)) && Announced(Run(Fresh, moves))
    decreases |moves|
  {
    hide Conserved, Announced, Step;
    if moves == [] {
      FreshKeeps();
    } else {
      var n := |moves| - 1;
      RunKeeps(moves[..n]);
      ConservedStep(Run(Fresh, moves[..n]), moves[n]);
      AnnouncedStep(Run(Fresh, moves[..n]), moves[n]);
    }
  }

  lemma FreshKeeps()
    ensures Conserved(Fresh) && Announced(Fresh)
  {
  }

  lemma WriteIdle(s: Stream)
    requires !s.hand.Swapped?
    ensures Step(s, Write) == s
  {
  }

  /** An event broadcast after a dropped one is written only after a resync that
      itself came after the drop. */
  lemma ResyncBetween(s: Stream, d: nat, p: nat)
    requires Announced(s) && d in s.drops && p < |s.out| && s.out[p].Ev? && s.out[p].n > d
    ensures exists q :: s.drops[d] <= q < p && s.out[q] == Resync
  {
    assert Resynced(s.out, s.drops[d], d);
    var q :| s.drops[d] <= q < |s.out| && s.out[q] == Resync &&
        forall p :: 0 <= p < q && s.out[p].Ev? ==> s.out[p].n < d;
    assert q < p;
  }

  lemma WrittenIncreasing(s: Stream)
    requires Conserved(s)
    ensures Increasing(Written(s.out))
  {
    hide Written;
    assert forall i :: 0 <= i < |Written(s.out)| ==> Written(s.out)[i] == Kept(s)[i];
  }

  /** No silent gap. On every interleaving: the events written are an ordered
      subsequence of the matching broadcasts; every broadcast is written, on its way,
      or dropped; and whenever an event broadcast after a dropped one has been written,
      a resync was written before it, after the drop. */
  lemma NoSilentGap(moves: seq<Move>)
    ensures var s := Run(Fresh, moves);
            && Increasing(Written(s.out))
            && (forall n: nat :: n < s.count ==> n in Kept(s) || n in s.drops)
            && (forall d, p :: d in s.drops && 0 <= p < |s.out| && s.out[p].Ev? && s.out[p].n > d ==>
                  exists q :: s.drops[d] <= q < p && s.out[q] == Resync)
  {
    hide Written, Kept, Increasing, Announced, Run;
    var s := Run(Fresh, moves);
    RunKeeps(moves);
    WrittenIncreasing(s);
    forall d, p | d in s.drops && 0 <= p < |s.out| && s.out[p].Ev? && s.out[p].n > d
      ensures exists q :: s.drops[d] <= q < p && s.out[q] == Resync
    {
      ResyncBetween(s, d, p);
    }
  }

  // ----- A drained handler

  /** Since the last store of the flag the handler has had something to wake it: an event
      that the store found buffered, or received and not yet swapped, or one sent later. */
  ghost predicate Woken(moves: seq<Move>)
    decreases |moves|
  {
    moves == [] ||
    var n := |moves| - 1;
    var s := Run(Fresh, moves[..n]);
    if moves[n].Flag? && s.storing then s.buffer != [] || s.hand.Got?
    else Woken(moves[..n]) || (moves[n].Offer? && !s.storing && |s.buffer| < Capacity)
  }

  ghost predicate WakeInv(s: Stream, woken: bool) {
    if woken then s.drop ==> s.buffer != [] || s.hand.Got?
    else s.drop && s.buffer == [] && !s.hand.Got?
  }

  lemma {:induction false} RunWakes(moves: seq<Move>)
    ensures WakeInv(Run(Fresh, moves), Woken(moves))
    decreases |moves|
  {
    if moves != [] {
      RunWakes(moves[..|moves| - 1]);
    }
  }

  predicate Drained(s: Stream) { s.buffer == [] && s.hand.Idle? }

  /** When the handler has drained its buffer, the flag is clear if and only if it has been
      woken since the last store of the flag; and while the flag is clear, with no store
      under way, every drop has been announced. */
  lemma {:induction false} DrainedIff(moves: seq<Move>)
    requires Drained(Run(Fresh, moves))
    ensures var s := Run(Fresh, moves);
            && (!s.drop <==> Woken(moves))
            && (!s.drop && !s.storing ==>
                  forall d :: d in s.drops ==> exists q :: s.drops[d] <= q < |s.out| && s.out[q] == Resync)
  {
    hide Conserved, Woken, Run;
    RunKeeps(moves);
    RunWakes(moves);
    var s := Run(Fresh, moves);
    if !s.drop && !s.storing {
      forall d | d in s.drops ensures exists q :: s.drops[d] <= q < |s.out| && s.out[q] == Resync {
        assert Resynced(s.out, s.drops[d], d);
      }
    }
  }

  /** A drained handler writes nothing until the next matching broadcast. */
  lemma {:induction false} SilentUntilOffer(s: Stream, later: seq<Move>)
    requires Drained(s) && Offer !in later
    ensures Drained(Run(s, later)) && Run(s, later).out == s.out
    decreases |later|
  {
    if later != [] {
      var n := |later| - 1;
      assert forall m :: m in later[..n] ==> m in later;
      SilentUntilOffer(s, later[..n]);
      assert later[n] in later;
    }
  }

  /** That broadcast brings the resync of a flag that was left set. */
  lemma OfferAnnounces(s: Stream)
    requires Drained(s) && s.drop && !s.storing
    ensures Step(Step(Step(Step(s, Offer), Recv), Swap), Write).out == s.out + [Resync]
  {
  }

  // ----- A drop that nobody announces

  function Offers(n: nat): seq<Move> { if n == 0 then [] else Offers(n - 1) + [Offer] }

  /** The handler takes and writes so many events. */
  function Takes(n: nat): seq<Move> { if n == 0 then [] else Takes(n - 1) + [Recv] + [Swap] + [Write] }

  function Places(from: nat, to: nat): (a: seq<nat>)
    requires from <= to
    ensures |a| == to - from && forall i :: 0 <= i < |a| ==> a[i] == from + i
  {
    seq(to - from, i requires 0 <= i < to - from => from + i)
  }

  function Events(n: nat): (out: seq<Line>)
    ensures |out| == n && forall i :: 0 <= i < n ==> out[i] == Ev(i)
  {
    seq(n, i requires 0 <= i < n => Ev(i))
  }

  lemma RunOne(s: Stream, moves: seq<Move>, m: Move)
    ensures Run(s, moves + [m]) == Step(Run(s, moves), m)
  {
    assert (moves + [m])[..|moves|] == moves;
  }

  lemma {:induction false} Filled(n: nat)
    requires n <= Capacity
    ensures Run(Fresh, Offers(n)) == Fresh.(count := n, buffer := Places(0, n))
    decreases n
  {
    hide Run, Step;
    if n == 0 {
      assert Places(0, 0) == [];
      RunNone(Fresh);
    } else {
      Filled(n - 1);
      RunOne(Fresh, Offers(n - 1), Offer);
      OfferFits(Run(Fresh, Offers(n - 1)));
      assert Places(0, n - 1) + [n - 1] == Places(0, n);
    }
  }

  lemma RunNone(s: Stream)
    ensures Run(s, []) == s
  {
  }

  lemma OfferFits(s: Stream)
    requires !s.storing && |s.buffer| < Capacity
    ensures Step(s, Offer) == s.(buffer := s.buffer + [s.count], count := s.count + 1)
  {
  }

  /** The stream after 257 broadcasts, of which the last has failed. */
  lemma Overflowed()
    ensures Run(Fresh, Offers(Capacity + 1)) ==
            Fresh.(storing := true, count := Capacity + 1, buffer := Places(0, Capacity), drops := map[Capacity := 0])
  {
    hide Run, Places;
    Filled(Capacity);
    RunOne(Fresh, Offers(Capacity), Offer);
  }

  /** Taking an event with the flag clear. */
  lemma TakeOne(s: Stream)
    requires s.hand.Idle? && s.buffer != [] && !s.drop
    ensures Step(Step(Step(s, Recv), Swap), Write) == s.(buffer := s.buffer[1..], out := s.out + [Ev(s.buffer[0])])
  {
  }

  lemma {:induction false} Emptied(moves: seq<Move>, s: Stream, n: nat)
    requires n <= Capacity && s == Run(Fresh, moves)
    requires s.hand.Idle? && s.buffer == Places(0, Capacity) && !s.drop && s.out == []
    ensures Run(Fresh, moves + Takes(n)) == s.(buffer := Places(n, Capacity), out := Events(n))
    decreases n
  {
    hide Run, Step;
    if n == 0 {
      assert moves + [] == moves;
      assert Events(0) == [];
    } else {
      var before := moves + Takes(n - 1);
      Emptied(moves, s, n - 1);
      RunOne(Fresh, before, Recv);
      RunOne(Fresh, before + [Recv], Swap);
      RunOne(Fresh, before + [Recv] + [Swap], Write);
      assert moves + Takes(n) == before + [Recv] + [Swap] + [Write];
      TakeOne(Run(Fresh, before));
      assert Places(n - 1, Capacity)[1..] == Places(n, Capacity);
      assert Events(n - 1) + [Ev(n - 1)] == Events(n);
    }
  }

  /** 256 sends fill the buffer and the next one fails; before its flag is stored the
      handler takes everything. The drop is then announced by nothing that is on its way. */
  lemma {:induction false} SilentDrop()
    ensures var s := Run(Fresh, Offers(257) + Takes(256) + [Flag]);
            && Drained(s) && !s.storing && s.drop && 256 in s.drops
            && s.out == Events(256)
            && !Woken(Offers(257) + Takes(256) + [Flag])
  {
    hide Run, Woken, Offers, Takes;
    var moves := Offers(Capacity + 1) + Takes(Capacity);
    Overflowed();
    Emptied(Offers(Capacity + 1), Run(Fresh, Offers(Capacity + 1)), Capacity);
    assert Places(Capacity, Capacity) == [];
    RunOne(Fresh, moves, Flag);
    DrainedIff(moves + [Flag]);
  }

  // ----- The bound on concurrent streams

  const MaxActiveFeeds: nat := 128

  /** The shared counter, the handlers that stream, and those that found the counter
      too high but have not yet taken their own increment back. */
  datatype Gate = Gate(active: int, streaming: set<nat>, refusing: set<nat>)

  datatype GateMove =
    | Enter(h: nat)     // activeFeeds.Add(1), and its result against the bound
    | TakeBack(h: nat)  // activeFeeds.Add(-1) of a refused request
    | Leave(h: nat)     // the deferred activeFeeds.Add(-1) of a stream

  function GateStep(g: Gate, m: GateMove): Gate {
    match m
    case Enter(h) =>
      if h in g.streaming + g.refusing then g
      else if g.active + 1 > MaxActiveFeeds then g.(active := g.active + 1, refusing := g.refusing + {h})
      else g.(active := g.active + 1, streaming := g.streaming + {h})
    case TakeBack(h) => if h in g.refusing then g.(active := g.active - 1, refusing := g.refusing - {h}) else g
    case Leave(h) => if h in g.streaming then g.(active := g.active - 1, streaming := g.streaming - {h}) else g
  }

  function GateRun(moves: seq<GateMove>): Gate {
    if moves == [] then Gate(0, {}, {}) else GateStep(GateRun(moves[..|moves| - 1]), moves[|moves| - 1])
  }

  ghost predicate Counted(g: Gate) {
    g.active == |g.streaming| + |g.refusing| && |g.streaming| <= 128
  }

  lemma CountedStep(g: Gate, m: GateMove)
    requires Counted(g)
    ensures Counted(GateStep(g, m))
  {
  }

  /** On every interleaving the counter is the number of handlers that hold an
      increment, and at most 128 of them stream. */
  lemma {:induction false} FeedsBounded(moves: seq<GateMove>)
    ensures Counted(GateRun(moves))
    decreases |moves|
  {
    hide GateStep;
    if moves != [] {
      FeedsBounded(moves[..|moves| - 1]);
      CountedStep(GateRun(moves[..|moves| - 1]), moves[|moves| - 1]);
    }
  }

  /** A request is refused if and only if the streams and the refused requests that
      still hold their increment fill the bound together: with none of the latter,
      exactly if 128 stream. */
  lemma {:induction false} RefusedIff(moves: seq<GateMove>, h: nat)
    requires h !in GateRun(moves).streaming + GateRun(moves).refusing
    ensures var g := GateRun(moves);
            h in GateRun(moves + [Enter(h)]).refusing <==> |g.streaming| + |g.refusing| >= 128
  {
    FeedsBounded(moves);
    assert (moves + [Enter(h)])[..|moves|] == moves;
  }
}
