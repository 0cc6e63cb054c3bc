/** The parsers of internal/rfc6962/tbs.go and leaf.go, with encoders they invert. */
module Wire {
  import opened ByteStrings
  import opened StoreModel
  import Keys

  // ----- DER (section 8.1 of X.690, definite lengths of at most four bytes)

  datatype TLV = TLV(tag: byte, clazz: nat, body: Bytes, full: Bytes)

  /** The length at b[1..]: its value and where the body starts. */
  function ReadLength(b: Bytes): Option<(nat, nat)>
    requires |b| >= 2
  {
    if b[1] < 0x80 then Some((b[1], 2))
    else
      var n := b[1] - 0x80;
      if n == 0 || n > 4 || |b| < 2 + n then None else Some((FromBE(b[2..2 + n]), 2 + n))
  }

  function ReadTLV(b: Bytes): Option<(TLV, Bytes)> {
    if |b| < 2 then None
    else
      match ReadLength(b)
      case None => None
      case Some((l, hdr)) =>
        if |b| < hdr + l then None
        else Some((TLV(b[0], b[0] / 64, b[hdr..hdr + l], b[..hdr + l]), b[hdr + l..]))
  }

  function IterDER(b: Bytes): Option<seq<TLV>>
    decreases |b|
  {
    if b == [] then Some([])
    else
      match ReadTLV(b)
      case None => None
      case Some((t, rest)) =>
        ReadShrinks(b);
        match IterDER(rest)
        case None => None
        case Some(more) => Some([t] + more)
  }

  lemma ReadShrinks(b: Bytes)
    ensures ReadTLV(b).Some? ==> |ReadTLV(b).value.1| < |b| && ReadTLV(b).value.0.full + ReadTLV(b).value.1 == b
  {
  }

  /** readTLV with its length loop. */
  method ReadOne(b: Bytes) returns (r: Option<(TLV, Bytes)>)
    ensures r == ReadTLV(b)
  {
    if |b| < 2 { return None; }
    var tag := b[0];
    var l: nat := b[1];
    var hdr := 2;
    if l >= 0x80 {
      var n := l - 0x80;
      if n == 0 || n > 4 || |b| < 2 + n { return None; }
      l := 0;
      for i := 0 to n
        invariant l == FromBE(b[2..2 + i])
      {
        assert b[2..2 + i + 1][..i] == b[2..2 + i];
        l := l * 256 + b[2 + i];
      }
      hdr := 2 + n;
    }
    if |b| < hdr + l { return None; }
    return Some((TLV(tag, tag / 64, b[hdr..hdr + l], b[..hdr + l]), b[hdr + l..]));
  }

  /** iterDER. */
  method ReadAll(input: Bytes) returns (r: Option<seq<TLV>>)
    ensures r == IterDER(input)
  {
    hide ReadTLV;
    var out: seq<TLV> := [];
    var b := input;
    assert forall more: seq<TLV> :: out + more == more;
    while b != []
      invariant IterDER(input) == match IterDER(b) case None => None case Some(more) => Some(out + more)
      decreases |b|
    {
      ReadShrinks(b);
      var one := ReadOne(b);
      if one == None { return None; }
      var (t, rest) := one.value;
      ghost var more := IterDER(rest);
      assert more.Some? ==> out + ([t] + more.value) == (out + [t]) + more.value;
      out := out + [t];
      b := rest;
    }
    assert out + [] == out;
    return Some(out);
  }

  /** A single complete TLV with nothing after it. */
  predicate IsTLV(b: Bytes) { ReadTLV(b).Some? && ReadTLV(b).value.1 == [] }

  function Parsed(b: Bytes): TLV
    requires IsTLV(b)
  {
    ReadTLV(b).value.0
  }

  lemma LengthExtends(b: Bytes, more: Bytes)
    requires |b| >= 2 && ReadLength(b).Some?
    ensures ReadLength(b + more) == ReadLength(b)
  {
    if b[1] >= 0x80 {
      var n := b[1] - 0x80;
      assert (b + more)[2..2 + n] == b[2..2 + n];
    }
  }

  /** What follows a complete TLV does not change how it is read. */
  lemma ReadExtends(b: Bytes, more: Bytes)
    requires IsTLV(b)
    ensures ReadTLV(b + more) == Some((Parsed(b), more))
  {
    hide ReadLength;
    LengthExtends(b, more);
    var (l, hdr) := ReadLength(b).value;
    assert |b| == hdr + l;
    assert (b + more)[hdr..hdr + l] == b[hdr..hdr + l] && (b + more)[..hdr + l] == b && b[..hdr + l] == b;
    assert (b + more)[hdr + l..] == more;
  }

  function Concat(parts: seq<Bytes>): Bytes {
    if parts == [] then [] else parts[0] + Concat(parts[1..])
  }

  function Fulls(tlvs: seq<TLV>): (parts: seq<Bytes>)
    ensures |parts| == |tlvs|
  {
    seq(|tlvs|, i requires 0 <= i < |tlvs| => tlvs[i].full)
  }

  lemma FullIsTLV(b: Bytes)
    requires ReadTLV(b).Some?
    ensures var (t, rest) := ReadTLV(b).value; IsTLV(t.full) && Parsed(t.full) == t
  {
    var (l, hdr) := ReadLength(b).value;
    var full := b[..hdr + l];
    if b[1] >= 0x80 { assert full[2..hdr] == b[2..hdr]; }
    assert ReadLength(full) == ReadLength(b);
    assert full[hdr..hdr + l] == b[hdr..hdr + l] && full[..hdr + l] == full;
  }

  /** On acceptance the full slices are complete TLVs and concatenate to the input. */
  lemma {:induction false} AcceptedIsConcat(b: Bytes)
    requires IterDER(b).Some?
    ensures Concat(Fulls(IterDER(b).value)) == b
    ensures forall i :: 0 <= i < |IterDER(b).value| ==>
              IsTLV(IterDER(b).value[i].full) && Parsed(IterDER(b).value[i].full) == IterDER(b).value[i]
    decreases |b|
  {
    hide ReadTLV;
    if b != [] {
      ReadShrinks(b);
      FullIsTLV(b);
      var (t, rest) := ReadTLV(b).value;
      AcceptedIsConcat(rest);
      assert Fulls(IterDER(b).value)[1..] == Fulls(IterDER(rest).value);
    }
  }

  /** And every concatenation of complete TLVs is accepted, each read back as it is. */
  lemma {:induction false} ConcatIsAccepted(parts: seq<Bytes>)
    requires forall i :: 0 <= i < |parts| ==> IsTLV(parts[i])
    ensures IterDER(Concat(parts)).Some? && |IterDER(Concat(parts)).value| == |parts|
    ensures forall i :: 0 <= i < |parts| ==> IterDER(Concat(parts)).value[i] == Parsed(parts[i])
    decreases |parts|
  {
    hide ReadTLV, IsTLV, Parsed;
    if parts != [] {
      ConcatIsAccepted(parts[1..]);
      ReadExtends(parts[0], Concat(parts[1..]));
      TLVNonempty(parts[0]);
    }
  }

  lemma TLVNonempty(b: Bytes)
    requires IsTLV(b)
    ensures b != []
  {
  }

  /** The shortest definite length. */
  function EncodeLength(n: nat): (b: Bytes)
    requires n < Range(4)
    ensures b != []
  {
    if n < 0x80 then [n]
    else if n < Range(1) then [0x81] + ToBE(n, 1)
    else if n < Range(2) then [0x82] + ToBE(n, 2)
    else if n < Range(3) then [0x83] + ToBE(n, 3)
    else [0x84] + ToBE(n, 4)
  }

  function EncodeTLV(tag: byte, body: Bytes): Bytes
    requires |body| < Range(4)
  {
    [tag] + EncodeLength(|body|) + body
  }

  lemma LongLength(tag: byte, n: nat, k: nat, body: Bytes)
    requires 1 <= k <= 4 && n < Range(k)
    ensures ReadLength([tag] + ([0x80 + k] + ToBE(n, k)) + body) == Some((n, 2 + k))
  {
    var b := [tag] + ([0x80 + k] + ToBE(n, k)) + body;
    assert b[1] == 0x80 + k && b[2..2 + k] == ToBE(n, k);
    FromToBE(n, k);
  }

  lemma LengthRoundTrip(tag: byte, n: nat, body: Bytes)
    requires n < Range(4)
    ensures ReadLength([tag] + EncodeLength(n) + body) == Some((n, 1 + |EncodeLength(n)|))
  {
    if n < 0x80 {
    } else if n < Range(1) {
      LongLength(tag, n, 1, body);
    } else if n < Range(2) {
      LongLength(tag, n, 2, body);
    } else if n < Range(3) {
      LongLength(tag, n, 3, body);
    } else {
      LongLength(tag, n, 4, body);
    }
  }

  lemma EncodedIsTLV(tag: byte, body: Bytes)
    requires |body| < Range(4)
    ensures IsTLV(EncodeTLV(tag, body))
    ensures Parsed(EncodeTLV(tag, body)) == TLV(tag, tag / 64, body, EncodeTLV(tag, body))
  {
    hide ReadLength, EncodeLength, Range;
    var b, hdr, l := EncodeTLV(tag, body), 1 + |EncodeLength(|body|)|, |body|;
    LengthRoundTrip(tag, l, body);
    assert b[hdr..hdr + l] == body && b[..hdr + l] == b && b[hdr + l..] == [];
  }

  /** iterDER recovers any list of tagged bodies shorter than 2^32 from its DER. */
  lemma DERRoundTrip(tags: seq<byte>, bodies: seq<Bytes>)
    requires |tags| == |bodies| && forall i :: 0 <= i < |bodies| ==> |bodies[i]| < Range(4)
    ensures var parts := seq(|tags|, i requires 0 <= i < |tags| => EncodeTLV(tags[i], bodies[i]));
            IterDER(Concat(parts)) ==
              Some(seq(|tags|, i requires 0 <= i < |tags| => TLV(tags[i], tags[i] / 64, bodies[i], parts[i])))
  {
    hide EncodeTLV, IsTLV, Parsed, ReadTLV, Range, IterDER;
    var parts := seq(|tags|, i requires 0 <= i < |tags| => EncodeTLV(tags[i], bodies[i]));
    forall i | 0 <= i < |parts| ensures IsTLV(parts[i]) &&
           Parsed(parts[i]) == TLV(tags[i], tags[i] / 64, bodies[i], parts[i]) {
      EncodedIsTLV(tags[i], bodies[i]);
    }
    ConcatIsAccepted(parts);
    assert IterDER(Concat(parts)).value ==
           seq(|tags|, i requires 0 <= i < |tags| => TLV(tags[i], tags[i] / 64, bodies[i], parts[i]));
  }

  /** The three forms of a length, in bytes: below 0x80 by itself; behind 0x81 and 0x82 in
      one and two bytes, the higher first. The class is the top two bits of the tag. */
  lemma LengthForms(tag: byte, body: Bytes, more: Bytes)
    requires |body| < 0x1_0000
    ensures |body| < 0x80 ==>
              ReadTLV([tag] + [|body|] + body + more) == Some((TLV(tag, tag / 64, body, [tag] + [|body|] + body), more))
    ensures |body| < 0x100 ==>
              ReadTLV([tag] + [0x81, |body|] + body + more) ==
              Some((TLV(tag, tag / 64, body, [tag] + [0x81, |body|] + body), more))
    ensures var hi, lo := |body| / 256, |body| % 256;
            ReadTLV([tag] + [0x82, hi, lo] + body + more) ==
            Some((TLV(tag, tag / 64, body, [tag] + [0x82, hi, lo] + body), more))
  {
    if |body| < 0x80 { ReadAs(tag, [|body|], body, more); }
    if |body| < 0x100 {
      assert ([tag] + [0x81, |body|] + body + more)[2..3] == [|body|];
      SmallBE(0, |body|);
      ReadAs(tag, [0x81, |body|], body, more);
    }
    var hi, lo := |body| / 256, |body| % 256;
    assert ([tag] + [0x82, hi, lo] + body + more)[2..4] == [hi, lo];
    SmallBE(hi, lo);
    ReadAs(tag, [0x82, hi, lo], body, more);
  }

  /** What is refused: less than a tag and a length; an indefinite length, or one of more than
      four bytes; a length cut short; and a body cut short. */
  lemma ReadRefuses(b: Bytes)
    ensures ReadTLV(b) == None <==>
            || |b| < 2
            || b[1] == 0x80 || b[1] > 0x84
            || (b[1] < 0x80 && |b| < 2 + b[1])
            || (0x81 <= b[1] <= 0x84 &&
                var n := b[1] - 0x80; |b| < 2 + n || |b| < 2 + n + FromBE(b[2..2 + n]))
  {
    hide FromBE;
  }

  lemma SmallBE(hi: byte, lo: byte)
    ensures FromBE([lo]) == lo && FromBE([hi, lo]) == 256 * hi + lo
  {
    assert [lo][..0] == [] && [hi, lo][..1] == [hi] && [hi][..0] == [];
    assert FromBE([hi]) == hi;
  }

  lemma ReadAs(tag: byte, len: Bytes, body: Bytes, more: Bytes)
    requires |len| >= 1 && ReadLength([tag] + len + body + more) == Some((|body|, 1 + |len|))
    ensures ReadTLV([tag] + len + body + more) == Some((TLV(tag, tag / 64, body, [tag] + len + body), more))
  {
    var b, hdr := [tag] + len + body + more, 1 + |len|;
    assert b[hdr..hdr + |body|] == body && b[..hdr + |body|] == [tag] + len + body && b[hdr + |body|..] == more;
  }

  // ----- The SCT list (section 3.3 of RFC 6962)

  /** The timestamp of one serialized SCT; zero if it is too short. */
  function SCTTimestamp(b: Bytes): int {
    if |b| < 41 then 0 else Keys.FromU64(FromBE(b[33..41]))
  }

  /** The entries of the list body; a truncated last entry ends it. */
  function SCTEntries(b: Bytes): seq<Bytes>
    decreases |b|
  {
    if |b| < 2 then []
    else
      var n := FromBE(b[..2]);
      if |b| - 2 < n then [] else [b[2..2 + n]] + SCTEntries(b[2 + n..])
  }

  function Positive(entries: seq<Bytes>): seq<int> {
    if entries == [] then []
    else (if SCTTimestamp(entries[0]) > 0 then [SCTTimestamp(entries[0])] else []) + Positive(entries[1..])
  }

  function ParseSCTList(octets: Bytes): seq<int> {
    if |octets| < 2 then []
    else
      var total := FromBE(octets[..2]);
      if |octets| < 2 + total then [] else Positive(SCTEntries(octets[2..2 + total]))
  }

  method ReadSCTList(octets: Bytes) returns (out: seq<int>)
    ensures out == ParseSCTList(octets)
  {
    hide SCTTimestamp, FromBE, SCTEntries, Positive;
    out := [];
    PositiveNone();
    if |octets| < 2 { return; }
    var total := FromBE(octets[..2]);
    if |octets| < 2 + total { return; }
    var b := octets[2..2 + total];
    assert forall more: seq<int> :: out + more == more;
    while |b| >= 2
      invariant Positive(SCTEntries(octets[2..2 + total])) == out + Positive(SCTEntries(b))
      decreases |b|
    {
      EntriesStep(b);
      var n := FromBE(b[..2]);
      ghost var was := b;
      b := b[2..];
      if |b| < n { break; }
      assert was[2..2 + n] == b[..n] && was[2 + n..] == b[n..];
      var ts := SCTTimestamp(b[..n]);
      PositiveOne(b[..n], SCTEntries(b[n..]));
      assert (out + [ts]) + Positive(SCTEntries(b[n..])) == out + ([ts] + Positive(SCTEntries(b[n..])));
      if ts > 0 {
        out := out + [ts];
      }
      b := b[n..];
    }
    EntriesStep(b);
    assert out + [] == out;
  }

  lemma EntriesStep(b: Bytes)
    ensures |b| < 2 || |b| - 2 < FromBE(b[..2]) ==> SCTEntries(b) == []
    ensures |b| >= 2 && |b| - 2 >= FromBE(b[..2]) ==>
              var n := FromBE(b[..2]); SCTEntries(b) == [b[2..2 + n]] + SCTEntries(b[2 + n..])
  {
    hide FromBE;
  }

  lemma PositiveOne(e: Bytes, more: seq<Bytes>)
    ensures Positive([e] + more) == if SCTTimestamp(e) > 0 then [SCTTimestamp(e)] + Positive(more) else Positive(more)
  {
    assert ([e] + more)[1..] == more;
  }

  function EncodeEntries(entries: seq<Bytes>): Bytes
    requires forall i :: 0 <= i < |entries| ==> |entries[i]| < Range(2)
  {
    if entries == [] then [] else ToBE(|entries[0]|, 2) + entries[0] + EncodeEntries(entries[1..])
  }

  lemma {:induction false} EntriesRoundTrip(entries: seq<Bytes>)
    requires forall i :: 0 <= i < |entries| ==> |entries[i]| < Range(2)
    ensures SCTEntries(EncodeEntries(entries)) == entries
    decreases |entries|
  {
    hide FromBE, ToBE, Range;
    if entries != [] {
      var e, b := entries[0], EncodeEntries(entries);
      EntriesRoundTrip(entries[1..]);
      FromToBE(|e|, 2);
      assert b[..2] == ToBE(|e|, 2) && b[2..2 + |e|] == e && b[2 + |e|..] == EncodeEntries(entries[1..]);
    }
  }

  /** The list of an extension gives back the positive timestamps of its entries, in
      order, whatever follows the list. */
  lemma SCTListRoundTrip(entries: seq<Bytes>, trailing: Bytes)
    requires forall i :: 0 <= i < |entries| ==> |entries[i]| < Range(2)
    requires |EncodeEntries(entries)| < Range(2)
    ensures ParseSCTList(ToBE(|EncodeEntries(entries)|, 2) + EncodeEntries(entries) + trailing) == Positive(entries)
    ensures exists idx :: PositiveAt(entries, idx, Positive(entries))
  {
    hide FromBE, ToBE, Range, SCTEntries, EncodeEntries, Positive;
    var body := EncodeEntries(entries);
    var octets := ToBE(|body|, 2) + body + trailing;
    FromToBE(|body|, 2);
    assert octets[..2] == ToBE(|body|, 2) && octets[2..2 + |body|] == body;
    EntriesRoundTrip(entries);
    var idx := PositiveAre(entries);
  }

  /** The places of the entries with a positive timestamp, in order, and those timestamps. */
  ghost predicate PositiveAt(entries: seq<Bytes>, idx: seq<nat>, stamps: seq<int>) {
    && |stamps| == |idx| && (forall i, j :: 0 <= i < j < |idx| ==> idx[i] < idx[j])
    && (forall i: nat :: i in idx <==> i < |entries| && SCTTimestamp(entries[i]) > 0)
    && forall j :: 0 <= j < |idx| ==> idx[j] < |entries| && stamps[j] == SCTTimestamp(entries[idx[j]])
  }

  lemma {:induction false} PositiveBack(entries: seq<Bytes>, e: Bytes)
    ensures Positive(entries + [e]) ==
            Positive(entries) + if SCTTimestamp(e) > 0 then [SCTTimestamp(e)] else []
    decreases |entries|
  {
    hide SCTTimestamp;
    if entries == [] {
      assert [] + [e] == [e] && [e][1..] == [];
    } else {
      assert (entries + [e])[1..] == entries[1..] + [e];
      PositiveBack(entries[1..], e);
    }
  }

  lemma {:induction false} PositiveAre(entries: seq<Bytes>) returns (idx: seq<nat>)
    ensures PositiveAt(entries, idx, Positive(entries))
    decreases |entries|
  {
    hide SCTTimestamp, Positive;
    idx := [];
    if entries == [] {
      PositiveNone();
    } else {
      var n := |entries| - 1;
      idx := PositiveAre(entries[..n]);
      assert entries == entries[..n] + [entries[n]];
      PositiveBack(entries[..n], entries[n]);
      assert forall i :: 0 <= i < |idx| ==> idx[i] in idx;
      if SCTTimestamp(entries[n]) > 0 { idx := idx + [n]; }
    }
  }

  lemma PositiveNone()
    ensures Positive([]) == []
  {
  }

  /** A version 1 SCT: its timestamp is read from behind version and log id. */
  lemma SCTTimestampRoundTrip(version: byte, logID: Bytes, timestamp: nat, more: Bytes)
    requires |logID| == 32 && timestamp < 0x8000_0000_0000_0000
    ensures SCTTimestamp([version] + logID + Keys.BE8(timestamp) + more) == timestamp
  {
    hide Keys.BE8;
    var b := [version] + logID + Keys.BE8(timestamp) + more;
    assert b[33..41] == Keys.BE8(timestamp);
    Keys.BE8Back(timestamp);
  }

  // ----- The timestamped entry of a leaf (section 3.4 of RFC 6962)

  datatype Signed =
    | X509(cert: Bytes)
    | Precert(issuerKeyHash: Bytes, tbs: Bytes)

  datatype TimestampedEntry = TimestampedEntry(timestamp: int, signed: Signed)

  /** A three-byte length and that many bytes. */
  function ReadLabeled(b: Bytes): Option<(Bytes, Bytes)> {
    if |b| < 3 then None
    else
      var n := FromBE(b[..3]);
      if |b| - 3 < n then None else Some((b[3..3 + n], b[3 + n..]))
  }

  function DecodeEntry(b: Bytes): Option<TimestampedEntry> {
    if |b| < 10 then None
    else
      var ts, et, rest := Keys.FromU64(FromBE(b[..8])), FromBE(b[8..10]), b[10..];
      if et == 0 then
        match ReadLabeled(rest)
        case None => None
        case Some((der, more)) => if |more| < 2 then None else Some(TimestampedEntry(ts, X509(der)))
      else if et == 1 then
        if |rest| < 32 then None
        else
          match ReadLabeled(rest[32..])
          case None => None
          case Some((der, more)) => if |more| < 2 then None else Some(TimestampedEntry(ts, Precert(rest[..32], der)))
      else None
  }

  predicate ValidEntry(e: TimestampedEntry) {
    Keys.Int64(e.timestamp) &&
    match e.signed
    case X509(cert) => |cert| < Range(3)
    case Precert(hash, tbs) => |hash| == 32 && |tbs| < Range(3)
  }

  function EncodeEntry(e: TimestampedEntry): Bytes
    requires ValidEntry(e)
  {
    Keys.BE8(Keys.ToU64(e.timestamp)) +
    match e.signed
    case X509(cert) => [0, 0] + ToBE(|cert|, 3) + cert
    case Precert(hash, tbs) => [0, 1] + hash + ToBE(|tbs|, 3) + tbs
  }

  lemma {:induction false} LabeledRoundTrip(der: Bytes, more: Bytes)
    requires |der| < Range(3)
    ensures ReadLabeled(ToBE(|der|, 3) + der + more) == Some((der, more))
  {
    hide FromBE, ToBE, Range;
    var b := ToBE(|der|, 3) + der + more;
    FromToBE(|der|, 3);
    assert b[..3] == ToBE(|der|, 3) && b[3..3 + |der|] == der && b[3 + |der|..] == more;
  }

  lemma ShortTypes()
    ensures FromBE([0, 0]) == 0 && FromBE([0, 1]) == 1
  {
    assert FromBE([0]) == 0;
    assert [0, 0][..1] == [0] && [0, 1][..1] == [0];
  }

  lemma HeadOf(ts: Bytes, et: Bytes, rest: Bytes)
    requires |ts| == 8 && |et| == 2
    ensures var b := ts + et + rest; b[..8] == ts && b[8..10] == et && b[10..] == rest
  {
  }

  /** decodeTimestampedEntry inverts the encoding; the extensions, at least their
      two-byte length, must follow. */
  lemma EntryRoundTrip(e: TimestampedEntry, extensions: Bytes)
    requires ValidEntry(e)
    ensures DecodeEntry(EncodeEntry(e) + extensions) == if |extensions| >= 2 then Some(e) else None
  {
    hide Keys.BE8, Keys.ToU64, Keys.FromU64, FromBE, ToBE, Range, ReadLabeled;
    var ts := Keys.BE8(Keys.ToU64(e.timestamp));
    var b := EncodeEntry(e) + extensions;
    Keys.BE8Back(Keys.ToU64(e.timestamp));
    Signed64(e.timestamp);
    ShortTypes();
    match e.signed
    case X509(cert) =>
      var rest := ToBE(|cert|, 3) + cert + extensions;
      assert b == ts + [0, 0] + rest;
      HeadOf(ts, [0, 0], rest);
      LabeledRoundTrip(cert, extensions);
    case Precert(hash, tbs) =>
      var tail := ToBE(|tbs|, 3) + tbs + extensions;
      assert b == ts + [0, 1] + (hash + tail);
      HeadOf(ts, [0, 1], hash + tail);
      assert (hash + tail)[..32] == hash && (hash + tail)[32..] == tail;
      LabeledRoundTrip(tbs, extensions);
  }

  lemma Signed64(v: int)
    requires Keys.Int64(v)
    ensures Keys.FromU64(Keys.ToU64(v)) == v
  {
  }

  /** The entry in bytes: an eight-byte time, the type 0 or 1, for type 1 a 32-byte hash,
      a three-byte length, the certificate, and at least two more bytes. */
  lemma EntryInBytes(ts: Bytes, hash: Bytes, a: byte, b: byte, c: byte, der: Bytes, more: Bytes)
    requires |ts| == 8 && |hash| == 32 && |der| == 65536 * a + 256 * b + c && |more| >= 2
    ensures var t, len := Keys.FromU64(FromBE(ts)), [a, b, c];
            && DecodeEntry(ts + [0, 0] + (len + der + more)) == Some(TimestampedEntry(t, X509(der)))
            && DecodeEntry(ts + [0, 1] + (hash + (len + der + more))) == Some(TimestampedEntry(t, Precert(hash, der)))
  {
    hide FromBE, ReadLabeled, Keys.FromU64;
    var tail := [a, b, c] + der + more;
    ShortTypes();
    LabeledInBytes(a, b, c, der, more);
    HeadOf(ts, [0, 0], tail);
    HeadOf(ts, [0, 1], hash + tail);
    assert (hash + tail)[..32] == hash && (hash + tail)[32..] == tail;
  }

  /** What is refused: fewer than ten bytes, a type above 1, a hash or a labelled string cut
      short, and fewer than two bytes behind it. */
  lemma EntryRefuses(b: Bytes)
    ensures DecodeEntry(b) == None <==>
            || |b| < 10
            || b[8] != 0 || b[9] > 1
            || (b[9] == 0 && !LabelFits(b, 10))
            || (b[9] == 1 && !LabelFits(b, 42))
  {
    hide FromBE, Keys.FromU64;
    if |b| >= 10 {
      SmallBE(b[8], b[9]);
      assert b[8..10] == [b[8], b[9]];
      LabelAt(b, 10);
      if |b| >= 42 {
        LabelAt(b, 42);
        assert b[10..][32..] == b[42..];
      }
    }
  }

  /** A three-byte length stands at `at`, with so many bytes and two more behind it. */
  ghost predicate LabelFits(b: Bytes, at: nat) {
    |b| >= at + 3 &&
    var high: int, mid: int, low: int := b[at], b[at + 1], b[at + 2];
    |b| >= at + 3 + 65536 * high + 256 * mid + low + 2
  }

  lemma LabelAt(b: Bytes, at: nat)
    requires at <= |b|
    ensures var r := ReadLabeled(b[at..]); LabelFits(b, at) <==> r.Some? && |r.value.1| >= 2
  {
    var s := b[at..];
    if |s| >= 3 {
      assert s[..3] == [s[0], s[1], s[2]] && [s[0], s[1], s[2]][..2] == [s[0], s[1]];
      SmallBE(s[0], s[1]);
      var high: int, mid: int, low: int := s[0], s[1], s[2];
      assert FromBE(s[..3]) == 65536 * high + 256 * mid + low;
    }
  }

  lemma LabeledInBytes(a: byte, b: byte, c: byte, der: Bytes, more: Bytes)
    requires |der| == 65536 * a + 256 * b + c
    ensures ReadLabeled([a, b, c] + der + more) == Some((der, more))
  {
    var s := [a, b, c] + der + more;
    assert s[..3] == [a, b, c] && [a, b, c][..2] == [a, b];
    SmallBE(a, b);
    assert s[3..3 + |der|] == der && s[3 + |der|..] == more;
  }

  /** Times are 64-bit two's complement, the highest byte first. */
  lemma TimeInBytes(b: Bytes)
    requires |b| == 8
    ensures var u := 256 * FromBE(b[..7]) + b[7];
            Keys.FromU64(FromBE(b)) == if b[0] < 128 then u else u - 0x1_0000_0000_0000_0000
  {
    hide FromBE;
    TopBit(b);
    FromBEOne(b[..7], b[7]);
    assert b == b[..7] + [b[7]];
  }

  lemma FromBEOne(b: Bytes, x: byte)
    ensures FromBE(b + [x]) == 256 * FromBE(b) + x
  {
    assert (b + [x])[..|b|] == b;
  }

  /** The first byte decides the half. */
  lemma TopBit(b: Bytes)
    requires |b| == 8
    ensures FromBE(b) < 0x8000_0000_0000_0000 <==> b[0] < 128
  {
    FirstByte(b[0], b[1..]);
    assert b == [b[0]] + b[1..];
    FromBEBound(b[1..]);
    assert Range(7) == 0x100_0000_0000_0000 by { assert Range(4) == 0x1_0000_0000; }
  }

  lemma {:induction false} FirstByte(x: byte, rest: Bytes)
    ensures FromBE([x] + rest) == x * Range(|rest|) + FromBE(rest)
    decreases |rest|
  {
    if rest == [] {
      assert [x] + rest == [x] && [x][..0] == [];
    } else {
      var n := |rest| - 1;
      FirstByte(x, rest[..n]);
      assert ([x] + rest)[..|rest|] == [x] + rest[..n];
    }
  }

  /** An SCT in bytes: a version byte and a 32-byte log id before the time. */
  lemma SCTInBytes(version: byte, log: Bytes, ts: Bytes, more: Bytes)
    requires |log| == 32 && |ts| == 8
    ensures SCTTimestamp([version] + log + ts + more) == Keys.FromU64(FromBE(ts))
  {
    assert ([version] + log + ts + more)[33..41] == ts;
  }

  /** A list of one SCT in bytes: both lengths in two bytes, the higher first. */
  lemma SCTListInBytes(sct: Bytes, a: byte, b: byte, c: byte, d: byte)
    requires 256 * a + b == |sct| + 2 && 256 * c + d == |sct|
    ensures ParseSCTList([a, b] + ([c, d] + sct)) == if SCTTimestamp(sct) > 0 then [SCTTimestamp(sct)] else []
  {
    hide FromBE, SCTTimestamp;
    var octets, body := [a, b] + ([c, d] + sct), [c, d] + sct;
    SmallBE(a, b);
    SmallBE(c, d);
    assert octets[..2] == [a, b] && octets[2..2 + |body|] == body;
    assert body[..2] == [c, d] && body[2..2 + |sct|] == sct && body[2 + |sct|..] == [];
    assert SCTEntries(body) == [sct] + SCTEntries([]);
    PositiveOne(sct, []);
  }

  // ----- Names

  predicate Control(s: Bytes) { exists i :: 0 <= i < |s| && (s[i] < 0x20 || s[i] == 0x7f) }

  function TrimDot(s: Bytes): Bytes { if s != [] && s[|s| - 1] == 46 then s[..|s| - 1] else s }

  function TrimWildcard(s: Bytes): Bytes { if |s| >= 2 && s[0] == 42 && s[1] == 46 then s[2..] else s }

  /** A name as it is kept: lower case, without a trailing dot or a wildcard. */
  function Tidy(lower: Bytes -> Bytes, s: Bytes): Bytes { TrimWildcard(TrimDot(lower(s))) }

  /** In shapes: one trailing dot goes, and then one leading wildcard label. */
  lemma TidyShapes(lower: Bytes -> Bytes, s: Bytes, c: Bytes)
    ensures var l, t := lower(s), Tidy(lower, s);
            && (l == [42, 46] + c + [46] ==> t == c)
            && (l == [42, 46] + c && c != [] && c[|c| - 1] != 46 ==> t == c)
            && (l == c + [46] && !([42, 46] <= c) ==> t == c)
            && (l == c && !([42, 46] <= c) && (c == [] || c[|c| - 1] != 46) ==> t == c)
  {
    hide TrimDot, TrimWildcard;
    DotGoes(c);
    DotGoes([42, 46] + c);
    WildcardGoes(c);
  }

  lemma DotGoes(c: Bytes)
    ensures TrimDot(c + [46]) == c
    ensures c == [] || c[|c| - 1] != 46 ==> TrimDot(c) == c
  {
    assert (c + [46])[..|c|] == c;
  }

  lemma WildcardGoes(c: Bytes)
    ensures TrimWildcard([42, 46] + c) == c
    ensures !([42, 46] <= c) ==> TrimWildcard(c) == c
  {
    assert ([42, 46] + c)[2..] == c;
    if |c| >= 2 && c[0] == 42 && c[1] == 46 { assert c == [42, 46] + c[2..]; }
  }

  predicate Keepable(s: Bytes) { s != [] && !Control(s) }

  method HasControlByte(s: Bytes) returns (yes: bool)
    ensures yes <==> exists i :: 0 <= i < |s| && (s[i] < 32 || s[i] == 127)
  {
    for i := 0 to |s|
      invariant forall j :: 0 <= j < i ==> !(s[j] < 0x20 || s[j] == 0x7f)
    {
      if s[i] < 0x20 || s[i] == 0x7f { return true; }
    }
    return false;
  }

  /** The tidied names, each once, in order of first appearance, none empty or with a
      control byte (so none holds the store's NUL separator). */
  method DedupeLower(lower: Bytes -> Bytes, names: seq<Bytes>) returns (out: seq<Bytes>)
    ensures forall s :: s in out <==> exists i :: 0 <= i < |names| && s == Tidy(lower, names[i]) && Keepable(s)
    ensures forall i, j :: 0 <= i < j < |out| ==> out[i] != out[j]
    ensures forall s :: s in out ==> s != [] && forall i :: 0 <= i < |s| ==> 32 <= s[i] != 127
    ensures out == FirstSeen(lower, names)
  {
    hide Tidy;
    out := [];
    var seen: set<Bytes> := {};
    for n := 0 to |names|
      invariant seen == set s | s in out
      invariant forall s :: s in out <==> exists i :: 0 <= i < n && s == Tidy(lower, names[i]) && Keepable(s)
      invariant forall i, j :: 0 <= i < j < |out| ==> out[i] != out[j]
      invariant out == FirstSeen(lower, names[..n])
    {
      assert names[..n + 1][..n] == names[..n];
      var s := Tidy(lower, names[n]);
      var bad := HasControlByte(s);
      if s == [] || bad { continue; }
      if s in seen { continue; }
      seen := seen + {s};
      out := out + [s];
    }
    assert names[..|names|] == names;
  }

  /** The order: a name stands where it first appears, before those that appear later. */
  lemma {:induction false} FirstSeenOrder(lower: Bytes -> Bytes, names: seq<Bytes>, n: nat)
    requires n <= |names|
    ensures FirstSeen(lower, names[..n]) <= FirstSeen(lower, names)
    ensures forall s :: s in FirstSeen(lower, names) <==>
                        exists i :: 0 <= i < |names| && s == Tidy(lower, names[i]) && Keepable(s)
    decreases |names|
  {
    hide Tidy, Keepable;
    if names == [] {
      assert names[..n] == names;
    } else {
      var m := |names| - 1;
      assert names == names[..m] + [names[m]];
      if n < |names| {
        FirstSeenOrder(lower, names[..m], n);
        assert names[..m][..n] == names[..n];
      } else {
        FirstSeenOrder(lower, names[..m], m);
        assert names[..n] == names;
      }
    }
  }

  /** Keep a name where it first appears. */
  function FirstSeen(lower: Bytes -> Bytes, names: seq<Bytes>): seq<Bytes> {
    if names == [] then []
    else
      var rest, s := FirstSeen(lower, names[..|names| - 1]), Tidy(lower, names[|names| - 1]);
      if Keepable(s) && s !in rest then rest + [s] else rest
  }
}
