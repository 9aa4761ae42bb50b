/** The TLV format: encoding, parsing on demand, and the laws that tie them together. */
module Tlv {
  import opened Common

  /** Tags have thirteen bits. */
  type Tag = x: int | 0 <= x <= 0x1fff

  datatype Payload = Raw(bytes: seq<byte>) | Nested(list: seq<Tlv>)

  datatype Tlv = Tlv(tag: Tag, nonCritical: bool, forward: bool, payload: Payload)

  const MAX_PAYLOAD := 0xffff

  // ---- encoding ------------------------------------------------------------------------------

  function Flags(nonCritical: bool, forward: bool): byte {
    (if nonCritical then 0x40 else 0) + (if forward then 0x20 else 0)
  }

  function Header(t: Tlv, len: nat): (r: seq<byte>)
    ensures |r| == if len > 0xff || t.tag > 0x1f then 4 else 2
  {
    var flags := Flags(t.nonCritical, t.forward);
    if len > 0xff || t.tag > 0x1f then [0x80 + flags + t.tag / 256, t.tag % 256, len / 256 % 256, len % 256]
    else [flags + t.tag, len]
  }

  function PayloadBytes(p: Payload): seq<byte> {
    match p
    case Raw(bytes) => bytes
    case Nested(list) => EncodeAll(list)
  }

  function Encode(t: Tlv): seq<byte> {
    var payload := PayloadBytes(t.payload);
    Header(t, |payload|) + payload
  }

  function EncodeAll(list: seq<Tlv>): seq<byte> {
    if list == [] then [] else Encode(list[0]) + EncodeAll(list[1..])
  }

  /** The same element with its payload not yet expanded. */
  function Flat(t: Tlv): Tlv {
    t.(payload := Raw(PayloadBytes(t.payload)))
  }

  // ---- parsing -------------------------------------------------------------------------------

  /** Two bytes as one number, high byte first. */
  function Big(high: byte, low: byte): nat {
    high as int * 256 + low as int
  }

  /** The first element of a buffer, unexpanded, and the number of bytes it takes. */
  function ReadFirst(b: seq<byte>): (r: Option<(Tlv, nat)>)
    ensures r.Some? ==> r.value.0.payload.Raw? && 2 <= r.value.1 <= |b| && |r.value.0.payload.bytes| <= MAX_PAYLOAD
  {
    if |b| == 0 then None
    else
      var wide := b[0] >= 0x80;
      var hdrLen := if wide then 4 else 2;
      if |b| < hdrLen then None
      else
        var tag: int := if wide then Big(b[0] % 32, b[1]) else b[0] % 32;
        var length: int := if wide then Big(b[2], b[3]) else b[1];
        if hdrLen + length > |b| then None
        else Some((Tlv(tag, b[0] / 64 % 2 == 1, b[0] / 32 % 2 == 1, Raw(b[hdrLen..hdrLen + length])), hdrLen + length))
  }

  function ParseAll(b: seq<byte>): Option<seq<Tlv>>
    decreases |b|
  {
    if b == [] then Some([])
    else
      match ReadFirst(b)
      case None => None
      case Some((t, n)) =>
        match ParseAll(b[n..])
        case None => None
        case Some(rest) => Some([t] + rest)
  }

  function ParseBlob(b: seq<byte>): Result<Tlv> {
    if |b| < 2 then Err(InvalidArgument)
    else match ReadFirst(b)
      case None => Err(InvalidFormat)
      case Some((t, n)) => if n == |b| then Ok(t) else Err(InvalidFormat)
  }

  /** Expanding a payload once, as a cast to the nested form does. */
  function CastToNested(t: Tlv): Result<Tlv> {
    match t.payload
    case Nested(_) => Ok(t)
    case Raw(bytes) =>
      match ParseAll(bytes)
      case None => Err(InvalidFormat)
      case Some(list) => Ok(t.(payload := Nested(list)))
  }

  /** Expanding recursively, to the depth and at the places where `sample` is nested. */
  function ExpandLike(sample: Tlv, t: Tlv): Result<Tlv>
    decreases sample, 1
  {
    if sample.payload.Raw? then Ok(t)
    else match CastToNested(t)
      case Err(e) => Err(e)
      case Ok(u) =>
        match ExpandListLike(sample.payload.list, u.payload.list)
        case Err(e) => Err(e)
        case Ok(list) => Ok(t.(payload := Nested(list)))
  }

  function ExpandListLike(samples: seq<Tlv>, list: seq<Tlv>): Result<seq<Tlv>>
    decreases samples, 0
  {
    if |samples| != |list| then Err(InvalidArgument)
    else if samples == [] then Ok([])
    else match ExpandLike(samples[0], list[0])
      case Err(e) => Err(e)
      case Ok(t) =>
        match ExpandListLike(samples[1..], list[1..])
        case Err(e) => Err(e)
        case Ok(rest) => Ok([t] + rest)
  }

  // ---- round trips ---------------------------------------------------------------------------

  predicate Fits(t: Tlv) {
    |PayloadBytes(t.payload)| <= MAX_PAYLOAD
  }

  /** What the first header byte holds can be taken out again. */
  lemma FirstByte(wide: bool, nonCritical: bool, forward: bool, low: int)
    requires 0 <= low < 32
    ensures var x := (if wide then 0x80 else 0) + Flags(nonCritical, forward) + low;
      && 0 <= x < 256 && (x >= 0x80 <==> wide)
      && x % 32 == low && (x / 64 % 2 == 1 <==> nonCritical) && (x / 32 % 2 == 1 <==> forward)
  {
  }

  lemma ReadFirstOfEncode(t: Tlv, rest: seq<byte>)
    requires Fits(t)
    ensures ReadFirst(Encode(t) + rest) == Some((Flat(t), |Encode(t)|))
    ensures (Encode(t) + rest)[|Encode(t)|..] == rest
  {
    hide Flags;
    var p := PayloadBytes(t.payload);
    var h := Header(t, |p|);
    var b := Encode(t) + rest;
    assert b[..|h|] == h && b[|h|..|h| + |p|] == p;
    assert b[0] == h[0] && b[1] == h[1];
    if |h| == 4 {
      assert b[2] == h[2] && b[3] == h[3];
      FirstByte(true, t.nonCritical, t.forward, t.tag / 256);
      assert Big(h[0] % 32, h[1]) == t.tag && Big(h[2], h[3]) == |p|;
    } else {
      FirstByte(false, t.nonCritical, t.forward, t.tag);
    }
  }

  lemma ChildrenFit(list: seq<Tlv>)
    requires |EncodeAll(list)| <= MAX_PAYLOAD && list != []
    ensures Fits(list[0]) && |EncodeAll(list[1..])| <= MAX_PAYLOAD
  {
  }

  function FlatAll(list: seq<Tlv>): (r: seq<Tlv>)
    ensures |r| == |list| && forall i | 0 <= i < |list| :: r[i] == Flat(list[i])
  {
    if list == [] then [] else [Flat(list[0])] + FlatAll(list[1..])
  }

  lemma {:induction false} ParseAllOfEncodeAll(list: seq<Tlv>)
    requires |EncodeAll(list)| <= MAX_PAYLOAD
    ensures ParseAll(EncodeAll(list)) == Some(FlatAll(list))
  {
    if list != [] {
      ChildrenFit(list);
      ReadFirstOfEncode(list[0], EncodeAll(list[1..]));
      ParseAllOfEncodeAll(list[1..]);
    }
  }

  lemma {:induction false} ExpandFlat(t: Tlv)
    requires Fits(t)
    ensures ExpandLike(t, Flat(t)) == Ok(t)
    decreases t, 1
  {
    if t.payload.Nested? {
      ParseAllOfEncodeAll(t.payload.list);
      ExpandFlatAll(t.payload.list);
    }
  }

  lemma {:induction false} ExpandFlatAll(list: seq<Tlv>)
    requires |EncodeAll(list)| <= MAX_PAYLOAD
    ensures ExpandListLike(list, FlatAll(list)) == Ok(list)
    decreases list, 0
  {
    if list != [] {
      ChildrenFit(list);
      ExpandFlat(list[0]);
      ExpandFlatAll(list[1..]);
      assert FlatAll(list)[1..] == FlatAll(list[1..]);
      assert list == [list[0]] + list[1..];
    }
  }

  /** Parsing an encoding and expanding it where the original was nested. */
  function Reparse(t: Tlv): Result<Tlv> {
    match ParseBlob(Encode(t))
    case Err(e) => Err(e)
    case Ok(u) => ExpandLike(t, u)
  }

  /** The length field keeps only sixteen bits of a length that does not fit. */
  lemma TooLong(t: Tlv)
    requires !Fits(t)
    ensures ParseBlob(Encode(t)) == Err(InvalidFormat)
  {
    var p := PayloadBytes(t.payload);
    var b := Encode(t);
    var h := Header(t, |p|);
    assert b[0] == h[0] && b[1] == h[1] && b[2] == h[2] && b[3] == h[3];
  }

  /** The round trip holds exactly for the payloads whose length fits the length field. */
  lemma RoundTrip(t: Tlv)
    ensures Reparse(t) == Ok(t) <==> |PayloadBytes(t.payload)| <= MAX_PAYLOAD
    ensures |PayloadBytes(t.payload)| > MAX_PAYLOAD ==> Reparse(t) == Err(InvalidFormat)
  {
    if Fits(t) {
      ReadFirstOfEncode(t, []);
      assert Encode(t) + [] == Encode(t);
      ExpandFlat(t);
    } else {
      TooLong(t);
    }
  }

  /** Two elements that fit have the same encoding only if they differ in expansion alone. */
  lemma EncodeInjective(t: Tlv, u: Tlv)
    requires Fits(t) && Fits(u) && Encode(t) == Encode(u)
    ensures Flat(t) == Flat(u)
  {
    ReadFirstOfEncode(t, []);
    ReadFirstOfEncode(u, []);
  }

  // ---- reserialization -----------------------------------------------------------------------

  /** `t` is the unexpanded element `raw`, expanded in any number of places. */
  predicate Expansion(raw: Tlv, t: Tlv)
    decreases t, 1
  {
    && raw.payload.Raw?
    && raw.tag == t.tag && raw.nonCritical == t.nonCritical && raw.forward == t.forward
    && match t.payload {
         case Raw(bytes) => bytes == raw.payload.bytes
         case Nested(list) => Expansions(raw.payload.bytes, list)
       }
  }

  /** The bytes split into elements of which `list` holds the expansions. */
  predicate Expansions(b: seq<byte>, list: seq<Tlv>)
    decreases list, 0
  {
    if list == [] then b == []
    else
      ReadFirst(b).Some? &&
      Expansion(ReadFirst(b).value.0, list[0]) &&
      Expansions(b[ReadFirst(b).value.1..], list[1..])
  }

  lemma {:induction false} PayloadNeverGrows(raw: Tlv, t: Tlv)
    requires Expansion(raw, t)
    ensures |PayloadBytes(t.payload)| <= |raw.payload.bytes|
    decreases t, 1
  {
    if t.payload.Nested? {
      EncodingsNeverGrow(raw.payload.bytes, t.payload.list);
    }
  }

  lemma {:induction false} EncodingsNeverGrow(b: seq<byte>, list: seq<Tlv>)
    requires Expansions(b, list)
    ensures |EncodeAll(list)| <= |b|
    decreases list, 0
  {
    if list != [] {
      var raw, n := ReadFirst(b).value.0, ReadFirst(b).value.1;
      PayloadNeverGrows(raw, list[0]);
      EncodingsNeverGrow(b[n..], list[1..]);
      assert |Encode(list[0])| <= n;
    }
  }

  /** Whatever was parsed from some bytes, and however far it was expanded, its encoding is no
      longer than these bytes and parses to the same element again. */
  lemma Reserialization(b: seq<byte>, t: Tlv)
    requires ParseBlob(b).Ok? && Expansion(ParseBlob(b).value, t)
    ensures |Encode(t)| <= |b|
    ensures Reparse(t) == Ok(t)
    ensures ParseBlob(Encode(t)).Ok? && Encode(ParseBlob(Encode(t)).value) == Encode(t)
  {
    EncodeNeverLonger(b, t);
    assert Fits(t) by {
      PayloadNeverGrows(ParseBlob(b).value, t);
    }
    hide ReadFirst, Header, PayloadBytes, Expansion, ParseBlob, Encode, ExpandLike;
    RoundTrip(t);
    EncodeAgain(t);
  }

  lemma EncodeAgain(t: Tlv)
    requires Fits(t)
    ensures ParseBlob(Encode(t)) == Ok(Flat(t)) && Encode(Flat(t)) == Encode(t)
  {
    hide ReadFirst;
    ReadFirstOfEncode(t, []);
    assert Encode(t) + [] == Encode(t);
  }

  lemma EncodeNeverLonger(b: seq<byte>, t: Tlv)
    requires ParseBlob(b).Ok? && Expansion(ParseBlob(b).value, t)
    ensures |Encode(t)| <= |b|
  {
    PayloadNeverGrows(ParseBlob(b).value, t);
    hide PayloadBytes, Flags;
  }

  /** Expanding never fails to be an expansion: casts keep the relation. */
  lemma {:induction false} ParsedIsExpansion(b: seq<byte>)
    requires ParseAll(b).Some?
    ensures Expansions(b, ParseAll(b).value)
    decreases |b|
  {
    if b != [] {
      var (t, n) := ReadFirst(b).value;
      ParsedIsExpansion(b[n..]);
    }
  }

  lemma CastIsExpansion(raw: Tlv)
    requires raw.payload.Raw? && CastToNested(raw).Ok?
    ensures Expansion(raw, CastToNested(raw).value)
  {
    ParsedIsExpansion(raw.payload.bytes);
  }

  // ---- the wire format -----------------------------------------------------------------------

  predicate FirstByteSays(b: byte, wide: bool, t: Tlv) {
    && (b >= 0x80 <==> wide)
    && (b / 0x40 % 2 == 1 <==> t.nonCritical)
    && (b / 0x20 % 2 == 1 <==> t.forward)
  }

  /** A number of two bytes, the high one in front. */
  predicate TwoBytesSay(high: byte, low: byte, n: int) {
    var x: int, y: int := high, low;
    n == 0x100 * x + y
  }

  /** The bytes of an element: the 16-bit form exactly for tags above 0x1f and payloads above 0xff,
      with the flags in the two bits below the top one, numbers with the high byte in front. */
  lemma WireFormat(t: Tlv)
    requires Fits(t)
    ensures var b, payload := Encode(t), PayloadBytes(t.payload);
      if t.tag <= 0x1f && |payload| <= 0xff then
        && |b| == 2 + |payload| && b[2..] == payload
        && FirstByteSays(b[0], false, t) && b[0] % 0x20 == t.tag && b[1] == |payload|
      else
        && |b| == 4 + |payload| && b[4..] == payload
        && FirstByteSays(b[0], true, t) && TwoBytesSay(b[0] % 0x20, b[1], t.tag) && TwoBytesSay(b[2], b[3], |payload|)
  {
    var payload := PayloadBytes(t.payload);
    var header := Header(t, |payload|);
    assert Encode(t) == header + payload;
    HeaderSays(t, |payload|);
    hide PayloadBytes, Encode, Header, FirstByteSays, TwoBytesSay;
  }

  lemma FirstByteOf(t: Tlv, wide: bool, low: nat) returns (b: byte)
    requires low < 0x20
    ensures b == (if wide then 0x80 else 0) + Flags(t.nonCritical, t.forward) + low
    ensures FirstByteSays(b, wide, t) && b % 0x20 == low
  {
    if wide {
      b := 0x80 + Flags(t.nonCritical, t.forward) + low;
    } else {
      b := Flags(t.nonCritical, t.forward) + low;
    }
  }

  lemma HeaderSays(t: Tlv, n: nat)
    requires n <= MAX_PAYLOAD
    ensures var b := Header(t, n);
      if t.tag <= 0x1f && n <= 0xff then |b| == 2 && FirstByteSays(b[0], false, t) && b[0] % 0x20 == t.tag && b[1] == n
      else |b| == 4 && FirstByteSays(b[0], true, t) && TwoBytesSay(b[0] % 0x20, b[1], t.tag) && TwoBytesSay(b[2], b[3], n)
  {
    if t.tag <= 0x1f && n <= 0xff {
      var b := FirstByteOf(t, false, t.tag);
    } else {
      var b := FirstByteOf(t, true, t.tag / 256);
    }
    hide FirstByteSays, Flags;
  }

  /** The bytes that are read as an element, whether or not they are the shortest form of it. */
  lemma ReadFormat(b: seq<byte>, t: Tlv)
    ensures ParseBlob(b) == Ok(t) <==>
      && |b| >= 2 && t.payload.Raw?
      && if b[0] < 0x80 then
           && t.payload.bytes == b[2..] && b[1] == |b| - 2
           && FirstByteSays(b[0], false, t) && t.tag == b[0] % 0x20
         else
           && |b| >= 4 && t.payload.bytes == b[4..] && TwoBytesSay(b[2], b[3], |b| - 4)
           && FirstByteSays(b[0], true, t) && TwoBytesSay(b[0] % 0x20, b[1], t.tag)
    ensures ParseBlob(b).Err? ==> ParseBlob(b) == Err(if |b| < 2 then InvalidArgument else InvalidFormat)
  {
    if |b| >= 2 && b[0] < 0x80 {
      ReadNarrow(b);
    } else if |b| >= 4 {
      ReadWide(b);
    }
  }

  lemma ReadNarrow(b: seq<byte>)
    requires |b| >= 2 && b[0] < 0x80
    ensures ParseBlob(b) ==
      if b[1] == |b| - 2 then Ok(Tlv(b[0] % 32, b[0] / 64 % 2 == 1, b[0] / 32 % 2 == 1, Raw(b[2..]))) else Err(InvalidFormat)
  {
    assert b[2..|b|] == b[2..];
  }

  lemma ReadWide(b: seq<byte>)
    requires |b| >= 4 && b[0] >= 0x80
    ensures ParseBlob(b) ==
      if Big(b[2], b[3]) == |b| - 4 then Ok(Tlv(Big(b[0] % 32, b[1]), b[0] / 64 % 2 == 1, b[0] / 32 % 2 == 1, Raw(b[4..])))
      else Err(InvalidFormat)
  {
    assert b[4..|b|] == b[4..];
  }
}
