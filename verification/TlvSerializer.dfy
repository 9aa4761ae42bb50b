/** The serializer that fills a buffer from its end and then moves the result to the front, the
    in-place casts of an element, and cloning. */
module TlvSerializer {
  import opened Common
  import opened Tlv

  /** Copies the payload in front of what is already in buf[len..]. */
  method SerializeRaw(bytes: seq<byte>, buf: array<byte>, len: nat) returns (res: Result<nat>)
    requires len <= buf.Length
    modifies buf
    ensures buf[len..] == old(buf[len..])
    ensures if |bytes| <= len then res == Ok(len - |bytes|) && buf[len - |bytes|..len] == bytes
            else res == Err(InvalidArgument)
  {
    var payloadLength := |bytes|;
    if len < payloadLength {
      return Err(InvalidArgument);
    }
    forall i | 0 <= i < payloadLength {
      buf[len - payloadLength + i] := bytes[i];
    }
    return Ok(len - payloadLength);
  }

  /** The elements from `idx` on, last element first. */
  method SerializeTlvList(list: seq<Tlv>, idx: nat, buf: array<byte>, bufFree: nat) returns (res: Result<nat>)
    requires bufFree <= buf.Length && idx <= |list|
    modifies buf
    ensures buf[bufFree..] == old(buf[bufFree..])
    ensures res.Ok? <==> |EncodeAll(list[idx..])| <= bufFree
    ensures res.Ok? ==> res.value == bufFree - |EncodeAll(list[idx..])| && buf[res.value..bufFree] == EncodeAll(list[idx..])
    decreases list, |list| - idx, 0
  {
    hide Encode;
    if |list| > idx {
      assert list[idx..][1..] == list[idx + 1..];
      var tail := SerializeTlvList(list, idx + 1, buf, bufFree);
      if tail.Err? {
        return tail;
      }
      var bf := tail.value;
      ghost var written := buf[bf..];
      assert written[..bufFree - bf] == buf[bf..bufFree] && written[bufFree - bf..] == buf[bufFree..];
      var all := SerializeTlv(list[idx], buf, bf, true);
      if all.Err? {
        assert buf[bufFree..] == buf[bf..][bufFree - bf..];
        return all;
      }
      assert buf[bufFree..] == written[bufFree - bf..];
      assert buf[bf..bufFree] == buf[bf..][..bufFree - bf];
      assert buf[all.value..bufFree] == buf[all.value..bf] + buf[bf..bufFree];
      return all;
    }
    return Ok(bufFree);
  }

  method SerializePayload(payload: Payload, buf: array<byte>, bufFree: nat) returns (res: Result<nat>)
    requires bufFree <= buf.Length
    modifies buf
    ensures buf[bufFree..] == old(buf[bufFree..])
    ensures res.Ok? <==> |PayloadBytes(payload)| <= bufFree
    ensures res.Ok? ==> res.value == bufFree - |PayloadBytes(payload)| && buf[res.value..bufFree] == PayloadBytes(payload)
    decreases payload
  {
    match payload
    case Raw(bytes) =>
      res := SerializeRaw(bytes, buf, bufFree);
    case Nested(list) =>
      assert list[0..] == list;
      res := SerializeTlvList(list, 0, buf, bufFree);
  }

  /** Writes the header in front of buf[bf..], its last byte first. */
  method WriteHeader(t: Tlv, payloadLength: nat, buf: array<byte>, bf: nat) returns (res: Result<nat>)
    requires bf <= buf.Length
    modifies buf
    ensures buf[bf..] == old(buf[bf..])
    ensures var n := |Header(t, payloadLength)|;
      if n <= bf then res == Ok(bf - n) && buf[bf - n..bf] == Header(t, payloadLength)
      else res == Err(BufferOverflow)
  {
    var flags: int := Flags(t.nonCritical, t.forward);
    var ptr := bf - 1;
    if payloadLength > 0xff || t.tag > 0x1f {
      if bf < 4 {
        return Err(BufferOverflow);
      }
      buf[ptr] := payloadLength % 256;
      buf[ptr - 1] := payloadLength / 256 % 256;
      buf[ptr - 2] := t.tag % 256;
      buf[ptr - 3] := 0x80 + flags + t.tag / 256;
      return Ok(bf - 4);
    } else {
      if bf < 2 {
        return Err(BufferOverflow);
      }
      buf[ptr] := payloadLength;
      buf[ptr - 1] := flags + t.tag;
      return Ok(bf - 2);
    }
  }

  /** The payload and, if asked for, the header in front of it. */
  method SerializeTlv(t: Tlv, buf: array<byte>, bufFree: nat, serializeHeader: bool) returns (res: Result<nat>)
    requires bufFree <= buf.Length
    modifies buf
    ensures buf[bufFree..] == old(buf[bufFree..])
    ensures var bytes := if serializeHeader then Encode(t) else PayloadBytes(t.payload);
      && (res.Ok? <==> |bytes| <= bufFree)
      && (res.Ok? ==> res.value == bufFree - |bytes| && buf[res.value..bufFree] == bytes)
    decreases t
  {
    var r := SerializePayload(t.payload, buf, bufFree);
    if r.Err? {
      return r;
    }
    var bf := r.value;
    ghost var payload := PayloadBytes(t.payload);
    var payloadLength := bufFree - bf;
    if serializeHeader {
      ghost var written := buf[bf..];
      assert written[..payloadLength] == payload && written[payloadLength..] == buf[bufFree..];
      var h := WriteHeader(t, payloadLength, buf, bf);
      assert buf[bufFree..] == buf[r.value..][payloadLength..];
      if h.Err? {
        return h;
      }
      bf := h.value;
      assert buf[bf..bufFree] == buf[bf..r.value] + written[..payloadLength];
    }
    return Ok(bf);
  }

  /** Serializes to the end of the buffer, then shifts the bytes to its front in place. */
  method Serialize(t: Tlv, buf: array<byte>, len: nat, serializeHeader: bool) returns (res: Result<nat>)
    requires len <= buf.Length
    modifies buf
    ensures var bytes := if serializeHeader then Encode(t) else PayloadBytes(t.payload);
      && (res.Ok? <==> |bytes| <= len)
      && (res.Ok? ==> res.value == |bytes| && buf[..res.value] == bytes)
  {
    hide Encode, PayloadBytes;
    var r := SerializeTlv(t, buf, len, serializeHeader);
    if r.Err? {
      return r;
    }
    var bf := r.value;
    ghost var bytes := buf[bf..len];
    var payloadLength := len - bf;
    var i := 0;
    while i < payloadLength
      invariant 0 <= i <= payloadLength
      invariant buf[..i] == bytes[..i]
      invariant forall j | i <= j < payloadLength :: buf[bf + j] == bytes[j]
    {
      buf[i] := buf[bf + i];
      i := i + 1;
    }
    return Ok(i);
  }

  const BUFFER_SIZE := 0xffff + 1

  /** Serialization into a buffer of its own, large enough for every element that fits. */
  method SerializeNew(t: Tlv) returns (res: Result<seq<byte>>)
    ensures res.Ok? <==> |Encode(t)| <= 4 + BUFFER_SIZE
    ensures res.Ok? ==> res.value == Encode(t)
  {
    var tmp := new byte[4 + BUFFER_SIZE](_ => 0);
    var r := Serialize(t, tmp, 4 + BUFFER_SIZE, true);
    if r.Err? {
      return Err(r.error);
    }
    return Ok(tmp[..r.value]);
  }

  function Joined(list: seq<Tlv>, rest: Option<seq<Tlv>>): Option<seq<Tlv>> {
    match rest
    case None => None
    case Some(more) => Some(list + more)
  }

  lemma JoinNothing(rest: Option<seq<Tlv>>)
    ensures Joined([], rest) == rest
  {
    if rest.Some? {
      assert [] + rest.value == rest.value;
    }
  }

  lemma JoinStep(list: seq<Tlv>, t: Tlv, rest: Option<seq<Tlv>>)
    ensures Joined(list, Joined([t], rest)) == Joined(list + [t], rest)
  {
    if rest.Some? {
      assert list + ([t] + rest.value) == list + [t] + rest.value;
    }
  }

  lemma NothingLeft(data: seq<byte>)
    ensures data[|data|..] == [] && ParseAll([]) == Some([])
  {
  }

  lemma NextElement(b: seq<byte>)
    requires b != []
    ensures ReadFirst(b) == None ==> ParseAll(b) == None
    ensures ReadFirst(b).Some? ==>
      var (t, n) := ReadFirst(b).value; ParseAll(b) == Joined([t], ParseAll(b[n..]))
  {
    hide ReadFirst;
  }

  /** The loop over the elements of a payload. */
  method ReadElements(data: seq<byte>) returns (res: Option<seq<Tlv>>)
    ensures res == ParseAll(data)
  {
    var list := [];
    var consumed := 0;
    assert data[0..] == data;
    JoinNothing(ParseAll(data));
    NothingLeft(data);
    hide ParseAll, ReadFirst;
    while consumed < |data|
      invariant 0 <= consumed <= |data|
      invariant ParseAll(data) == Joined(list, ParseAll(data[consumed..]))
      decreases |data| - consumed
    {
      NextElement(data[consumed..]);
      var first := ReadFirst(data[consumed..]);
      if first == None {
        return None;
      }
      var (t, n) := first.value;
      assert data[consumed..][n..] == data[consumed + n..];
      JoinStep(list, t, ParseAll(data[consumed + n..]));
      list := list + [t];
      consumed := consumed + n;
    }
    assert list + [] == list;
    return Some(list);
  }

  /** An element whose payload changes its representation in place. */
  class Node {
    const tag: Tag
    const nonCritical: bool
    const forward: bool
    var payload: Payload

    constructor (t: Tlv)
      ensures View() == t
    {
      tag, nonCritical, forward, payload := t.tag, t.nonCritical, t.forward, t.payload;
    }

    function View(): Tlv
      reads this
    {
      Tlv(tag, nonCritical, forward, payload)
    }

    /** Splits a raw payload into its elements. */
    method EncodeAsNestedTlvs() returns (res: Result<()>)
      modifies this
      ensures match CastToNested(old(View()))
        case Ok(t) => res == Ok(()) && View() == t
        case Err(e) => res == Err(e) && View() == old(View())
    {
      if payload.Nested? {
        return Ok(());
      }
      var list := ReadElements(payload.bytes);
      if list == None {
        return Err(InvalidFormat);
      }
      payload := Nested(list.value);
      return Ok(());
    }

    /** Folds a nested payload back into bytes, through a zeroed buffer of 0x10000 bytes. */
    method EncodeAsRaw() returns (res: Result<()>)
      modifies this
      ensures res.Ok? <==> old(payload.Raw?) || |PayloadBytes(old(payload))| <= BUFFER_SIZE
      ensures View() == if res.Ok? then Flat(old(View())) else old(View())
    {
      if payload.Raw? {
        return Ok(());
      }
      var buf := new byte[BUFFER_SIZE](_ => 0);
      var r := Serialize(View(), buf, BUFFER_SIZE, false);
      if r.Err? {
        return Err(r.error);
      }
      payload := Raw(buf[..r.value]);
      return Ok(());
    }
  }

  // ---- cloning -------------------------------------------------------------------------------

  /** The expansion step of cloning. After its first cast it returns, so the elements below a
      payload that had to be cast stay unexpanded. */
  function ExpandNested(sample: Tlv, t: Tlv): Result<Tlv>
    decreases sample, 1
  {
    if sample.tag != t.tag then Err(InvalidArgument)
    else if sample.payload.Nested? && t.payload.Raw? then CastToNested(t)
    else if sample.payload.Raw? && t.payload.Nested? then Ok(Flat(t))
    else if sample.payload.Nested? then
      match ExpandNestedList(sample.payload.list, t.payload.list)
      case Err(e) => Err(e)
      case Ok(list) => Ok(t.(payload := Nested(list)))
    else Ok(t)
  }

  function ExpandNestedList(samples: seq<Tlv>, list: seq<Tlv>): Result<seq<Tlv>>
    decreases samples, 0
  {
    if |samples| != |list| then Err(InvalidArgument)
    else if samples == [] then Ok([])
    else match ExpandNested(samples[0], list[0])
      case Err(e) => Err(e)
      case Ok(t) =>
        match ExpandNestedList(samples[1..], list[1..])
        case Err(e) => Err(e)
        case Ok(rest) => Ok([t] + rest)
  }

  method Clone(t: Tlv) returns (res: Result<Tlv>)
    ensures res.Ok? <==> Fits(t)
    ensures res.Ok? ==> res.value == OneLevel(t)
  {
    var buf := SerializeNew(t);
    if buf.Err? {
      return Err(buf.error);
    }
    var tmp := ParseBlob(buf.value);
    if tmp.Err? {
      RoundTrip(t);
      return tmp;
    }
    assert Fits(t) by { RoundTrip(t); }
    ReadFirstOfEncode(t, []);
    assert Encode(t) + [] == Encode(t);
    if t.payload.Nested? {
      ParseAllOfEncodeAll(t.payload.list);
    }
    return ExpandNested(t, tmp.value);
  }

  /** The element with its own payload as it is and the elements in it unexpanded. */
  function OneLevel(t: Tlv): Tlv {
    match t.payload
    case Raw(_) => t
    case Nested(list) => t.(payload := Nested(FlatAll(list)))
  }

  lemma {:induction false} EncodeAllOfFlatAll(list: seq<Tlv>)
    ensures EncodeAll(FlatAll(list)) == EncodeAll(list)
  {
    if list != [] {
      EncodeAllOfFlatAll(list[1..]);
      assert FlatAll(list)[1..] == FlatAll(list[1..]);
      assert Encode(Flat(list[0])) == Encode(list[0]);
    }
  }

  /** A clone always has the bytes of its original, and it is equal to the original exactly when
      no element inside a nested payload is itself expanded. */
  lemma CloneAgreement(t: Tlv)
    ensures Encode(OneLevel(t)) == Encode(t)
    ensures OneLevel(t) == t <==>
      (t.payload.Nested? ==> forall i | 0 <= i < |t.payload.list| :: t.payload.list[i].payload.Raw?)
  {
    hide FlatAll, EncodeAll, Header, Flags;
    if t.payload.Nested? {
      var list := t.payload.list;
      EncodeAllOfFlatAll(list);
      FlatAllIsIdentity(list);
      assert PayloadBytes(OneLevel(t).payload) == PayloadBytes(t.payload);
      assert OneLevel(t) == t <==> FlatAll(list) == list;
      SameHeader(t, OneLevel(t));
    }
  }

  lemma SameHeader(t: Tlv, u: Tlv)
    requires t.tag == u.tag && t.nonCritical == u.nonCritical && t.forward == u.forward
    ensures forall n: nat :: Header(t, n) == Header(u, n)
  {
  }

  lemma FlatAllIsIdentity(list: seq<Tlv>)
    ensures FlatAll(list) == list <==> forall i | 0 <= i < |list| :: list[i].payload.Raw?
  {
    hide FlatAll;
    if forall i | 0 <= i < |list| :: list[i].payload.Raw? {
      assert forall i | 0 <= i < |list| :: FlatAll(list)[i] == list[i];
    } else {
      var i :| 0 <= i < |list| && !list[i].payload.Raw?;
      assert FlatAll(list)[i] != list[i];
    }
  }

  /** An element that is brought into the form of a sample has the tag and the flags that it had, and
      is nested exactly if the sample is; a raw one has all its bytes. */
  lemma TakesForm(sample: Tlv, t: Tlv)
    requires ExpandNested(sample, t).Ok?
    ensures var u := ExpandNested(sample, t).value;
      && u.tag == t.tag && u.nonCritical == t.nonCritical && u.forward == t.forward && sample.tag == t.tag
      && (u.payload.Nested? <==> sample.payload.Nested?)
      && (u.payload.Raw? ==> u.payload.bytes == PayloadBytes(t.payload))
  {
    hide ExpandNestedList, ParseAll;
  }
}
