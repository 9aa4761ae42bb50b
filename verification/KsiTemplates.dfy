/** The templates of calendar hash chains and publication records, and what they convert. */
module KsiTemplates {
  import opened Common
  import opened Hashing
  import opened Template
  import opened TemplateParsed
  import opened TemplateRoundTrip
  import opened TemplateSearch
  import opened TemplateWire
  import opened Tlv
  import opened TlvInteger
  import opened Utf8

  // ---- conversion functions ------------------------------------------------------------------

  function DecodeInteger(t: Tlv): Result<Value> {
    match IntegerOf(t.payload)
    case Err(error) => Err(error)
    case Ok(n) => Ok(Number(n))
  }

  function EncodeInteger(v: Value, tag: Tag, nonCritical: bool, forward: bool): Result<Tlv> {
    if v.Number? then Ok(Tlv(tag, nonCritical, forward, Raw(IntBytes(v.n)))) else Err(InvalidArgument)
  }

  /** A cast to the raw form serializes a payload that was expanded, into a buffer of 64 KiB. */
  function RawValue(t: Tlv): Result<seq<byte>> {
    if |PayloadBytes(t.payload)| > 0x1_0000 then Err(BufferOverflow) else Ok(PayloadBytes(t.payload))
  }

  function DecodeImprint(t: Tlv): Result<Value> {
    match RawValue(t)
    case Err(error) => Err(error)
    case Ok(b) =>
      if |b| == 1 then Err(InvalidArgument)
      else if IsImprint(b) then Ok(Octets(b))
      else Err(InvalidFormat)
  }

  function EncodeOctets(v: Value, tag: Tag, nonCritical: bool, forward: bool): Result<Tlv> {
    if v.Octets? then Ok(Tlv(tag, nonCritical, forward, Raw(v.bytes))) else Err(InvalidArgument)
  }

  /** A string that is not empty. It must not have been expanded before. */
  function DecodeString(t: Tlv): Result<Value> {
    if t.payload.Nested? then Err(PayloadTypeMismatch)
    else match StringOf(t.payload.bytes)
      case Err(error) => Err(error)
      case Ok(s) => if s == [0] then Err(InvalidFormat) else Ok(Octets(s))
  }

  function EncodeString(v: Value, tag: Tag, nonCritical: bool, forward: bool): Result<Tlv> {
    if !v.Octets? then Err(InvalidArgument)
    else if v.bytes == [] || v.bytes == [0] then Err(InvalidFormat)
    else if |v.bytes| > MAX_PAYLOAD then Err(InvalidArgument)
    else Ok(Tlv(tag, nonCritical, forward, Raw(v.bytes)))
  }

  const LEFT_LINK: Tag := 0x07
  const RIGHT_LINK: Tag := 0x08

  /** A calendar link: the side is in the tag, the sibling in the payload. */
  function DecodeLink(t: Tlv): Result<Value> {
    if t.tag != LEFT_LINK && t.tag != RIGHT_LINK then Err(InvalidFormat)
    else match DecodeImprint(t)
      case Err(error) => Err(error)
      case Ok(v) => Ok(Sided(t.tag == LEFT_LINK, v))
  }

  /** The tag of the row is overridden by the side of the link. */
  function EncodeLink(v: Value, tag: Tag, nonCritical: bool, forward: bool): Result<Tlv> {
    if v.Sided? then EncodeOctets(v.inner, if v.isLeft then LEFT_LINK else RIGHT_LINK, nonCritical, forward)
    else Err(InvalidArgument)
  }

  // ---- templates -----------------------------------------------------------------------------

  function Row(tag: Tag, field: nat, decode: Tlv -> Result<Value>, encode: (Value, Tag, bool, bool) -> Result<Tlv>): Entry {
    Entry(tag, field, Plain(Codec(decode, encode)), false, false, {}, {}, false, false, false, false)
  }

  const CALENDAR: seq<Entry> := [
    Row(0x01, 0, DecodeInteger, EncodeInteger).(mandatory := true),
    Row(0x02, 1, DecodeInteger, EncodeInteger),
    Row(0x05, 2, DecodeImprint, EncodeOctets).(mandatory := true),
    Row(LEFT_LINK, 3, DecodeLink, EncodeLink).(isList := true, least := {0}),
    Row(RIGHT_LINK, 3, DecodeLink, EncodeLink).(isList := true, least := {0}, noSerialize := true)]

  const PUBLICATION_DATA: seq<Entry> := [
    Row(0x02, 0, DecodeInteger, EncodeInteger).(mandatory := true),
    Row(0x04, 1, DecodeImprint, EncodeOctets).(mandatory := true)]

  const PUBLICATION_RECORD: seq<Entry> := [
    Entry(0x10, 0, Composite(PUBLICATION_DATA), false, true, {}, {}, false, false, false, false),
    Row(0x09, 1, DecodeString, EncodeString).(isList := true),
    Row(0x0a, 2, DecodeString, EncodeString).(isList := true)]

  /** What is read from an element can be written under any tag and read back, expanded or not. */
  ghost predicate SelfReading(codec: Codec) {
    && ReadsFlat(codec)
    && forall t: Tlv, tag: Tag, nonCritical: bool, forward: bool | Fits(t) && codec.decode(t).Ok? ::
         var u := codec.encode(codec.decode(t).value, tag, nonCritical, forward);
         u.Ok? && u.value.tag == tag && codec.decode(u.value) == codec.decode(t)
  }

  lemma IntegersReadBack()
    ensures SelfReading(Codec(DecodeInteger, EncodeInteger))
  {
    forall n: uint64
      ensures IntegerOf(Raw(IntBytes(n))) == Ok(n)
    {
      IntegerExact(Raw(IntBytes(n)), n);
    }
  }

  lemma ImprintsReadBack()
    ensures SelfReading(Codec(DecodeImprint, EncodeOctets))
  {
  }

  lemma StringsReadBack()
    ensures SelfReading(Codec(DecodeString, EncodeString))
  {
  }

  /** A row that shares its field with no other is closed if its codec reads what it writes. */
  lemma OwnRow(tmpl: seq<Entry>, i: nat)
    requires i < |tmpl| && tmpl[i].kind.Plain? && SelfReading(tmpl[i].kind.codec)
    ensures ClosedPair(tmpl, i, i)
  {
    var e := tmpl[i];
    var codec := e.kind.codec;
    forall t: Tlv | Fits(t) && t.tag == e.tag && codec.decode(t).Ok?
      ensures GoodValue(tmpl, i, codec.decode(t).value)
    {
      var v := codec.decode(t).value;
      var u := codec.encode(v, e.tag, e.nonCritical, e.forward);
      assert ReadsBack(tmpl, i, i, u.value, v);
    }
  }

  /** A link read by either of its two rows is written with the tag of its side, and the row of
      that tag reads it back. */
  lemma LinkRow(i: nat)
    requires i == 3 || i == 4
    ensures ClosedPair(CALENDAR, 3, i)
  {
    forall t: Tlv | Fits(t) && t.tag == CALENDAR[i].tag && DecodeLink(t).Ok?
      ensures GoodValue(CALENDAR, 3, DecodeLink(t).value)
    {
      LinkReadsBack(DecodeLink(t).value);
    }
  }

  lemma LinkReadsBack(v: Value)
    requires v.Sided? && v.inner.Octets? && IsImprint(v.inner.bytes)
    ensures GoodValue(CALENDAR, 3, v)
  {
    var u := Tlv(if v.isLeft then LEFT_LINK else RIGHT_LINK, false, false, Raw(v.inner.bytes));
    assert EncodeLink(v, CALENDAR[3].tag, false, false) == Ok(u);
    assert DecodeImprint(u) == Ok(v.inner);
    assert ReadsBack(CALENDAR, 3, if v.isLeft then 3 else 4, u, v);
  }

  lemma CalendarTemplate()
    ensures GoodTemplate(CALENDAR) && Closed(CALENDAR) && WireTemplate(CALENDAR)
  {
    IntegersReadBack();
    ImprintsReadBack();
    OwnRow(CALENDAR, 0);
    OwnRow(CALENDAR, 1);
    OwnRow(CALENDAR, 2);
    LinkRow(3);
    LinkRow(4);
    hide SelfReading, ClosedPair;
    assert Writes(CALENDAR, 0, 0) && Writes(CALENDAR, 1, 1) && Writes(CALENDAR, 2, 2);
    assert Writes(CALENDAR, 3, 3) && Writes(CALENDAR, 3, 4);
  }

  lemma PublicationDataTemplate()
    ensures GoodTemplate(PUBLICATION_DATA) && Closed(PUBLICATION_DATA) && WireTemplate(PUBLICATION_DATA)
  {
    IntegersReadBack();
    ImprintsReadBack();
    OwnRow(PUBLICATION_DATA, 0);
    OwnRow(PUBLICATION_DATA, 1);
    hide SelfReading, ClosedPair;
    assert Writes(PUBLICATION_DATA, 0, 0) && Writes(PUBLICATION_DATA, 1, 1);
  }

  lemma PublicationRecordTemplate()
    ensures GoodTemplate(PUBLICATION_RECORD) && Closed(PUBLICATION_RECORD) && WireTemplate(PUBLICATION_RECORD)
  {
    PublicationDataTemplate();
    StringsReadBack();
    OwnRow(PUBLICATION_RECORD, 1);
    OwnRow(PUBLICATION_RECORD, 2);
    assert ClosedPair(PUBLICATION_RECORD, 0, 0);
    hide SelfReading, ClosedPair;
    assert Writes(PUBLICATION_RECORD, 0, 0) && Writes(PUBLICATION_RECORD, 1, 1) && Writes(PUBLICATION_RECORD, 2, 2);
  }

  // ---- the elements of a publication record --------------------------------------------------

  function StringElements(tag: Tag, strings: seq<seq<byte>>): (r: seq<Tlv>)
    ensures |r| == |strings|
  {
    seq(|strings|, i requires 0 <= i < |strings| => Tlv(tag, false, false, Raw(strings[i])))
  }

  function StringValues(strings: seq<seq<byte>>): (r: seq<Value>)
    ensures |r| == |strings|
  {
    seq(|strings|, i requires 0 <= i < |strings| => Octets(strings[i]))
  }

  predicate GoodStrings(strings: seq<seq<byte>>) {
    forall i | 0 <= i < |strings| :: strings[i] != [] && strings[i] != [0] && |strings[i]| <= MAX_PAYLOAD
  }

  lemma {:induction false} StringsEncode(e: Entry, strings: seq<seq<byte>>)
    requires e.kind == Plain(Codec(DecodeString, EncodeString)) && !e.nonCritical && !e.forward && GoodStrings(strings)
    ensures EncodeValues(e, StringValues(strings)) == Ok(StringElements(e.tag, strings))
    decreases |strings|
  {
    if strings == [] {
      assert StringElements(e.tag, strings) == [];
    } else {
      assert StringValues(strings)[1..] == StringValues(strings[1..]);
      StringsEncode(e, strings[1..]);
      assert StringElements(e.tag, strings) == [Tlv(e.tag, false, false, Raw(strings[0]))] + StringElements(e.tag, strings[1..]);
    }
  }

  function DataFields(time: uint64, imprint: Imprint): Fields {
    map[0 := One(Number(time)), 1 := One(Octets(imprint))]
  }

  function RecordFields(time: uint64, imprint: Imprint, refs: seq<seq<byte>>, uris: seq<seq<byte>>): Fields {
    map[0 := One(Object(DataFields(time, imprint))), 1 := Many(StringValues(refs)), 2 := Many(StringValues(uris))]
  }

  lemma EmitOne(e: Entry, fields: Fields, v: Value, t: Tlv)
    requires Present(e, fields) && !e.isList && fields[e.field] == One(v) && EncodeValue(e, v) == Ok(t)
    ensures Emit(e, fields) == Ok([t])
  {
    assert [v][1..] == [];
    assert EncodeValues(e, []) == Ok([]);
    assert [t] + [] == [t];
    hide EncodeValue;
  }

  lemma DataElements(time: uint64, imprint: Imprint)
    ensures Construct(PUBLICATION_DATA, DataFields(time, imprint)) ==
      Ok([Tlv(0x02, false, false, Raw(IntBytes(time))), Tlv(0x04, false, false, Raw(imprint))])
  {
    var f := DataFields(time, imprint);
    var a, b := Tlv(0x02, false, false, Raw(IntBytes(time))), Tlv(0x04, false, false, Raw(imprint));
    EmitOne(PUBLICATION_DATA[0], f, Number(time), a);
    EmitOne(PUBLICATION_DATA[1], f, Octets(imprint), b);
    assert EmitFrom(PUBLICATION_DATA, 2, f) == Ok([]);
    assert EmitFrom(PUBLICATION_DATA, 1, f) == Ok([b] + []);
    assert EmitFrom(PUBLICATION_DATA, 0, f) == Ok([a] + ([b] + []));
    assert [a] + ([b] + []) == [a, b];
    hide Emit, EmitFrom;
  }

  /** The elements of a publication record with their tags: the time and the imprint inside the
      first one, then the references and the URIs. */
  lemma PublicationFormat(time: uint64, imprint: Imprint, refs: seq<seq<byte>>, uris: seq<seq<byte>>)
    requires GoodStrings(refs) && GoodStrings(uris)
    ensures Construct(PUBLICATION_RECORD, RecordFields(time, imprint, refs, uris)) == Ok(
      [Tlv(0x10, false, false, Nested([Tlv(0x02, false, false, Raw(IntBytes(time))), Tlv(0x04, false, false, Raw(imprint))]))]
      + StringElements(0x09, refs) + StringElements(0x0a, uris))
  {
    var f := RecordFields(time, imprint, refs, uris);
    var data := Tlv(0x10, false, false, Nested([Tlv(0x02, false, false, Raw(IntBytes(time))), Tlv(0x04, false, false, Raw(imprint))]));
    DataElements(time, imprint);
    EmitOne(PUBLICATION_RECORD[0], f, Object(DataFields(time, imprint)), data);
    StringsEncode(PUBLICATION_RECORD[1], refs);
    StringsEncode(PUBLICATION_RECORD[2], uris);
    RecordRows(f, data, StringElements(0x09, refs), StringElements(0x0a, uris));
    hide EmitFrom, Emit, StringElements, StringValues;
  }

  lemma RecordRows(f: Fields, data: Tlv, refs: seq<Tlv>, uris: seq<Tlv>)
    requires Emit(PUBLICATION_RECORD[0], f) == Ok([data])
    requires Emit(PUBLICATION_RECORD[1], f) == Ok(refs) && Emit(PUBLICATION_RECORD[2], f) == Ok(uris)
    ensures EmitFrom(PUBLICATION_RECORD, 0, f) == Ok([data] + refs + uris)
  {
    hide Emit;
    assert EmitFrom(PUBLICATION_RECORD, 3, f) == Ok([]);
    assert uris + [] == uris;
    assert EmitFrom(PUBLICATION_RECORD, 2, f) == Ok(uris);
    assert EmitFrom(PUBLICATION_RECORD, 1, f) == Ok(refs + uris);
    assert [data] + (refs + uris) == [data] + refs + uris;
  }
}
