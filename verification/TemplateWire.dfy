/** Objects through bytes: construction and serialization on one side, parsing and extraction on
    the other. */
module TemplateWire {
  import opened Common
  import opened Tlv
  import opened Template
  import opened TemplateRoundTrip

  /** An element that was read keeps its value when its payload is in serialized form. */
  ghost predicate ReadsFlat(codec: Codec) {
    forall t: Tlv | Fits(t) && codec.decode(t).Ok? :: codec.decode(Flat(t)) == codec.decode(t)
  }

  ghost predicate WireTemplate(tmpl: seq<Entry>)
    decreases tmpl
  {
    forall i | 0 <= i < |tmpl| :: WireRow(tmpl[i])
  }

  ghost predicate WireRow(e: Entry)
    decreases e
  {
    match e.kind
    case Plain(codec) => ReadsFlat(codec)
    case Composite(sub) => WireTemplate(sub)
  }

  lemma {:induction false} DecodeFlat(e: Entry, t: Tlv)
    requires WireRow(e) && Fits(t) && DecodeValue(e, t).Ok?
    ensures DecodeValue(e, Flat(t)) == DecodeValue(e, t)
    decreases e, 0
  {
    if e.kind.Composite? && t.payload.Nested? {
      ParseAllOfEncodeAll(t.payload.list);
      ExtractFlat(e.kind.sub, t.payload.list);
    }
  }

  lemma {:induction false} ScanFlat(tmpl: seq<Entry>, i: nat, t: Tlv, st: State, matched: bool)
    requires i <= |tmpl| && WireTemplate(tmpl) && Fits(t) && Scan(tmpl, i, t, st, matched).Ok?
    ensures Scan(tmpl, i, Flat(t), st, matched) == Scan(tmpl, i, t, st, matched)
    decreases tmpl, 1, |tmpl| - i
  {
    if i < |tmpl| {
      if tmpl[i].tag != t.tag {
        ScanFlat(tmpl, i + 1, t, st, matched);
      } else {
        assert WireRow(tmpl[i]);
        DecodeFlat(tmpl[i], t);
        assert Apply(tmpl, i, Flat(t), st) == Apply(tmpl, i, t, st);
        if tmpl[i].moreDefs {
          ScanFlat(tmpl, i + 1, t, Apply(tmpl, i, t, st).value, true);
        }
      }
    }
  }

  lemma {:induction false} RunFlat(tmpl: seq<Entry>, start: nat, list: seq<Tlv>, st: State)
    requires start <= |tmpl| && WireTemplate(tmpl) && |EncodeAll(list)| <= MAX_PAYLOAD && Run(tmpl, start, list, st).Ok?
    ensures Run(tmpl, start, FlatAll(list), st) == Run(tmpl, start, list, st)
    decreases tmpl, 2, list
  {
    hide WireTemplate, Scan;
    if list != [] {
      ChildrenFit(list);
      ScanFlat(tmpl, start, list[0], st, false);
      NextStartByTag(tmpl, start, list[0], Flat(list[0]));
      RunFlat(tmpl, NextStart(tmpl, start, list[0]), list[1..], Step(tmpl, start, list[0], st).value);
      assert FlatAll(list)[0] == Flat(list[0]) && FlatAll(list)[1..] == FlatAll(list[1..]);
    }
  }

  lemma {:induction false} NextStartByTag(tmpl: seq<Entry>, start: nat, t: Tlv, u: Tlv)
    requires start <= |tmpl| && t.tag == u.tag
    ensures NextStart(tmpl, start, t) == NextStart(tmpl, start, u)
    decreases |tmpl| - start
  {
    if start < |tmpl| {
      NextStartByTag(tmpl, start + 1, t, u);
    }
  }

  /** Parsing the elements again from their bytes changes nothing. */
  lemma {:induction false} ExtractFlat(tmpl: seq<Entry>, list: seq<Tlv>)
    requires WireTemplate(tmpl) && |EncodeAll(list)| <= MAX_PAYLOAD && Extract(tmpl, list).Ok?
    ensures Extract(tmpl, FlatAll(list)) == Extract(tmpl, list)
    decreases tmpl, 3
  {
    hide WireTemplate, Run;
    assert Extract(tmpl, list) == ExtractInto(tmpl, list, map[]);
    assert Extract(tmpl, FlatAll(list)) == ExtractInto(tmpl, FlatAll(list), map[]);
    assert START.(fields := map[]) == START;
    RunFlat(tmpl, 0, list, START);
  }

  /** Writing an object as the bytes of one element and reading it from them. */
  function Write(tmpl: seq<Entry>, fields: Fields, tag: Tag, nonCritical: bool, forward: bool): Result<seq<byte>> {
    match Construct(tmpl, fields)
    case Err(error) => Err(error)
    case Ok(list) => Ok(Encode(Tlv(tag, nonCritical, forward, Nested(list))))
  }

  function Read(tmpl: seq<Entry>, b: seq<byte>): Result<Fields> {
    match ParseBlob(b)
    case Err(error) => Err(error)
    case Ok(t) => ExtractTlv(tmpl, t)
  }

  /** For every template and every well-formed object: its bytes read back as the same object
      exactly when the payload is not too long for the length field. */
  lemma BytesRoundTrip(tmpl: seq<Entry>, fields: Fields, tag: Tag, nonCritical: bool, forward: bool)
    requires GoodTemplate(tmpl) && WireTemplate(tmpl) && GoodObject(tmpl, fields)
    ensures Construct(tmpl, fields).Ok? && Write(tmpl, fields, tag, nonCritical, forward).Ok?
    ensures Read(tmpl, Write(tmpl, fields, tag, nonCritical, forward).value) ==
      if |EncodeAll(Construct(tmpl, fields).value)| <= MAX_PAYLOAD then Ok(fields) else Err(InvalidFormat)
  {
    hide GoodTemplate, WireTemplate, GoodObject, Construct, ParseAll, ReadFirst, Encode;
    TemplateRoundTrip.RoundTrip(tmpl, fields);
    var list := Construct(tmpl, fields).value;
    var t := Tlv(tag, nonCritical, forward, Nested(list));
    assert PayloadBytes(t.payload) == EncodeAll(list);
    if Fits(t) {
      EncodeAgain(t);
      ParseAllOfEncodeAll(list);
      ExtractFlat(tmpl, list);
      assert ExtractTlv(tmpl, Flat(t)) == Extract(tmpl, FlatAll(list));
    } else {
      TooLong(t);
    }
  }
}
