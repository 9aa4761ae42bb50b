/** Parsing a publications file: its elements come from a generator that also notes where the
    signature begins. */
module PublicationsFile {
  import opened Common
  import opened Tlv
  import opened Template
  import opened TemplateSearch
  import opened TlvReader

  const FILE_HEADER: seq<byte> := [75, 83, 73, 80, 85, 66, 76, 70]

  const SIGNATURE_TAG: Tag := 0x0704

  const SIGNATURE_FIELD: nat := 3

  /** The template of the source, but for the conversions of its four rows: a header, lists of
      certificates and of publications, and a signature, all mandatory. */
  predicate IsFileTemplate(tmpl: seq<Entry>) {
    && |tmpl| == 4
    && (forall i | 0 <= i < 4 :: tmpl[i].tag == 0x0701 + i && tmpl[i].field == i && tmpl[i].mandatory)
    && (forall i | 0 <= i < 4 :: tmpl[i].least == {} && tmpl[i].most == {})
    && !tmpl[0].isList && tmpl[1].isList && tmpl[2].isList && !tmpl[3].isList
    && !tmpl[0].moreDefs && !tmpl[1].moreDefs && !tmpl[2].moreDefs && tmpl[3].moreDefs
  }

  class Generator {
    const reader: Reader
    var offset: nat
    var sigOffset: nat

    ghost predicate Valid()
      reads this, reader
    {
      reader.Valid()
    }

    constructor (rdr: Reader)
      requires rdr.Valid()
      ensures Valid() && reader == rdr && offset == 0 && sigOffset == 0
    {
      reader := rdr;
      offset, sigOffset := 0, 0;
    }

    /** The next element, or none at the end of the stream. */
    method GenerateNextTlv() returns (res: Result<Option<Tlv>>)
      requires Valid()
      modifies this, reader
      ensures Valid()
      ensures var b := old(reader.Rest());
        match NextFrame(b, FRAME_BUFFER)
        case Err(error) => res == Err(error)
        case Ok(frame) =>
          && reader.Rest() == b[|frame|..] && offset == old(offset) + |frame|
          && if b == [] then res == Ok(None) && sigOffset == old(sigOffset)
             else
               && ParseBlob(frame).Ok? && res == Ok(Some(ParseBlob(frame).value))
               && sigOffset == if res.value.value.tag == SIGNATURE_TAG then old(offset) else old(sigOffset)
    {
      ghost var b := reader.Rest();
      if b != [] {
        FrameAgreement(b);
      }
      var frame := ReadTlv(reader, FRAME_BUFFER);
      if frame.Err? {
        return Err(frame.error);
      }
      if |frame.value| > 0 {
        // A whole element always parses.
        var t := ParseBlob(frame.value).value;
        if t.tag == SIGNATURE_TAG {
          sigOffset := offset;
        }
        res := Ok(Some(t));
      } else {
        res := Ok(None);
      }
      offset := offset + |frame.value|;
    }
  }

  // ---- what the parser does ------------------------------------------------------------------

  /** The elements of a stream, each taken by the template before the next one is read. */
  function RunStream(tmpl: seq<Entry>, start: nat, b: seq<byte>, st: State): Result<State>
    requires start <= |tmpl|
    decreases |b|
  {
    if b == [] then Ok(st)
    else
      match NextFrame(b, FRAME_BUFFER)
      case Err(error) => Err(error)
      case Ok(frame) =>
        match ParseBlob(frame)
        case Err(error) => Err(error)
        case Ok(t) =>
          match Step(tmpl, start, t, st)
          case Err(error) => Err(error)
          case Ok(next) => RunStream(tmpl, NextStart(tmpl, start, t), b[|frame|..], next)
  }

  /** Where the last signature element begins, counted from `offset`. */
  function SignatureOffset(b: seq<byte>, offset: nat, sigOffset: nat): nat
    decreases |b|
  {
    if b == [] || NextFrame(b, FRAME_BUFFER).Err? then sigOffset
    else
      var frame := NextFrame(b, FRAME_BUFFER).value;
      var found := ParseBlob(frame).Ok? && ParseBlob(frame).value.tag == SIGNATURE_TAG;
      SignatureOffset(b[|frame|..], offset + |frame|, if found then offset else sigOffset)
  }

  datatype File = File(raw: seq<byte>, fields: Fields, signedDataLength: nat)

  function Parse(tmpl: seq<Entry>, raw: seq<byte>): Result<File>
    requires GoodSize(tmpl)
  {
    if raw == [] then Err(InvalidArgument)
    else if !(FILE_HEADER <= raw) then Err(InvalidFormat)
    else
      match RunStream(tmpl, 0, raw[8..], START)
      case Err(error) => Err(error)
      case Ok(st) =>
        if Complete(tmpl, st) then Ok(File(raw, st.fields, 8 + SignatureOffset(raw[8..], 0, 0))) else Err(InvalidFormat)
  }

  /** One round of the loop over the stream. */
  lemma {:induction false} NextOfStream(tmpl: seq<Entry>, start: nat, b: seq<byte>, st: State, offset: nat, sigOffset: nat)
    requires start <= |tmpl|
    ensures b == [] ==> NextFrame(b, FRAME_BUFFER) == Ok([])
    ensures b == [] ==> RunStream(tmpl, start, b, st) == Ok(st) && SignatureOffset(b, offset, sigOffset) == sigOffset
    ensures b != [] && NextFrame(b, FRAME_BUFFER).Err? ==>
      RunStream(tmpl, start, b, st) == Err(NextFrame(b, FRAME_BUFFER).error)
    ensures b != [] && NextFrame(b, FRAME_BUFFER).Ok? ==>
      var frame := NextFrame(b, FRAME_BUFFER).value;
      && 0 < |frame| <= |b| && ParseBlob(frame).Ok?
      && var t := ParseBlob(frame).value;
         && SignatureOffset(b, offset, sigOffset) ==
            SignatureOffset(b[|frame|..], offset + |frame|, if t.tag == SIGNATURE_TAG then offset else sigOffset)
         && RunStream(tmpl, start, b, st) ==
            match Step(tmpl, start, t, st)
            case Err(error) => Err(error)
            case Ok(next) => RunStream(tmpl, NextStart(tmpl, start, t), b[|frame|..], next)
  {
    hide Step, NextStart;
    if b != [] {
      FrameAgreement(b);
    }
  }

  /** Extraction from a generator: every element is taken before the next one is read. */
  method ExtractStream(tmpl: seq<Entry>, gen: Generator) returns (res: Result<Fields>)
    requires gen.Valid()
    modifies gen, gen.reader
    ensures gen.Valid()
    ensures match RunStream(tmpl, 0, old(gen.reader.Rest()), START)
      case Err(error) => res == Err(error)
      case Ok(st) => res == if Complete(tmpl, st) then Ok(st.fields) else Err(InvalidFormat)
    ensures res.Ok? ==>
      gen.sigOffset == SignatureOffset(old(gen.reader.Rest()), old(gen.offset), old(gen.sigOffset))
  {
    hide RunStream, SignatureOffset, Run, Step, NextStart, ParseBlob, NextFrame, ReadFirst, Complete;
    var st: State, tmplStart: nat, more := START, 0, true;
    while more
      invariant gen.Valid() && tmplStart <= |tmpl|
      invariant RunStream(tmpl, 0, old(gen.reader.Rest()), START) == RunStream(tmpl, tmplStart, gen.reader.Rest(), st)
      invariant SignatureOffset(old(gen.reader.Rest()), old(gen.offset), old(gen.sigOffset)) ==
        SignatureOffset(gen.reader.Rest(), gen.offset, gen.sigOffset)
      invariant !more ==> gen.reader.Rest() == []
      decreases more, |gen.reader.Rest()|
    {
      NextOfStream(tmpl, tmplStart, gen.reader.Rest(), st, gen.offset, gen.sigOffset);
      var t := gen.GenerateNextTlv();
      if t.Err? {
        return Err(t.error);
      }
      if t.value == None {
        more := false;
      } else {
        var next := Step(tmpl, tmplStart, t.value.value, st);
        if next.Err? {
          return Err(next.error);
        }
        tmplStart := NextStart(tmpl, tmplStart, t.value.value);
        st := next.value;
      }
    }
    NextOfStream(tmpl, tmplStart, gen.reader.Rest(), st, gen.offset, gen.sigOffset);
    if !Complete(tmpl, st) {
      return Err(InvalidFormat);
    }
    return Ok(st.fields);
  }

  method ParseFile(tmpl: seq<Entry>, raw: seq<byte>) returns (res: Result<File>)
    requires GoodSize(tmpl)
    ensures res == Parse(tmpl, raw)
  {
    hide RunStream, SignatureOffset, Complete;
    if |raw| == 0 {
      return Err(InvalidArgument);
    }
    var reader := new Reader(raw);
    var hdr := reader.Read(8);
    if |hdr| != 8 || hdr != FILE_HEADER {
      return Err(InvalidFormat);
    }
    assert raw[..8] == FILE_HEADER;
    var gen := new Generator(reader);
    var fields := ExtractStream(tmpl, gen);
    if fields.Err? {
      return Err(fields.error);
    }
    return Ok(File(raw, fields.value, 8 + gen.sigOffset));
  }

  // ---- what a parsed file is -----------------------------------------------------------------

  /** Reading and taking element by element is the template on all elements of the stream. */
  lemma {:induction false} StreamIsRun(tmpl: seq<Entry>, start: nat, b: seq<byte>, st: State)
    requires start <= |tmpl|
    ensures RunStream(tmpl, start, b, st).Ok? <==> ParseAll(b).Some? && Run(tmpl, start, ParseAll(b).value, st).Ok?
    ensures RunStream(tmpl, start, b, st).Ok? ==> RunStream(tmpl, start, b, st) == Run(tmpl, start, ParseAll(b).value, st)
    decreases |b|
  {
    if b != [] {
      FrameAgreement(b);
      if ReadFirst(b).Some? {
        var (t, n) := ReadFirst(b).value;
        if Step(tmpl, start, t, st).Ok? {
          StreamIsRun(tmpl, NextStart(tmpl, start, t), b[n..], Step(tmpl, start, t, st).value);
        }
        if ParseAll(b).Some? {
          assert ParseAll(b).value[0] == t && ParseAll(b).value[1..] == ParseAll(b[n..]).value;
        }
      }
    }
  }

  function CountTag(list: seq<Tlv>, tag: Tag): nat {
    if list == [] then 0 else (if list[0].tag == tag then 1 else 0) + CountTag(list[1..], tag)
  }

  /** The search never gets behind the first list, so a second signature is always refused. */
  lemma {:induction false} OneSignature(tmpl: seq<Entry>, start: nat, list: seq<Tlv>, st: State)
    requires IsFileTemplate(tmpl) && start <= 1 && Run(tmpl, start, list, st).Ok?
    requires SIGNATURE_FIELD in st.hit <==> SIGNATURE_FIELD in st.fields
    ensures var end := Run(tmpl, start, list, st).value;
      && CountTag(list, SIGNATURE_TAG) + (if SIGNATURE_FIELD in st.fields then 1 else 0)
         == (if SIGNATURE_FIELD in end.fields then 1 else 0)
      && (SIGNATURE_FIELD in end.hit <==> SIGNATURE_FIELD in end.fields)
    decreases list
  {
    if list != [] {
      var t := list[0];
      if k :| start <= k < 4 && tmpl[k].tag == t.tag {
        StepFinds(tmpl, start, k, t, st);
      } else {
        ScanNothing(tmpl, start, t, st, false);
      }
      NextStartWithDistinctTags(tmpl, start, t);
      OneSignature(tmpl, NextStart(tmpl, start, t), list[1..], Step(tmpl, start, t, st).value);
    }
  }

  /** The number of bytes before the first element with the tag. */
  function BytesBefore(frames: seq<seq<byte>>, list: seq<Tlv>, tag: Tag): nat
    requires |frames| == |list|
  {
    if list == [] || list[0].tag == tag then 0 else |frames[0]| + BytesBefore(frames[1..], list[1..], tag)
  }

  lemma {:induction false} SignatureOffsetExact(b: seq<byte>, offset: nat, sigOffset: nat)
    requires ParseAll(b).Some? && Frames(b).Ok? && |Frames(b).value| == |ParseAll(b).value|
    requires CountTag(ParseAll(b).value, SIGNATURE_TAG) <= 1
    ensures SignatureOffset(b, offset, sigOffset) ==
      if CountTag(ParseAll(b).value, SIGNATURE_TAG) == 0 then sigOffset
      else offset + BytesBefore(Frames(b).value, ParseAll(b).value, SIGNATURE_TAG)
    decreases |b|
  {
    hide NextFrame, ReadFirst, ParseBlob;
    if b != [] {
      FrameAgreement(b);
      var (t, n) := ReadFirst(b).value;
      var list, frames := ParseAll(b).value, Frames(b).value;
      assert list[0] == t && list[1..] == ParseAll(b[n..]).value;
      assert frames[0] == b[..n] && frames[1..] == Frames(b[n..]).value;
      FramingAgreement(b[n..]);
      SignatureOffsetExact(b[n..], offset + n, if t.tag == SIGNATURE_TAG then offset else sigOffset);
    }
  }

  /** A file is accepted exactly when it has the file header, the rest of it is a sequence of whole
      elements, and the template takes them. */
  lemma ParseExact(tmpl: seq<Entry>, raw: seq<byte>)
    requires IsFileTemplate(tmpl)
    ensures Parse(tmpl, raw).Ok? <==>
      FILE_HEADER <= raw && ParseAll(raw[8..]).Some? && Extract(tmpl, ParseAll(raw[8..]).value).Ok?
    ensures Parse(tmpl, raw).Ok? ==> Extract(tmpl, ParseAll(raw[8..]).value) == Ok(Parse(tmpl, raw).value.fields)
  {
    if FILE_HEADER <= raw {
      StreamIsRun(tmpl, 0, raw[8..], START);
      assert START.(fields := map[]) == START;
    }
  }

  /** An accepted file is fully partitioned into its header and its elements, one of them is the
      signature, and the signed data is exactly what comes before it. */
  lemma FilePartition(tmpl: seq<Entry>, raw: seq<byte>)
    requires IsFileTemplate(tmpl) && Parse(tmpl, raw).Ok?
    ensures Frames(raw[8..]).Ok? && ParseAll(raw[8..]).Some?
    ensures var frames, list := Frames(raw[8..]).value, ParseAll(raw[8..]).value;
      && raw == FILE_HEADER + Flatten(frames) && |frames| == |list|
      && CountTag(list, SIGNATURE_TAG) == 1
      && Parse(tmpl, raw).value.signedDataLength == |FILE_HEADER| + BytesBefore(frames, list, SIGNATURE_TAG)
  {
    ParseExact(tmpl, raw);
    FramingAgreement(raw[8..]);
    StreamIsRun(tmpl, 0, raw[8..], START);
    OneSignature(tmpl, 0, ParseAll(raw[8..]).value, START);
    var end := Run(tmpl, 0, ParseAll(raw[8..]).value, START).value;
    assert tmpl[3].mandatory;
    SignatureOffsetExact(raw[8..], 0, 0);
    assert raw == raw[..8] + raw[8..];
  }

  /** The first eight bytes of an accepted file are these characters. */
  lemma FileMagic(tmpl: seq<Entry>, raw: seq<byte>, i: nat)
    requires GoodSize(tmpl) && Parse(tmpl, raw).Ok? && i < 8
    ensures |raw| >= 8 && raw[i] as char == "KSIPUBLF"[i]
  {
    assert raw[..8] == FILE_HEADER;
    assert i == 0 || i == 1 || i == 2 || i == 3 || i == 4 || i == 5 || i == 6 || i == 7;
    hide Parse;
  }
}
