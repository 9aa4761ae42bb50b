/** Reading TLV elements one by one from a memory reader. */
module TlvReader {
  import opened Common
  import opened Tlv

  /** A reader over shared memory. The end of the stream is noticed while reading. */
  class Reader {
    const buffer: seq<byte>
    var offset: nat
    var eof: bool

    ghost predicate Valid()
      reads this
    {
      offset <= |buffer|
    }

    function Rest(): seq<byte>
      reads this
      requires offset <= |buffer|
    {
      buffer[offset..]
    }

    constructor (data: seq<byte>)
      ensures Valid() && buffer == data && offset == 0 && Rest() == data
    {
      buffer := data;
      offset, eof := 0, false;
    }

    /** As many bytes as are asked for, or as there are. */
    method Read(size: nat) returns (bytes: seq<byte>)
      requires Valid()
      modifies this
      ensures Valid() && bytes == old(Rest())[..Min(size, |old(Rest())|)]
      ensures offset == old(offset) + |bytes| && Rest() == old(Rest())[|bytes|..]
      ensures eof == (Rest() == [])
    {
      bytes := [];
      if |buffer| > offset {
        var count := |buffer| - offset;
        if count > size {
          count := size;
        }
        bytes := buffer[offset..offset + count];
        offset := offset + count;
      }
      eof := offset >= |buffer|;
    }
  }

  function Min(a: nat, b: nat): nat {
    if a < b then a else b
  }

  /** What reading an element from the front of a stream gives: the bytes of the element, none at
      the end of the stream, or an error that depends on how the element is cut off. */
  function NextFrame(b: seq<byte>, bufferLen: nat): Result<seq<byte>> {
    if b == [] then Ok([])
    else if CutHeader(b) then Err(InvalidFormat)
    else
      var size := FrameSize(b);
      if size > bufferLen then Err(BufferOverflow)
      else if size > |b| then Err(InvalidArgument)
      else Ok(b[..size])
  }

  /** The stream ends within a header. */
  predicate CutHeader(b: seq<byte>) {
    |b| == 1 || (2 <= |b| < 4 && b[0] >= 0x80)
  }

  /** The length of header and value, by the header. */
  function FrameSize(b: seq<byte>): nat
    requires b != [] && !CutHeader(b)
  {
    if b[0] >= 0x80 then 4 + Big(b[2], b[3]) else 2 + b[1] as nat
  }

  datatype HeaderInfo = HeaderInfo(dest: seq<byte>, length: nat)

  /** The two or four bytes of a header; no bytes at the end of the stream. */
  method ReadHeader(rdr: Reader) returns (res: Result<HeaderInfo>)
    requires rdr.Valid()
    modifies rdr
    ensures rdr.Valid()
    ensures var b := old(rdr.Rest());
      match res
      case Err(error) => CutHeader(b) && error == InvalidFormat
      case Ok(info) =>
        && |info.dest| <= |b| && rdr.Rest() == b[|info.dest|..] && rdr.offset == old(rdr.offset) + |info.dest|
        && if b == [] then info == HeaderInfo([], 0)
           else
             && !CutHeader(b)
             && info.dest == b[..if b[0] >= 0x80 then 4 else 2] && |info.dest| + info.length == FrameSize(b)
  {
    ghost var b := rdr.Rest();
    var dest := rdr.Read(2);
    if |dest| == 0 && rdr.eof {
      return Ok(HeaderInfo([], 0));
    }
    if |dest| != 2 {
      return Err(InvalidFormat);
    }
    if dest[0] >= 0x80 {
      var more := rdr.Read(2);
      if |more| != 2 {
        return Err(InvalidFormat);
      }
      dest := dest + more;
      assert dest == b[..4];
      return Ok(HeaderInfo(dest, Big(dest[2], dest[3]) % 0x1_0000));
    }
    return Ok(HeaderInfo(dest, dest[1]));
  }

  method ReadTlv(rdr: Reader, bufferLen: nat) returns (res: Result<seq<byte>>)
    requires rdr.Valid()
    modifies rdr
    ensures rdr.Valid()
    ensures res == if bufferLen < 4 then Err(InvalidArgument) else NextFrame(old(rdr.Rest()), bufferLen)
    ensures res.Ok? ==> rdr.Rest() == old(rdr.Rest())[|res.value|..] && rdr.offset == old(rdr.offset) + |res.value|
  {
    if bufferLen < 4 {
      return Err(InvalidArgument);
    }
    ghost var b := rdr.Rest();
    var header := ReadHeader(rdr);
    if header.Err? {
      return Err(header.error);
    }
    var dest, valueLength := header.value.dest, header.value.length;
    if valueLength + |dest| > bufferLen {
      return Err(BufferOverflow);
    }
    var value := rdr.Read(valueLength);
    if |value| != valueLength {
      return Err(InvalidArgument);
    }
    if b == [] {
      assert dest + value == [];
    } else {
      assert b[..|dest|] + b[|dest|..][..valueLength] == b[..|dest| + valueLength];
    }
    assert b[|dest|..][|value|..] == b[|dest| + |value|..];
    return Ok(dest + value);
  }

  // ---- agreement with the parser -------------------------------------------------------------

  const FRAME_BUFFER: nat := 0xffff + 4

  /** The reader and the parser find the same first element. */
  lemma FrameAgreement(b: seq<byte>)
    requires b != []
    ensures NextFrame(b, FRAME_BUFFER).Ok? <==> ReadFirst(b).Some?
    ensures ReadFirst(b).Some? ==>
      var (t, n) := ReadFirst(b).value;
      && NextFrame(b, FRAME_BUFFER) == Ok(b[..n])
      && ReadFirst(b[..n]) == Some((t, n)) && ParseBlob(b[..n]) == Ok(t)
  {
    if !CutHeader(b) {
      var hdrLen := if b[0] >= 0x80 then 4 else 2;
      assert FrameSize(b) <= FRAME_BUFFER;
      if FrameSize(b) <= |b| {
        var n := FrameSize(b);
        assert b[..n][hdrLen..n] == b[hdrLen..n];
      }
    }
  }

  /** All elements of a stream, as bytes. */
  function Frames(b: seq<byte>): Result<seq<seq<byte>>>
    decreases |b|
  {
    if b == [] then Ok([])
    else
      match NextFrame(b, FRAME_BUFFER)
      case Err(error) => Err(error)
      case Ok(frame) =>
        match Frames(b[|frame|..])
        case Err(error) => Err(error)
        case Ok(rest) => Ok([frame] + rest)
  }

  function Flatten(frames: seq<seq<byte>>): seq<byte> {
    if frames == [] then [] else frames[0] + Flatten(frames[1..])
  }

  /** Reading element by element splits every byte string exactly as parsing the whole buffer
      does, or both fail; the elements partition the string. */
  lemma {:induction false} FramingAgreement(b: seq<byte>)
    ensures Frames(b).Ok? <==> ParseAll(b).Some?
    ensures Frames(b).Ok? ==>
      var frames, list := Frames(b).value, ParseAll(b).value;
      && Flatten(frames) == b && |frames| == |list|
      && forall i | 0 <= i < |list| :: ReadFirst(frames[i]) == Some((list[i], |frames[i]|))
    decreases |b|
  {
    if b != [] {
      FrameAgreement(b);
      if ReadFirst(b).Some? {
        var n := ReadFirst(b).value.1;
        assert |b[..n]| == n && b[..n] + b[n..] == b;
        FramingAgreement(b[n..]);
      }
    }
  }

  /** Which error cut bytes give: within the header an invalid format, within the payload an invalid
      argument. The library's buffer is large enough for every element. */
  lemma CutErrors(b: seq<byte>)
    requires b != []
    ensures NextFrame(b, FRAME_BUFFER) == Err(InvalidFormat) <==> |b| == 1 || (b[0] >= 128 && |b| < 4)
    ensures NextFrame(b, FRAME_BUFFER) == Err(InvalidArgument) <==>
      || (|b| >= 2 && b[0] < 128 && |b| - 2 < b[1])
      || (|b| >= 4 && b[0] >= 128 && |b| - 4 < b[2] as int * 256 + b[3] as int)
    ensures NextFrame(b, FRAME_BUFFER) != Err(BufferOverflow)
  {
  }
}
