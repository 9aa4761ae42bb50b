/** Chunked bodies: the sizes that are accepted, and what the parser makes of encoded chunks. */
module HttpChunks {
  import opened Common
  import opened HttpBody

  predicate AreHex(s: seq<byte>) {
    forall i | 0 <= i < |s| :: Unhex(s[i]) >= 0
  }

  function HexValue(s: seq<byte>): nat
    requires AreHex(s)
  {
    if s == [] then 0 else HexValue(s[..|s| - 1]) * 16 + Unhex(s[|s| - 1])
  }

  /** The largest size that is accepted. */
  const MAX_CHUNK: nat := 0xffff_ffff_ffff_ffef

  lemma RunOne(p: Parser, ch: byte)
    requires Live(p)
    ensures Run(p, [ch]) == Next(Progress(p, [], 0), ch)
  {
    RunSnoc(p, [], ch);
    assert [] + [ch] == [ch];
  }

  lemma NoAtoms()
    ensures forall a: seq<Atom> :: [] + a == a
  {
  }

  /** The parser when the digits of a size have been read. */
  function Sized(p: Parser, digits: seq<byte>): Parser
    requires AreHex(digits) && HexValue(digits) <= MAX_CHUNK
  {
    p.(phase := ChunkSize, contentLength := HexValue(digits), nread := |digits|)
  }

  lemma FirstDigit(p: Parser, ch: byte)
    requires Live(p) && Inv(p) && p.phase.ChunkSizeStart? && Unhex(ch) >= 0
    ensures Run(p, [ch]) == Progress(p.(phase := ChunkSize, contentLength := Unhex(ch), nread := 1), [], 1)
  {
    RunOne(p, ch);
  }

  lemma NextDigit(p: Parser, ch: byte)
    requires Live(p) && p.phase.ChunkSize? && Unhex(ch) >= 0 && p.nread < MAX_HEADER_SIZE
    ensures Step(p, ch) ==
      if p.contentLength * 16 + Unhex(ch) <= MAX_CHUNK then
        Outcome(p.(nread := p.nread + 1, contentLength := p.contentLength * 16 + Unhex(ch)), [])
      else Outcome(p.(nread := p.nread + 1, errno := HpeInvalidContentLength), [])
  {
    UnhexRange(ch);
    if p.contentLength <= MAX_BEFORE_DIGIT {
      WrapSmall(p.contentLength * 16 + Unhex(ch));
    }
    hide Wrap, Unhex;
  }

  /** A size is accepted exactly up to 2^64 - 17, whatever its leading zeros; a larger one is an
      error, never a wrapped length. */
  lemma {:induction false} SizeExact(p: Parser, digits: seq<byte>)
    requires Live(p) && Inv(p) && p.phase.ChunkSizeStart?
    requires 0 < |digits| <= MAX_HEADER_SIZE && AreHex(digits)
    ensures HexValue(digits) <= MAX_CHUNK ==> Run(p, digits) == Progress(Sized(p, digits), [], |digits|)
    ensures HexValue(digits) > MAX_CHUNK ==> Run(p, digits).parser.errno == HpeInvalidContentLength
  {
    var n := |digits| - 1;
    if n == 0 {
      assert digits == [digits[0]];
      assert HexValue(digits[..0]) == 0;
      UnhexRange(digits[0]);
      FirstDigit(p, digits[0]);
    } else {
      SizeExact(p, digits[..n]);
      assert HexValue(digits) == HexValue(digits[..n]) * 16 + Unhex(digits[n]);
      if HexValue(digits[..n]) <= MAX_CHUNK {
        NextDigit(Sized(p, digits[..n]), digits[n]);
        hide Step;
        assert Run(p, digits) == Next(Run(p, digits[..n]), digits[n]);
        NoAtoms();
      }
    }
  }

  // ---- size lines ----------------------------------------------------------------------------

  /** The size of a chunk as section 3.6.1 of RFC 2616 writes it. */
  predicate IsChunkSize(line: seq<byte>) {
    forall i | 0 <= i < |line| :: IsHexDigit(line[i])
  }

  /** The digits that the parser takes: besides hexadecimal ones every byte from 128 on. */
  lemma HexBytes(line: seq<byte>)
    ensures AreHex(line) <==> forall i | 0 <= i < |line| :: IsHexDigit(line[i]) || line[i] >= 128
    ensures IsChunkSize(line) <==> AreHex(line) && forall i | 0 <= i < |line| :: line[i] < 128
  {
    forall i | 0 <= i < |line|
      ensures Unhex(line[i]) >= 0 <==> IsHexDigit(line[i]) || line[i] >= 128
    {
      UnhexExact(line[i]);
    }
    hide Unhex;
  }

  predicate ReadsSize(q: Parser) {
    Live(q) && q.phase.ChunkSize?
  }

  /** Behind anything that is no digit no byte but a CR leads back to reading a size. */
  predicate GaveUp(q: Parser) {
    !Live(q) || q.phase.ChunkParameters?
  }

  lemma StepGaveUp(q: Parser, ch: byte)
    requires Live(q) && GaveUp(q) && ch != CR
    ensures GaveUp(Step(q, ch).parser)
  {
  }

  lemma StepOutOfSize(q: Parser, ch: byte)
    requires Live(q) && (q.phase.ChunkSize? || q.phase.ChunkSizeStart?) && ch != CR && Unhex(ch) < 0
    ensures GaveUp(Step(q, ch).parser)
  {
    hide Unhex;
  }

  /** A line of a chunk is taken as its size exactly if it consists of digits that the table
      knows and of bytes from 128 on, and the value is in range. */
  lemma {:induction false} SizeLineExact(p: Parser, line: seq<byte>)
    requires Live(p) && Inv(p) && p.phase.ChunkSizeStart?
    requires 0 < |line| <= MAX_HEADER_SIZE && CR !in line
    ensures ReadsSize(Run(p, line).parser) <==> AreHex(line) && HexValue(line) <= MAX_CHUNK
    ensures ReadsSize(Run(p, line).parser) ==> Run(p, line) == Progress(Sized(p, line), [], |line|)
    ensures !ReadsSize(Run(p, line).parser) ==> GaveUp(Run(p, line).parser)
  {
    if AreHex(line) {
      SizeExact(p, line);
    } else {
      var n := |line| - 1;
      assert line[n] in line;
      if n == 0 {
        RunOne(p, line[0]);
        assert line == [line[0]];
        StepOutOfSize(p, line[0]);
      } else {
        SizeLineExact(p, line[..n]);
        LineGoesOn(p, line);
      }
      hide Step, Run;
    }
  }

  lemma LineGoesOn(p: Parser, line: seq<byte>)
    requires |line| > 1 && !AreHex(line) && line[|line| - 1] != CR
    requires var q := Run(p, line[..|line| - 1]).parser;
      GaveUp(q) || (ReadsSize(q) && AreHex(line[..|line| - 1]))
    ensures GaveUp(Run(p, line).parser)
  {
    hide Step, Unhex;
    var n := |line| - 1;
    var q := Run(p, line[..n]).parser;
    if Live(q) {
      assert Run(p, line).parser == Step(q, line[n]).parser;
      hide Run;
      if GaveUp(q) {
        StepGaveUp(q, line[n]);
      } else {
        StepOutOfSize(q, line[n]);
      }
    }
  }

  /** Of the lines that are taken as a size, those of RFC 2616 are exactly the ones without a
      byte from 128 on. */
  lemma SizeLineDeparture(p: Parser, line: seq<byte>)
    requires Live(p) && Inv(p) && p.phase.ChunkSizeStart?
    requires 0 < |line| <= MAX_HEADER_SIZE && CR !in line && ReadsSize(Run(p, line).parser)
    ensures IsChunkSize(line) <==> forall i | 0 <= i < |line| :: line[i] < 128
  {
    SizeLineExact(p, line);
    HexBytes(line);
  }

  lemma StepHighByte(p: Parser, ch: byte)
    requires Live(p) && (p.phase.ChunkSizeStart? || p.phase.ChunkSize?) && ch >= 128
    ensures Step(p, ch) == Step(p, 48)
  {
  }

  /** The line with every byte from 128 on replaced by the digit 0. */
  function Plain(line: seq<byte>): (r: seq<byte>)
    ensures |r| == |line| && forall i | 0 <= i < |line| :: r[i] == if line[i] >= 128 then 48 else line[i]
  {
    seq(|line|, i requires 0 <= i < |line| => if line[i] >= 128 then 48 else line[i])
  }

  /** Whatever size line is taken: its bytes from 128 on read as the digit 0. */
  lemma {:induction false} HighBytesReadAsZero(p: Parser, line: seq<byte>)
    requires Live(p) && Inv(p) && p.phase.ChunkSizeStart?
    requires |line| <= MAX_HEADER_SIZE && AreHex(line)
    ensures Run(p, line) == Run(p, Plain(line))
  {
    hide Step, Inv, HexValue;
    if line != [] {
      var n := |line| - 1;
      HighBytesReadAsZero(p, line[..n]);
      assert Plain(line)[..n] == Plain(line[..n]);
      if n > 0 {
        SizeExact(p, line[..n]);
      }
      var q := Run(p, line[..n]).parser;
      if Live(q) && line[n] >= 128 {
        StepHighByte(q, line[n]);
      }
    }
  }

  // ---- encoding ------------------------------------------------------------------------------

  function HexDigit(n: nat): (ch: byte)
    requires n < 16
    ensures Unhex(ch) == n
  {
    if n < 10 then 48 + n else 87 + n
  }

  function HexDigits(n: nat): (s: seq<byte>)
    ensures s != [] && AreHex(s)
  {
    if n < 16 then [HexDigit(n)] else HexDigits(n / 16) + [HexDigit(n % 16)]
  }

  lemma {:induction false} ValueOfDigits(n: nat)
    ensures HexValue(HexDigits(n)) == n
  {
    var s := HexDigits(n);
    if n < 16 {
      assert HexValue(s[..0]) == 0;
    } else {
      ValueOfDigits(n / 16);
      assert s[..|s| - 1] == HexDigits(n / 16);
    }
  }

  function Pow16(k: nat): nat {
    if k == 0 then 1 else 16 * Pow16(k - 1)
  }

  lemma {:induction false} DigitsFit(n: nat, k: nat)
    requires 0 < k && n < Pow16(k)
    ensures |HexDigits(n)| <= k
  {
    if n >= 16 {
      DigitsFit(n / 16, k - 1);
    }
  }

  lemma SizesAreShort(n: nat)
    requires n <= MAX_CHUNK
    ensures |HexDigits(n)| <= 16
  {
    assert Pow16(4) == 0x1_0000;
    assert Pow16(8) == 0x1_0000_0000;
    assert Pow16(12) == 0x1_0000_0000_0000;
    assert Pow16(16) == UINT64_LIMIT;
    DigitsFit(n, 16);
  }

  function SizeLine(n: nat): seq<byte> {
    HexDigits(n) + [CR, LF]
  }

  function EncodeChunk(chunk: seq<byte>): seq<byte> {
    SizeLine(|chunk|) + chunk + [CR, LF]
  }

  /** The chunks, the last chunk, and no trailer fields. */
  function Encode(chunks: seq<seq<byte>>): seq<byte> {
    if chunks == [] then SizeLine(0) + [CR, LF] else EncodeChunk(chunks[0]) + Encode(chunks[1..])
  }

  function Flatten(chunks: seq<seq<byte>>): seq<byte> {
    if chunks == [] then [] else chunks[0] + Flatten(chunks[1..])
  }

  predicate GoodChunks(chunks: seq<seq<byte>>) {
    forall i | 0 <= i < |chunks| :: 0 < |chunks[i]| <= MAX_CHUNK
  }

  /** Two bytes that neither end the run nor deliver anything. */
  lemma TwoSteps(p: Parser, x: byte, y: byte, mid: Parser, end: Outcome)
    requires Live(p) && Step(p, x) == Outcome(mid, []) && Live(mid) && Step(mid, y) == end && Live(end.parser)
    ensures Run(p, [x, y]) == Progress(end.parser, end.atoms, 2)
  {
    hide Step, Live, Run;
    RunOne(p, x);
    RunSnoc(p, [x], y);
    assert [x] + [y] == [x, y];
    assert [] + [] + end.atoms == end.atoms;
  }

  /** Two parts that are taken whole. */
  lemma Chain(p: Parser, a: seq<byte>, q: Parser, x: seq<Atom>, b: seq<byte>, r: Parser, y: seq<Atom>)
    requires Run(p, a) == Progress(q, x, |a|) && Run(q, b) == Progress(r, y, |b|)
    ensures Run(p, a + b) == Progress(r, x + y, |a + b|)
  {
    hide Run;
    RunConcat(p, a, b);
  }

  /** The parser behind the line with a size: in the chunk, or behind the last one. */
  function BehindSize(p: Parser, n: nat): Parser
    requires n <= MAX_CHUNK
  {
    Parser(p.message, if n == 0 then TrailerStart else ChunkData, p.trailing || n == 0, 0, n, p.errno)
  }

  lemma SizeLineEnd(p: Parser)
    requires Live(p) && p.phase.ChunkSize? && p.contentLength <= MAX_CHUNK && p.nread <= 16
    ensures Run(p, [CR, LF]) == Progress(BehindSize(p, p.contentLength), [], 2)
  {
    var mid := p.(nread := p.nread + 1, phase := ChunkSizeAlmostDone);
    TwoSteps(p, CR, LF, mid, Outcome(BehindSize(p, p.contentLength), []));
  }

  lemma SizeLineRun(p: Parser, n: nat)
    requires Live(p) && Inv(p) && p.phase.ChunkSizeStart? && n <= MAX_CHUNK
    ensures Run(p, SizeLine(n)) == Progress(BehindSize(p, n), [], |SizeLine(n)|)
  {
    hide Run, Step, Inv;
    var digits := HexDigits(n);
    ValueOfDigits(n);
    SizesAreShort(n);
    SizeExact(p, digits);
    SizeLineEnd(Sized(p, digits));
    Chain(p, digits, Sized(p, digits), [], [CR, LF], BehindSize(p, n), []);
    NoAtoms();
  }

  /** The input that no chunk of RFC 2616 begins with: the line of the single byte 128 is taken,
      and ends the body as the line "0" does. */
  lemma HighByteEndsBody(p: Parser)
    requires Live(p) && Inv(p) && p.phase.ChunkSizeStart?
    ensures !IsChunkSize([128])
    ensures Run(p, [128]) == Progress(p.(phase := ChunkSize, contentLength := 0, nread := 1), [], 1)
    ensures Run(p, [128] + [CR, LF]) == Run(p, [48] + [CR, LF]) == Progress(BehindSize(p, 0), [], 3)
  {
    assert Unhex(128) == Unhex(48) == 0;
    FirstDigit(p, 128);
    FirstDigit(p, 48);
    var q := p.(phase := ChunkSize, contentLength := 0, nread := 1);
    hide Run, Step, Inv, Unhex;
    SizeLineEnd(q);
    Chain(p, [128], q, [], [CR, LF], BehindSize(p, 0), []);
    Chain(p, [48], q, [], [CR, LF], BehindSize(p, 0), []);
    NoAtoms();
  }

  lemma DataEnd(p: Parser)
    requires Live(p) && p.phase.ChunkDataAlmostDone?
    ensures Run(p, [CR, LF]) == Progress(p.(phase := ChunkSizeStart, nread := 0), [], 2)
  {
    TwoSteps(p, CR, LF, p.(phase := ChunkDataDone), Outcome(p.(phase := ChunkSizeStart, nread := 0), []));
  }

  /** The parser behind a whole chunk. */
  function BehindChunk(p: Parser): Parser {
    Parser(p.message, ChunkSizeStart, p.trailing, 0, 0, p.errno)
  }

  lemma DataRun(p: Parser, chunk: seq<byte>)
    requires Live(p) && p.phase.ChunkData? && p.message.isChunked && p.nread == 0 && p.contentLength == |chunk|
    requires 0 < |chunk| <= MAX_CHUNK
    ensures Run(p, chunk + [CR, LF]) == Progress(BehindChunk(p), BodyAtoms(chunk), |chunk| + 2)
  {
    hide Run, Step;
    ReadBody(p, chunk);
    DataEnd(Behind(p, |chunk|));
    assert BodyAtoms(chunk) + [] == BodyAtoms(chunk);
    Chain(p, chunk, Behind(p, |chunk|), BodyAtoms(chunk), [CR, LF], BehindChunk(p), []);
  }

  lemma ChunkRun(p: Parser, chunk: seq<byte>)
    requires Live(p) && Inv(p) && p.phase.ChunkSizeStart? && 0 < |chunk| <= MAX_CHUNK
    ensures Run(p, EncodeChunk(chunk)) == Progress(BehindChunk(p), BodyAtoms(chunk), |EncodeChunk(chunk)|)
  {
    hide Run, Step;
    SizeLineRun(p, |chunk|);
    var q := BehindSize(p, |chunk|);
    DataRun(q, chunk);
    Chain(p, SizeLine(|chunk|), q, [], chunk + [CR, LF], BehindChunk(p), BodyAtoms(chunk));
    NoAtoms();
    assert EncodeChunk(chunk) == SizeLine(|chunk|) + (chunk + [CR, LF]);
  }

  /** The parser behind the whole message. */
  function MessageEnd(p: Parser): Parser {
    NewMessage(Parser(p.message, p.phase, true, 2, 0, p.errno))
  }

  lemma TrailerRun(p: Parser)
    requires Live(p) && p.phase.TrailerStart? && p.trailing && p.nread == 0 && p.contentLength == 0
    ensures Run(p, [CR, LF]) == Progress(MessageEnd(p), [Complete], 2)
  {
    hide ShouldKeepAlive;
    TwoSteps(p, CR, LF, p.(phase := TrailerAlmostDone, nread := 1), Outcome(MessageEnd(p), [Complete]));
  }

  lemma LastChunkRun(p: Parser)
    requires Live(p) && Inv(p) && p.phase.ChunkSizeStart?
    ensures Run(p, SizeLine(0) + [CR, LF]) == Progress(MessageEnd(p), [Complete], |SizeLine(0)| + 2)
  {
    hide Run, Step, Inv, ShouldKeepAlive, SizeLine;
    var q := BehindSize(p, 0);
    SizeLineRun(p, 0);
    TrailerRun(q);
    Chain(p, SizeLine(0), q, [], [CR, LF], MessageEnd(p), [Complete]);
    NoAtoms();
  }

  lemma MessageEndOfBehind(p: Parser)
    requires Live(p) && Inv(p) && p.phase.ChunkSizeStart?
    ensures Live(BehindChunk(p)) && Inv(BehindChunk(p)) && MessageEnd(BehindChunk(p)) == MessageEnd(p)
  {
  }

  /** Round trip: the encoding of any chunks delivers exactly their bytes in order, completes the
      message once, and is taken whole. */
  lemma {:induction false} ChunkedRoundTrip(p: Parser, chunks: seq<seq<byte>>)
    requires Live(p) && Inv(p) && p.phase.ChunkSizeStart? && GoodChunks(chunks)
    ensures Run(p, Encode(chunks)) == Progress(MessageEnd(p), BodyAtoms(Flatten(chunks)) + [Complete], |Encode(chunks)|)
    decreases |chunks|
  {
    hide Run, Inv, EncodeChunk, MessageEnd, SizeLine;
    if chunks == [] {
      LastChunkRun(p);
      assert BodyAtoms([]) + [Complete] == [Complete];
    } else {
      var q, rest := BehindChunk(p), BodyAtoms(Flatten(chunks[1..])) + [Complete];
      ChunkRun(p, chunks[0]);
      MessageEndOfBehind(p);
      ChunkedRoundTrip(q, chunks[1..]);
      Chain(p, EncodeChunk(chunks[0]), q, BodyAtoms(chunks[0]), Encode(chunks[1..]), MessageEnd(p), rest);
      assert BodyAtoms(chunks[0]) + rest == BodyAtoms(Flatten(chunks)) + [Complete];
    }
  }

  // ---- the Content-Length header -------------------------------------------------------------

  predicate IsDigit(ch: byte) {
    48 <= ch <= 57
  }

  /** `(ULLONG_MAX - 10) / 10`. */
  const MAX_BEFORE_DECIMAL: nat := 1844674407370955160
  const MAX_CONTENT: nat := 18446744073709551609

  /** The value of the digits, passing over the spaces among them. */
  function DecimalValue(s: seq<byte>): nat {
    if s == [] then 0
    else
      var ch, rest := s[|s| - 1], DecimalValue(s[..|s| - 1]);
      if IsDigit(ch) then rest * 10 + (ch - 48) else rest
  }

  predicate DigitsAndSpaces(s: seq<byte>) {
    forall i | 0 <= i < |s| :: IsDigit(s[i]) || s[i] == SPACE
  }

  /** The header value, byte by byte. */
  method ParseContentLength(value: seq<byte>) returns (res: Result<uint64>)
    requires value != []
    ensures res.Ok? <==> IsDigit(value[0]) && DigitsAndSpaces(value) && DecimalValue(value) <= MAX_CONTENT
    ensures res.Ok? ==> res.value == DecimalValue(value) < ULLONG_MAX
  {
    if !IsDigit(value[0]) {
      return Err(InvalidFormat);
    }
    var contentLength: uint64 := value[0] - 48;
    assert value[..1][..0] == [];
    assert DecimalValue(value[..1]) == value[0] - 48;
    for i := 1 to |value|
      invariant DigitsAndSpaces(value[..i])
      invariant contentLength == DecimalValue(value[..i]) <= MAX_CONTENT
    {
      var ch := value[i];
      assert value[..i + 1][..i] == value[..i];
      ValueGrows(value, i + 1);
      if ch == SPACE {
        continue;
      }
      if !IsDigit(ch) {
        return Err(InvalidFormat);
      }
      var t := Wrap(contentLength * 10 + (ch - 48));
      if MAX_BEFORE_DECIMAL < contentLength {
        return Err(InvalidFormat);
      }
      WrapSmall(contentLength * 10 + (ch - 48));
      contentLength := t;
    }
    assert value[..|value|] == value;
    return Ok(contentLength);
  }

  lemma {:induction false} ValueGrows(s: seq<byte>, n: nat)
    requires n <= |s|
    ensures DecimalValue(s[..n]) <= DecimalValue(s)
    decreases |s|
  {
    if n < |s| {
      assert s[..|s| - 1][..n] == s[..n];
      ValueGrows(s[..|s| - 1], n);
    } else {
      assert s[..n] == s;
    }
  }

  /** The decimal digits of a number have its value. */
  lemma {:induction false} ValueOfDecimal(n: nat)
    ensures DecimalValue(Decimal(n)) == n
    decreases n
  {
    var s := Decimal(n);
    if n < 10 {
      assert s[..0] == [];
    } else {
      assert s[..|s| - 1] == Decimal(n / 10);
      ValueOfDecimal(n / 10);
    }
  }
}
