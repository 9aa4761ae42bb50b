/** How the body of a message is delimited, from the line feed that ends its headers on. */
module HttpFraming {
  import opened Common
  import opened HttpBody
  import opened HttpChunks

  /** The parser is at the line feed that ends the headers. */
  predicate AtHeadersEnd(p: Parser) {
    p.errno == HpeOk && p.phase.HeadersDone? && p.nread < MAX_HEADER_SIZE
  }

  /** Where the message leaves the connection: behind HTTP/1.1 and later it is kept unless it is to
      be closed, and behind an earlier version it is closed unless it is to be kept. */
  function NextStart(m: Message): Phase {
    if m.httpMajor > 0 && m.httpMinor > 0 then (if m.close then Dead else StartMessage)
    else (if m.keepAlive then StartMessage else Dead)
  }

  /** Responses of these statuses have no body, whatever their headers say. */
  predicate NeverHasBody(m: Message) {
    m.isRequest || 100 <= m.statusCode < 200 || m.statusCode == 204 || m.statusCode == 304
  }

  lemma InBehindHeaders(p: Parser)
    requires AtHeadersEnd(p)
    ensures Live(p) && Inv(p)
  {
  }

  /** Chunks come whatever the content length is. */
  lemma ChunksFollow(p: Parser)
    requires AtHeadersEnd(p) && p.message.isChunked
    ensures Run(p, [LF]) == Progress(p.(phase := ChunkSizeStart, nread := 0), [], 1)
  {
    RunOne(p, LF);
    hide Run, ShouldKeepAlive, MessageNeedsEof;
  }

  /** A chunked body, of whatever chunks, from the end of the headers to the next message. */
  lemma ChunkedBody(p: Parser, chunks: seq<seq<byte>>)
    requires AtHeadersEnd(p) && p.message.isChunked && GoodChunks(chunks)
    ensures var r := Run(p, [LF] + Encode(chunks));
      && r.atoms == BodyAtoms(Flatten(chunks)) + [Complete] && r.taken == 1 + |Encode(chunks)|
      && r.parser.errno == HpeOk && r.parser.phase == NextStart(p.message)
  {
    ChunksFollow(p);
    var q := p.(phase := ChunkSizeStart, nread := 0);
    RunConcat(p, [LF], Encode(chunks));
    ChunkedRoundTrip(q, chunks);
    hide Run, Encode;
    assert [] + (BodyAtoms(Flatten(chunks)) + [Complete]) == BodyAtoms(Flatten(chunks)) + [Complete];
  }

  lemma LengthFollows(p: Parser)
    requires AtHeadersEnd(p) && !p.message.isChunked && 0 < p.contentLength < ULLONG_MAX
    ensures Run(p, [LF]) == Progress(p.(phase := BodyIdentity, nread := 0), [], 1)
  {
    RunOne(p, LF);
    hide Run, ShouldKeepAlive, MessageNeedsEof;
  }

  lemma BehindBody(p: Parser, n: nat)
    requires p.phase.BodyIdentity? && n <= p.contentLength < ULLONG_MAX
    ensures Behind(p, n) ==
      if n < p.contentLength then p.(contentLength := p.contentLength - n)
      else p.(phase := NextStart(p.message), contentLength := 0)
  {
  }

  /** A positive length: exactly as many bytes are delivered as they are, and the last of them
      completes the message. */
  lemma BodyOfLength(p: Parser, body: seq<byte>)
    requires AtHeadersEnd(p) && !p.message.isChunked
    requires |body| <= p.contentLength && 0 < p.contentLength < ULLONG_MAX
    ensures Run(p, [LF] + body) ==
      if |body| < p.contentLength then
        Progress(p.(phase := BodyIdentity, nread := 0, contentLength := p.contentLength - |body|), BodyAtoms(body), 1 + |body|)
      else
        Progress(p.(phase := NextStart(p.message), nread := 0, contentLength := 0), BodyAtoms(body) + [Complete], 1 + |body|)
  {
    LengthFollows(p);
    var q := p.(phase := BodyIdentity, nread := 0);
    RunConcat(p, [LF], body);
    ReadBody(q, body);
    BehindBody(q, |body|);
    hide Run, Behind, NextStart;
    assert [] + BodyAtoms(body) == BodyAtoms(body) == BodyAtoms(body) + [];
    assert [] + (BodyAtoms(body) + [Complete]) == BodyAtoms(body) + [Complete];
  }

  /** The length 0 completes the message at once. */
  lemma EmptyBody(p: Parser)
    requires AtHeadersEnd(p) && !p.message.isChunked && p.contentLength == 0
    ensures Run(p, [LF]) == Progress(p.(phase := NextStart(p.message), nread := 0), [Complete], 1)
  {
    RunOne(p, LF);
    hide Run;
  }

  /** Without a length, requests and responses that never have a body are complete at once. */
  lemma NoBody(p: Parser)
    requires AtHeadersEnd(p) && !p.message.isChunked && p.contentLength == ULLONG_MAX && NeverHasBody(p.message)
    ensures Run(p, [LF]) == Progress(p.(phase := NextStart(p.message), nread := 0), [Complete], 1)
  {
    RunOne(p, LF);
    hide Run;
  }

  lemma EndFollows(p: Parser)
    requires AtHeadersEnd(p) && !p.message.isChunked && p.contentLength == ULLONG_MAX && !NeverHasBody(p.message)
    ensures Run(p, [LF]) == Progress(p.(phase := BodyIdentityEof, nread := 0), [], 1)
  {
    RunOne(p, LF);
    hide Run, ShouldKeepAlive;
  }

  lemma {:induction false} TakesAll(p: Parser, s: seq<byte>)
    requires Live(p) && p.phase.BodyIdentityEof?
    ensures Run(p, s) == Progress(p, BodyAtoms(s), |s|)
    decreases |s|
  {
    if s == [] {
      assert BodyAtoms(s) == [];
    } else {
      var n := |s| - 1;
      TakesAll(p, s[..n]);
      assert Step(p, s[n]) == Outcome(p, [BodyByte(s[n])]);
      assert BodyAtoms(s) == BodyAtoms(s[..n]) + [BodyByte(s[n])];
      hide Step;
    }
  }

  /** Without a length, any other response takes every byte until the connection ends, and is not
      complete before. */
  lemma BodyToTheEnd(p: Parser, s: seq<byte>)
    requires AtHeadersEnd(p) && !p.message.isChunked && p.contentLength == ULLONG_MAX && !NeverHasBody(p.message)
    ensures Run(p, [LF] + s) == Progress(p.(phase := BodyIdentityEof, nread := 0), BodyAtoms(s), 1 + |s|)
  {
    EndFollows(p);
    RunConcat(p, [LF], s);
    TakesAll(p.(phase := BodyIdentityEof, nread := 0), s);
    hide Run;
    assert [] + BodyAtoms(s) == BodyAtoms(s);
  }

  /** A closed connection takes no byte of another message. */
  lemma ClosedConnection(p: Parser, ch: byte)
    requires p.errno == HpeOk && p.phase.Dead? && p.nread < MAX_HEADER_SIZE
    ensures var q := Run(p, [ch]).parser;
      if ch == CR || ch == LF then q == p.(nread := p.nread + 1) else q.errno == HpeClosedConnection
  {
    RunOne(p, ch);
    hide Run;
  }

  // ---- chunk extensions ----------------------------------------------------------------------

  lemma {:induction false} ParametersSkipped(p: Parser, s: seq<byte>)
    requires Live(p) && p.phase.ChunkParameters? && p.nread <= MAX_HEADER_SIZE && CR !in s
    ensures var r := Run(p, s);
      if p.nread + |s| <= MAX_HEADER_SIZE then r == Progress(p.(nread := p.nread + |s|), [], |s|)
      else r.parser.errno == HpeHeaderOverflow && r.atoms == []
    decreases |s|
  {
    hide Step;
    if s != [] {
      var n := |s| - 1;
      assert s[n] in s;
      ParametersSkipped(p, s[..n]);
      if p.nread + n <= MAX_HEADER_SIZE {
        var q := p.(nread := p.nread + n);
        ParameterStep(q, s[n]);
        assert Run(p, s) == Next(Progress(q, [], n), s[n]);
        hide Run;
      }
    }
  }

  lemma ParameterStep(p: Parser, ch: byte)
    requires Live(p) && p.phase.ChunkParameters? && p.nread <= MAX_HEADER_SIZE && ch != CR
    ensures var q := p.(nread := p.nread + 1);
      Step(p, ch) == if q.nread <= MAX_HEADER_SIZE then Outcome(q, []) else Outcome(q.(errno := HpeHeaderOverflow), [])
  {
  }

  lemma ParametersBegin(p: Parser, ch: byte)
    requires Live(p) && p.phase.ChunkSize? && p.nread < MAX_HEADER_SIZE && (ch == SEMICOLON || ch == SPACE)
    ensures Run(p, [ch]) == Progress(p.(phase := ChunkParameters, nread := p.nread + 1), [], 1)
  {
    RunOne(p, ch);
    hide Run;
  }

  lemma ParametersEnd(p: Parser)
    requires Live(p) && p.phase.ChunkParameters? && p.contentLength <= MAX_CHUNK && p.nread + 2 <= MAX_HEADER_SIZE
    ensures Run(p, [CR, LF]) == Progress(BehindSize(p, p.contentLength), [], 2)
  {
    var mid := p.(nread := p.nread + 1, phase := ChunkSizeAlmostDone);
    TwoSteps(p, CR, LF, mid, Outcome(BehindSize(p, p.contentLength), []));
  }

  lemma LineEndOverflows(p: Parser)
    requires Live(p) && p.phase.ChunkParameters? && MAX_HEADER_SIZE - 1 <= p.nread <= MAX_HEADER_SIZE
    ensures Run(p, [CR, LF]).parser.errno == HpeHeaderOverflow
  {
    RunOne(p, CR);
    RunConcat(p, [CR], [LF]);
    assert [CR] + [LF] == [CR, LF];
    var q := Run(p, [CR]).parser;
    if Live(q) {
      RunOne(q, LF);
    } else {
      DeadRun(q, [LF]);
    }
    hide Run;
  }

  /** A size with an extension, which begins with a semicolon or a blank, is the size without it, as
      long as the line stays within the limit for headers; a longer line is refused. */
  lemma ExtensionIgnored(p: Parser, n: nat, mark: byte, rest: seq<byte>)
    requires Live(p) && Inv(p) && p.phase.ChunkSizeStart? && n <= MAX_CHUNK
    requires (mark == SEMICOLON || mark == SPACE) && CR !in rest
    ensures var line := HexDigits(n) + [mark] + rest + [CR, LF];
      if |line| <= 81920 then
        Run(p, line) == Progress(Run(p, SizeLine(n)).parser, [], |line|)
      else Run(p, line).parser.errno == HpeHeaderOverflow
  {
    hide Run, Step, Inv;
    var digits := HexDigits(n);
    ValueOfDigits(n);
    SizesAreShort(n);
    SizeExact(p, digits);
    SizeLineRun(p, n);
    var q := Sized(p, digits);
    ParametersBegin(q, mark);
    var r := q.(phase := ChunkParameters, nread := |digits| + 1);
    Chain(p, digits, q, [], [mark], r, []);
    ParametersSkipped(r, rest);
    NoAtoms();
    var line := digits + [mark] + rest + [CR, LF];
    if |line| <= MAX_HEADER_SIZE {
      var t := r.(nread := r.nread + |rest|);
      Chain(p, digits + [mark], r, [], rest, t, []);
      ParametersEnd(t);
      Chain(p, digits + [mark] + rest, t, [], [CR, LF], BehindSize(t, n), []);
    } else {
      RunConcat(p, digits + [mark], rest);
      var t := Run(p, digits + [mark] + rest).parser;
      RunConcat(p, digits + [mark] + rest, [CR, LF]);
      if t.errno == HpeOk {
        LineEndOverflows(t);
      } else {
        DeadRun(t, [CR, LF]);
      }
    }
  }

  // ---- line ends -----------------------------------------------------------------------------

  /** The errors of the states that expect one byte, and of a size that is none. */
  lemma WrongByte(p: Parser, ch: byte)
    requires Live(p) && Inv(p) && p.nread < MAX_HEADER_SIZE
    ensures var q := Run(p, [ch]).parser;
      && (p.phase.HeadersDone? || p.phase.ChunkSizeAlmostDone? || p.phase.ChunkDataDone? ==> (q.errno == HpeStrict <==> ch != LF))
      && (p.phase.ChunkDataAlmostDone? ==> (q.errno == HpeStrict <==> ch != CR))
      && (p.phase.ChunkSizeStart? && !IsHexDigit(ch) && ch < 128 ==> q.errno == HpeInvalidChunkSize)
      && (p.phase.ChunkSize? && !IsHexDigit(ch) && ch < 128 && ch != CR ==>
            if ch == SEMICOLON || ch == SPACE then q.errno == HpeOk && q.phase == ChunkParameters else q.errno == HpeInvalidChunkSize)
      && (p.phase.ChunkSize? && IsHexDigit(ch) ==>
            (q.errno == HpeInvalidContentLength <==> p.contentLength * 16 + 15 > ULLONG_MAX - 16))
  {
    RunOne(p, ch);
    hide Run, ShouldKeepAlive, MessageNeedsEof;
  }
}
