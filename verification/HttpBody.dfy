/** The body states of the incremental HTTP parser, as a machine over single bytes. */
module HttpBody {
  import opened Common

  datatype Phase =
    | HeadersDone
    | ChunkSizeStart
    | ChunkSize
    | ChunkParameters
    | ChunkSizeAlmostDone
    | ChunkData
    | ChunkDataAlmostDone
    | ChunkDataDone
    | BodyIdentity
    | BodyIdentityEof
    | MessageDone
    | TrailerStart         // `s_header_field_start` behind the last chunk
    | TrailerAlmostDone    // `s_headers_almost_done` behind the last chunk
    | StartMessage         // the start state of the next message
    | Dead
    | Beyond               // a start line or a trailer field has begun; neither is modelled

  datatype HttpError =
    | HpeOk
    | HpeHeaderOverflow
    | HpeClosedConnection
    | HpeStrict
    | HpeInvalidChunkSize
    | HpeInvalidContentLength
    | HpeInvalidEofState

  const CR: byte := 13
  const LF: byte := 10
  const SPACE: byte := 32
  const SEMICOLON: byte := 59
  const MAX_HEADER_SIZE: nat := 80 * 1024
  const ULLONG_MAX: uint64 := 0xffff_ffff_ffff_ffff

  /** `(ULLONG_MAX - 16) / 16`: a longer length takes no further hexadecimal digit. */
  const MAX_BEFORE_DIGIT: uint64 := 0x0fff_ffff_ffff_fffe

  /** What the start line and the headers have said; the body states do not change it. */
  datatype Message = Message(
    isRequest: bool,
    httpMajor: nat,
    httpMinor: nat,
    statusCode: nat,
    isChunked: bool,
    keepAlive: bool,
    close: bool)

  /** The fields of the parser that the body states use. */
  datatype Parser = Parser(
    message: Message,
    phase: Phase,
    trailing: bool,
    nread: nat,
    contentLength: uint64,
    errno: HttpError)

  /** What the callbacks see, byte by byte. */
  datatype Atom = BodyByte(b: byte) | Complete

  predicate Live(p: Parser) {
    p.errno == HpeOk && p.phase != Beyond
  }

  /** `PARSING_HEADER`: the states whose bytes count towards the header limit. */
  predicate CountsAsHeader(phase: Phase) {
    || phase.HeadersDone? || phase.ChunkSizeStart? || phase.ChunkSize? || phase.ChunkParameters?
    || phase.ChunkSizeAlmostDone? || phase.TrailerStart? || phase.TrailerAlmostDone?
    || phase.StartMessage? || phase.Dead?
  }

  /** Unsigned 64-bit arithmetic. */
  function Wrap(n: int): uint64 {
    n % UINT64_LIMIT
  }

  /** Hexadecimal digits. The table of the source has entries for the first 128 bytes only; the
      others are zero. */
  function Unhex(ch: byte): int {
    if 48 <= ch <= 57 then ch - 48
    else if 65 <= ch <= 70 then ch - 55
    else if 97 <= ch <= 102 then ch - 87
    else if ch >= 128 then 0
    else -1
  }

  predicate MessageNeedsEof(m: Message, contentLength: uint64) {
    && !m.isRequest
    && !(m.statusCode / 100 == 1 || m.statusCode == 204 || m.statusCode == 304)
    && !(m.isChunked || contentLength != ULLONG_MAX)
  }

  predicate ShouldKeepAlive(m: Message, contentLength: uint64) {
    && (if m.httpMajor > 0 && m.httpMinor > 0 then !m.close else m.keepAlive)
    && !MessageNeedsEof(m, contentLength)
  }

  function NewMessage(p: Parser): Parser {
    p.(phase := if ShouldKeepAlive(p.message, p.contentLength) then StartMessage else Dead)
  }

  // ---- one byte ------------------------------------------------------------------------------

  datatype Outcome = Outcome(parser: Parser, atoms: seq<Atom>)

  function Fail(p: Parser, error: HttpError): Outcome {
    Outcome(p.(errno := error), [])
  }

  function Go(p: Parser, phase: Phase): Outcome {
    Outcome(p.(phase := phase), [])
  }

  function Finish(p: Parser): Outcome {
    Outcome(NewMessage(p), [Complete])
  }

  /** Counts a header byte, if the state is a header state. */
  function Counted(p: Parser): Parser {
    if CountsAsHeader(p.phase) then p.(nread := p.nread + 1) else p
  }

  predicate Overflows(p: Parser) {
    CountsAsHeader(p.phase) && p.nread > MAX_HEADER_SIZE
  }

  /** The two states in which a byte is executed for a second time. */
  predicate IsFinal(phase: Phase) {
    phase.MessageDone? || phase.TrailerAlmostDone?
  }

  function ActFinal(p: Parser, ch: byte): Outcome
    requires IsFinal(p.phase)
  {
    if p.phase.TrailerAlmostDone? && ch != LF then Fail(p, HpeStrict) else Finish(p)
  }

  /** The second execution counts the byte again. */
  function Reexecute(p: Parser, ch: byte): Outcome
    requires IsFinal(p.phase)
  {
    var q := Counted(p);
    if Overflows(q) then Fail(q, HpeHeaderOverflow) else ActFinal(q, ch)
  }

  /** What the state does with the byte, after the header bytes have been counted. */
  function Act(p: Parser, ch: byte): Outcome {
    match p.phase
    case MessageDone => ActFinal(p, ch)
    case TrailerAlmostDone => ActFinal(p, ch)
    case HeadersDone =>
      if ch != LF then Fail(p, HpeStrict)
      else
        var q := p.(nread := 0);
        if p.message.isChunked then Go(q, ChunkSizeStart)
        else if p.contentLength == 0 then Finish(q)
        else if p.contentLength != ULLONG_MAX then Go(q, BodyIdentity)
        else if p.message.isRequest || !MessageNeedsEof(p.message, p.contentLength) then Finish(q)
        else Go(q, BodyIdentityEof)
    case ChunkSizeStart =>
      if Unhex(ch) < 0 then Fail(p, HpeInvalidChunkSize)
      else Go(p.(contentLength := Unhex(ch)), ChunkSize)
    case ChunkSize =>
      if ch == CR then Go(p, ChunkSizeAlmostDone)
      else if Unhex(ch) < 0 then
        if ch == SEMICOLON || ch == SPACE then Go(p, ChunkParameters) else Fail(p, HpeInvalidChunkSize)
      else if MAX_BEFORE_DIGIT < p.contentLength then Fail(p, HpeInvalidContentLength)
      else Outcome(p.(contentLength := Wrap(p.contentLength * 16 + Unhex(ch))), [])
    case ChunkParameters =>
      if ch == CR then Go(p, ChunkSizeAlmostDone) else Outcome(p, [])
    case ChunkSizeAlmostDone =>
      if ch != LF then Fail(p, HpeStrict)
      else
        var q := p.(nread := 0);
        if p.contentLength == 0 then Go(q.(trailing := true), TrailerStart) else Go(q, ChunkData)
    case ChunkData =>
      var q := p.(contentLength := Wrap(p.contentLength - 1));
      Outcome(if q.contentLength == 0 then q.(phase := ChunkDataAlmostDone) else q, [BodyByte(ch)])
    case ChunkDataAlmostDone =>
      if ch != CR then Fail(p, HpeStrict) else Go(p, ChunkDataDone)
    case ChunkDataDone =>
      if ch != LF then Fail(p, HpeStrict) else Go(p.(nread := 0), ChunkSizeStart)
    case BodyIdentity =>
      var q := p.(contentLength := Wrap(p.contentLength - 1));
      if q.contentLength == 0 then
        var last := Reexecute(q.(phase := MessageDone), ch);
        Outcome(last.parser, [BodyByte(ch)] + last.atoms)
      else Outcome(q, [BodyByte(ch)])
    case BodyIdentityEof => Outcome(p, [BodyByte(ch)])
    case TrailerStart =>
      if ch == CR then Go(p, TrailerAlmostDone)
      else if ch == LF then Reexecute(p.(phase := TrailerAlmostDone), ch)
      else Go(p, Beyond)
    case StartMessage => Go(p, Beyond)
    case Dead => if ch == CR || ch == LF then Outcome(p, []) else Fail(p, HpeClosedConnection)
    case Beyond => Outcome(p, [])
  }

  function Step(p: Parser, ch: byte): Outcome {
    var q := Counted(p);
    if Overflows(q) then Fail(q, HpeHeaderOverflow) else Act(q, ch)
  }

  // ---- all bytes -----------------------------------------------------------------------------

  /** The parser, what the body callbacks should see, and how many bytes were taken: a byte that
      is in error, or that begins an unmodelled part, is not taken. */
  datatype Progress = Progress(parser: Parser, atoms: seq<Atom>, taken: nat)

  function Run(p: Parser, s: seq<byte>): (r: Progress)
    ensures r.taken <= |s|
  {
    if s == [] then Progress(p, [], 0)
    else
      var n := |s| - 1;
      var r := Run(p, s[..n]);
      if !Live(r.parser) then r else Next(r, s[n])
  }

  function Next(r: Progress, ch: byte): Progress {
    var o := Step(r.parser, ch);
    Progress(o.parser, r.atoms + o.atoms, if Live(o.parser) then r.taken + 1 else r.taken)
  }

  function Resumed(r: Progress, more: Progress): Progress {
    Progress(more.parser, r.atoms + more.atoms, r.taken + more.taken)
  }

  lemma {:induction false} DeadRun(p: Parser, s: seq<byte>)
    requires !Live(p)
    ensures Run(p, s) == Progress(p, [], 0)
  {
    if s != [] {
      DeadRun(p, s[..|s| - 1]);
    }
  }

  /** Feeding one part and then the other is feeding both together: the same state, flags, count
      of header bytes, remaining length and error, and the same body bytes and completions. */
  lemma {:induction false} RunConcat(p: Parser, a: seq<byte>, b: seq<byte>)
    ensures Run(p, a + b) == Resumed(Run(p, a), Run(Run(p, a).parser, b))
    decreases |b|
  {
    hide Step, Live;
    if b == [] {
      assert a + b == a;
    } else {
      var n := |b| - 1;
      assert (a + b)[..|a| + n] == a + b[..n] && (a + b)[|a| + n] == b[n];
      RunConcat(p, a, b[..n]);
      var q := Run(p, a).parser;
      var r := Run(q, b[..n]);
      if Live(r.parser) {
        assert Next(Resumed(Run(p, a), r), b[n]).atoms == Resumed(Run(p, a), Next(r, b[n])).atoms;
      }
    }
  }

  // ---- what every step keeps -----------------------------------------------------------------

  predicate InChunkSize(phase: Phase) {
    phase.ChunkSize? || phase.ChunkParameters? || phase.ChunkSizeAlmostDone?
  }

  predicate InChunks(phase: Phase) {
    || InChunkSize(phase) || phase.ChunkSizeStart? || phase.ChunkData? || phase.ChunkDataAlmostDone?
    || phase.ChunkDataDone? || phase.TrailerStart? || phase.TrailerAlmostDone?
  }

  /** The assertions of the source and the bounds behind them. */
  predicate Inv(p: Parser) {
    && (p.errno == HpeOk ==> p.nread <= MAX_HEADER_SIZE)
    && (InChunks(p.phase) ==> p.message.isChunked)
    && (p.phase == ChunkSizeStart ==> p.nread == 0 || p.errno != HpeOk)
    && (InChunkSize(p.phase) ==> p.contentLength <= ULLONG_MAX - 16)
    && (p.phase.ChunkData? || p.phase.BodyIdentity? ==> 0 < p.contentLength < ULLONG_MAX)
    && (p.phase.ChunkDataAlmostDone? || p.phase.MessageDone? ==> p.contentLength == 0)
    && (p.phase.TrailerStart? || p.phase.TrailerAlmostDone? ==> p.trailing)
  }

  lemma WrapSmall(n: int)
    requires 0 <= n < UINT64_LIMIT
    ensures Wrap(n) == n
  {
  }

  /** Reading the size of a chunk: it never wraps, and never reaches the sentinel. */
  lemma SizeKeepsInv(p: Parser, ch: byte)
    requires Live(p) && Inv(p) && p.phase.ChunkSize?
    ensures Inv(Step(p, ch).parser)
    ensures var q := Step(p, ch).parser; Live(q) && q.phase.ChunkSize? ==>
      q.contentLength == p.contentLength * 16 + Unhex(ch) <= ULLONG_MAX - 16
  {
    if p.contentLength <= MAX_BEFORE_DIGIT && Unhex(ch) >= 0 {
      WrapSmall(p.contentLength * 16 + Unhex(ch));
    }
    hide Wrap;
  }

  lemma BodyStepKeepsInv(p: Parser, ch: byte)
    requires Live(p) && Inv(p) && !CountsAsHeader(p.phase)
    ensures Inv(Step(p, ch).parser)
  {
    hide ShouldKeepAlive, Wrap;
    if p.phase.ChunkData? || p.phase.BodyIdentity? {
      WrapSmall(p.contentLength - 1);
    }
  }

  lemma HeaderStepKeepsInv(p: Parser, ch: byte)
    requires Live(p) && Inv(p) && CountsAsHeader(p.phase) && !p.phase.ChunkSize? && !p.phase.TrailerStart?
    ensures Inv(Step(p, ch).parser)
  {
    UnhexRange(ch);
    hide ShouldKeepAlive, Unhex, MessageNeedsEof, Wrap;
  }

  lemma TrailerStepKeepsInv(p: Parser, ch: byte)
    requires Live(p) && Inv(p) && p.phase.TrailerStart?
    ensures Inv(Step(p, ch).parser)
  {
    hide ShouldKeepAlive;
  }

  lemma StepKeepsInv(p: Parser, ch: byte)
    requires Live(p) && Inv(p)
    ensures Inv(Step(p, ch).parser)
  {
    hide Step, Inv;
    if p.phase.ChunkSize? {
      SizeKeepsInv(p, ch);
    } else if p.phase.TrailerStart? {
      TrailerStepKeepsInv(p, ch);
    } else if CountsAsHeader(p.phase) {
      HeaderStepKeepsInv(p, ch);
    } else {
      BodyStepKeepsInv(p, ch);
    }
  }

  lemma UnhexRange(ch: byte)
    ensures -1 <= Unhex(ch) <= 15
  {
  }

  /** A hexadecimal digit of RFC 2616. */
  predicate IsHexDigit(ch: byte) {
    48 <= ch <= 57 || 65 <= ch <= 70 || 97 <= ch <= 102
  }

  /** The table takes exactly the hexadecimal digits and every byte that it has no entry for; each
      of the latter as the digit 0. */
  lemma UnhexExact(ch: byte)
    ensures Unhex(ch) >= 0 <==> IsHexDigit(ch) || ch >= 128
    ensures ch >= 128 ==> Unhex(ch) == Unhex(48) == 0
  {
  }

  lemma {:induction false} RunKeepsInv(p: Parser, s: seq<byte>)
    requires Inv(p)
    ensures Inv(Run(p, s).parser)
  {
    hide Step, Inv, Live;
    if s != [] {
      var r := Run(p, s[..|s| - 1]);
      RunKeepsInv(p, s[..|s| - 1]);
      if Live(r.parser) {
        StepKeepsInv(r.parser, s[|s| - 1]);
      }
    }
  }

  // ---- the callbacks of one call -------------------------------------------------------------

  function BodyAtoms(s: seq<byte>): (r: seq<Atom>)
    ensures |r| == |s|
  {
    seq(|s|, i requires 0 <= i < |s| => BodyByte(s[i]))
  }

  /** How many bytes at the end of the data were taken as data of a chunk. */
  function Tail(p: Parser, s: seq<byte>): (n: nat)
    ensures n <= |s|
  {
    if s == [] then 0
    else
      var n := |s| - 1;
      var q := Run(p, s[..n]).parser;
      if Live(q) && q.phase.ChunkData? then Tail(p, s[..n]) + 1 else 0
  }

  /** The data of a chunk is followed by something other than a line end. */
  predicate BadTerminator(p: Parser) {
    p.errno == HpeStrict && p.phase.ChunkDataAlmostDone?
  }

  /** The bytes of a chunk are handed over with its line end or at the end of the call. A bad
      terminator in the same call ends it before that. */
  function Lost(p: Parser, s: seq<byte>): nat {
    var r := Run(p, s);
    if Live(p) && BadTerminator(r.parser) then Tail(p, s[..r.taken]) else 0
  }

  lemma FailsSilently(p: Parser, ch: byte)
    requires Live(p) && !Live(Step(p, ch).parser)
    ensures Step(p, ch).atoms == []
  {
    hide ShouldKeepAlive, Unhex, Wrap;
  }

  lemma {:induction false} TakenPrefix(p: Parser, s: seq<byte>)
    requires Live(p)
    ensures var r := Run(p, s);
      && (Live(r.parser) ==> r.taken == |s|)
      && Live(Run(p, s[..r.taken]).parser)
      && Run(p, s[..r.taken]).atoms == r.atoms
  {
    hide Step;
    if s != [] {
      var n := |s| - 1;
      var before := Run(p, s[..n]);
      TakenPrefix(p, s[..n]);
      assert s[..n][..before.taken] == s[..before.taken];
      if Live(before.parser) {
        if Live(Run(p, s).parser) {
          assert s[..|s|] == s;
        } else {
          FailsSilently(before.parser, s[n]);
          assert before.atoms + [] == before.atoms;
        }
      }
    }
  }

  lemma ChunkDataStep(p: Parser, ch: byte)
    requires Live(p) && p.phase.ChunkData?
    ensures Step(p, ch).atoms == [BodyByte(ch)] && Live(Step(p, ch).parser)
  {
  }

  /** The last atoms are the bytes behind position `from`. */
  predicate EndsWith(atoms: seq<Atom>, s: seq<byte>, from: nat) {
    from <= |s| && |s| - from <= |atoms| && atoms[|atoms| - (|s| - from)..] == BodyAtoms(s[from..])
  }

  lemma {:induction false} TailAtoms(p: Parser, s: seq<byte>)
    requires Live(Run(p, s).parser)
    ensures EndsWith(Run(p, s).atoms, s, |s| - Tail(p, s))
  {
    hide Step, EndsWith;
    if Tail(p, s) == 0 {
      EndsWithNothing(Run(p, s).atoms, s);
    } else {
      var n := |s| - 1;
      var before := Run(p, s[..n]);
      ChunkDataStep(before.parser, s[n]);
      TailAtoms(p, s[..n]);
      EndsWithMore(before.atoms, s[..n], n - Tail(p, s[..n]), s[n]);
      assert s[..n] + [s[n]] == s;
    }
  }

  lemma EndsWithNothing(atoms: seq<Atom>, s: seq<byte>)
    ensures EndsWith(atoms, s, |s|)
  {
    assert s[|s|..] == [];
  }

  lemma EndsWithMore(atoms: seq<Atom>, s: seq<byte>, from: nat, ch: byte)
    requires EndsWith(atoms, s, from)
    ensures EndsWith(atoms + [BodyByte(ch)], s + [ch], from)
  {
    var t := |s| - from;
    assert (atoms + [BodyByte(ch)])[|atoms| - t..] == atoms[|atoms| - t..] + [BodyByte(ch)];
    assert (s + [ch])[from..] == s[from..] + [ch];
    assert BodyAtoms(s[from..] + [ch]) == BodyAtoms(s[from..]) + [BodyByte(ch)];
  }

  /** What the callbacks of one call deliver. */
  function Delivered(p: Parser, s: seq<byte>): seq<Atom> {
    var atoms := Run(p, s).atoms;
    assert Lost(p, s) <= |atoms| by {
      LostAtoms(p, s);
    }
    atoms[..|atoms| - Lost(p, s)]
  }

  lemma LostAtoms(p: Parser, s: seq<byte>)
    ensures var r := Run(p, s); var n := Lost(p, s);
      n <= |r.atoms| && n <= r.taken && r.atoms[|r.atoms| - n..] == BodyAtoms(s[r.taken - n..r.taken])
  {
    hide Run, Tail;
    var r := Run(p, s);
    if Live(p) && BadTerminator(r.parser) {
      TakenPrefix(p, s);
      TailAtoms(p, s[..r.taken]);
      assert s[..r.taken][r.taken - Lost(p, s)..] == s[r.taken - Lost(p, s)..r.taken];
    }
  }

  /** Without an error nothing is lost: the callbacks see every body byte and every completion. */
  lemma NothingLost(p: Parser, s: seq<byte>)
    requires Run(p, s).parser.errno == HpeOk
    ensures Delivered(p, s) == Run(p, s).atoms
  {
    var atoms := Run(p, s).atoms;
    assert atoms[..|atoms|] == atoms;
  }

  lemma {:induction false} TailConcat(p: Parser, a: seq<byte>, b: seq<byte>)
    requires Live(p) && Live(Run(p, a).parser) && Live(Run(Run(p, a).parser, b).parser)
    ensures var q := Run(p, a).parser;
      Tail(p, a + b) == if Tail(q, b) == |b| then Tail(p, a) + |b| else Tail(q, b)
    decreases |b|
  {
    hide Step;
    if b == [] {
      assert a + b == a;
    } else {
      var n := |b| - 1;
      assert (a + b)[..|a| + n] == a + b[..n];
      RunConcat(p, a, b[..n]);
      LiveBefore(Run(p, a).parser, b);
      TailConcat(p, a, b[..n]);
    }
  }

  lemma LiveBefore(p: Parser, s: seq<byte>)
    requires s != [] && Live(Run(p, s).parser)
    ensures Live(Run(p, s[..|s| - 1]).parser)
  {
  }

  /** The bytes that a chunk still needs. */
  function ChunkRest(p: Parser): nat {
    if p.phase.ChunkData? then p.contentLength else 0
  }

  /** The split falls behind at least one byte of a chunk, and the byte behind the end of that
      chunk is in the second part and is no line end. */
  predicate SplitsBadChunk(p: Parser, a: seq<byte>, b: seq<byte>) {
    var q := Run(p, a).parser;
    && Live(q) && Tail(p, a) > 0
    && (q.phase.ChunkData? || q.phase.ChunkDataAlmostDone?)
    && ChunkRest(q) < |b| && b[ChunkRest(q)] != CR
  }

  /** What the second call makes of such a split: all that it takes is data of the chunk, and it
      ends at the bad terminator. */
  predicate EndsInBadChunk(q: Parser, b: seq<byte>) {
    var r := Run(q, b);
    Live(q) && BadTerminator(r.parser) && Tail(q, b[..r.taken]) == r.taken
  }

  lemma AlmostDoneStep(q: Parser, ch: byte)
    requires Live(q) && q.phase.ChunkDataAlmostDone?
    ensures ch != CR ==> Step(q, ch).parser == q.(errno := HpeStrict)
    ensures ch == CR ==> Live(Step(q, ch).parser)
  {
  }

  /** Only the state that expects the line end of a chunk fails in that state. */
  lemma BadStepIsTerminator(q: Parser, ch: byte)
    requires Live(q) && BadTerminator(Step(q, ch).parser)
    ensures q.phase.ChunkDataAlmostDone? && ch != CR
  {
    hide ShouldKeepAlive, Unhex, Wrap, MessageNeedsEof;
  }

  /** A failing run fails at the byte behind those that it takes. */
  lemma {:induction false} FailingByte(q: Parser, b: seq<byte>)
    requires Live(q) && !Live(Run(q, b).parser)
    ensures var t := Run(q, b).taken;
      t < |b| && Live(Run(q, b[..t]).parser) && Run(q, b).parser == Step(Run(q, b[..t]).parser, b[t]).parser
  {
    hide Step;
    var n := |b| - 1;
    var before := Run(q, b[..n]);
    if Live(before.parser) {
      TakenPrefix(q, b[..n]);
    } else {
      FailingByte(q, b[..n]);
      assert b[..n][..before.taken] == b[..before.taken];
    }
  }

  lemma TailNext(q: Parser, b: seq<byte>)
    requires b != [] && Tail(q, b) == |b|
    ensures var n := |b| - 1;
      Tail(q, b[..n]) == n && Live(Run(q, b[..n]).parser) && Run(q, b[..n]).parser.phase.ChunkData?
  {
    hide Run, Live;
  }

  /** If a whole part is data of one chunk, the parser was within the chunk before each byte. */
  lemma {:induction false} TailIsAll(q: Parser, b: seq<byte>, k: nat)
    requires Tail(q, b) == |b| && k < |b|
    ensures Live(Run(q, b[..k]).parser) && Run(q, b[..k]).parser.phase.ChunkData?
  {
    hide Run, Tail, Live;
    var n := |b| - 1;
    TailNext(q, b);
    if k < n {
      TailIsAll(q, b[..n], k);
      assert b[..n][..k] == b[..k];
    }
  }

  /** The bytes of a chunk and then a bad terminator, whatever follows. */
  lemma GuardEndsBadly(q: Parser, b: seq<byte>)
    requires Live(q) && Inv(q) && (q.phase.ChunkData? || q.phase.ChunkDataAlmostDone?)
    requires ChunkRest(q) < |b| && b[ChunkRest(q)] != CR
    ensures EndsInBadChunk(q, b) && Run(q, b).taken == ChunkRest(q)
  {
    hide Inv, Step, Run, Tail;
    var n := ChunkRest(q);
    var data, rest := b[..n], b[n + 1..];
    assert b == data + [b[n]] + rest;
    ChunkAlmostDone(q, data);
    var done := Run(q, data).parser;
    RunSnoc(q, data, b[n]);
    AlmostDoneStep(done, b[n]);
    RunConcat(q, data + [b[n]], rest);
    DeadRun(Run(q, data + [b[n]]).parser, rest);
  }

  /** Exactly the rest of a chunk. */
  lemma ChunkAlmostDone(q: Parser, data: seq<byte>)
    requires Live(q) && Inv(q) && (q.phase.ChunkData? || q.phase.ChunkDataAlmostDone?) && |data| == ChunkRest(q)
    ensures var r := Run(q, data);
      Live(r.parser) && r.parser.phase.ChunkDataAlmostDone? && r.taken == |data| && Tail(q, data) == |data|
  {
    hide Step;
    if q.phase.ChunkData? {
      ReadBody(q, data);
    } else {
      assert data == [];
    }
    hide Run, Tail;
  }

  lemma BadlyEndedGuard(q: Parser, b: seq<byte>)
    requires Live(q) && Inv(q) && EndsInBadChunk(q, b)
    ensures q.phase.ChunkData? || q.phase.ChunkDataAlmostDone?
    ensures ChunkRest(q) < |b| && b[ChunkRest(q)] != CR
  {
    hide Inv, Step, Run, Tail;
    var t := Run(q, b).taken;
    FailingByte(q, b);
    BadStepIsTerminator(Run(q, b[..t]).parser, b[t]);
    StartsInChunk(q, b[..t]);
    assert t == ChunkRest(q);
  }

  /** Data of one chunk up to its end is exactly the rest of that chunk. */
  lemma StartsInChunk(q: Parser, data: seq<byte>)
    requires Live(q) && Inv(q) && Tail(q, data) == |data| && Run(q, data).parser.phase.ChunkDataAlmostDone?
    ensures q.phase.ChunkData? || q.phase.ChunkDataAlmostDone?
    ensures |data| == ChunkRest(q)
  {
    hide Inv, Step;
    if data == [] {
    } else {
      TailIsAll(q, data, 0);
      assert Run(q, data[..0]).parser == q;
      var n := q.contentLength;
      if |data| < n {
        ReadBody(q, data);
      } else if n < |data| {
        ReadBody(q, data[..n]);
        TailIsAll(q, data, n);
      }
      hide Run, Tail;
    }
  }

  /** The guard says exactly when the second call ends in the chunk that the first has begun. */
  lemma GuardExact(p: Parser, a: seq<byte>, b: seq<byte>)
    requires Live(p) && Inv(p)
    ensures SplitsBadChunk(p, a, b) <==> Tail(p, a) > 0 && EndsInBadChunk(Run(p, a).parser, b)
  {
    hide Inv, Run, Tail, EndsInBadChunk;
    var q := Run(p, a).parser;
    RunKeepsInv(p, a);
    if SplitsBadChunk(p, a, b) {
      GuardEndsBadly(q, b);
    }
    if Live(q) && EndsInBadChunk(q, b) {
      BadlyEndedGuard(q, b);
    }
    EndsLive(q, b);
  }

  lemma EndsLive(q: Parser, b: seq<byte>)
    ensures EndsInBadChunk(q, b) ==> Live(q)
  {
  }

  /** Split invariance of what the callbacks deliver, exactly: two calls deliver what one call
      with all the bytes delivers, unless the split saves bytes of a chunk that ends badly. */
  lemma DeliveredSplit(p: Parser, a: seq<byte>, b: seq<byte>)
    requires Live(p) && Inv(p)
    ensures Delivered(p, a) + Delivered(Run(p, a).parser, b) == Delivered(p, a + b) <==> !SplitsBadChunk(p, a, b)
  {
    hide Run, Tail, Live, SplitsBadChunk, Lost, Inv, EndsInBadChunk;
    var q := Run(p, a).parser;
    RunConcat(p, a, b);
    LostSplit(p, a, b);
    GuardExact(p, a, b);
    LostAtoms(p, a);
    LostAtoms(q, b);
    LostAtoms(p, a + b);
    TrimConcat(Run(p, a).atoms, Run(q, b).atoms, Lost(p, a), Lost(q, b), Lost(p, a + b));
  }

  lemma RunSnoc(p: Parser, s: seq<byte>, ch: byte)
    requires Live(Run(p, s).parser)
    ensures Run(p, s + [ch]) == Next(Run(p, s), ch)
  {
    assert (s + [ch])[..|s|] == s;
  }

  /** A whole chunk and a bad terminator: one call loses the chunk, two calls deliver it. */
  lemma BadChunkLost(p: Parser, s: seq<byte>, ch: byte)
    requires Live(p) && Inv(p) && p.phase.ChunkData? && |s| == p.contentLength && ch != CR
    ensures Delivered(p, s) == BodyAtoms(s)
    ensures Delivered(p, s + [ch]) == [] && Run(p, s + [ch]).parser.errno == HpeStrict
  {
    hide Run, Tail, Inv;
    var q := Behind(p, |s|);
    ReadBody(p, s);
    assert BodyAtoms(s) + [] == BodyAtoms(s);
    RunSnoc(p, s, ch);
    NothingLost(p, s);
    assert (s + [ch])[..|s|] == s;
  }

  lemma TrimConcat<T>(a: seq<T>, b: seq<T>, m: nat, n: nat, k: nat)
    requires m <= |a| && n <= |b| && k <= |a| + |b| && (m == 0 || b == [])
    ensures a[..|a| - m] + b[..|b| - n] == (a + b)[..|a| + |b| - k] <==> k == m + n
  {
    assert |a[..|a| - m] + b[..|b| - n]| == |a| + |b| - m - n;
  }

  lemma LostSplit(p: Parser, a: seq<byte>, b: seq<byte>)
    requires Live(p)
    ensures var q := Run(p, a).parser;
      && Lost(p, a + b) == (if !Live(q) then Lost(p, a) else if EndsInBadChunk(q, b) then Tail(p, a) + Lost(q, b) else Lost(q, b))
      && (Live(q) ==> Lost(p, a) == 0)
      && (EndsInBadChunk(q, b) ==> Live(q))
      && (!Live(q) ==> Run(q, b).atoms == [] && Lost(q, b) == 0)
  {
    EndsLive(Run(p, a).parser, b);
    hide Run, Tail, Lost, EndsInBadChunk;
    if Live(Run(p, a).parser) {
      LostSplitLive(p, a, b);
    } else {
      LostSplitDead(p, a, b);
    }
  }

  lemma LostSplitLive(p: Parser, a: seq<byte>, b: seq<byte>)
    requires Live(p) && Live(Run(p, a).parser)
    ensures var q := Run(p, a).parser;
      && Lost(p, a + b) == (if EndsInBadChunk(q, b) then Tail(p, a) + Lost(q, b) else Lost(q, b))
      && Lost(p, a) == 0
  {
    hide Step, Run, Tail;
    var q := Run(p, a).parser;
    var r := Run(q, b);
    RunConcat(p, a, b);
    TakenPrefix(p, a);
    assert (a + b)[..|a| + r.taken] == a + b[..r.taken];
    TakenPrefix(q, b);
    TailConcat(p, a, b[..r.taken]);
  }

  lemma LostSplitDead(p: Parser, a: seq<byte>, b: seq<byte>)
    requires Live(p) && !Live(Run(p, a).parser)
    ensures var q := Run(p, a).parser;
      && Lost(p, a + b) == Lost(p, a) && Run(q, b).atoms == [] && Lost(q, b) == 0
  {
    hide Step, Run, Tail;
    var q := Run(p, a).parser;
    RunConcat(p, a, b);
    DeadRun(q, b);
    assert (a + b)[..Run(p, a).taken] == a[..Run(p, a).taken];
  }

  // ---- conservation --------------------------------------------------------------------------

  function Bodies(atoms: seq<Atom>): nat {
    if atoms == [] then 0 else Bodies(atoms[..|atoms| - 1]) + if atoms[|atoms| - 1].BodyByte? then 1 else 0
  }

  lemma {:induction false} BodiesConcat(a: seq<Atom>, b: seq<Atom>)
    ensures Bodies(a + b) == Bodies(a) + Bodies(b)
  {
    if b == [] {
      assert a + b == a;
    } else {
      assert (a + b)[..|a + b| - 1] == a + b[..|b| - 1];
      BodiesConcat(a, b[..|b| - 1]);
    }
  }

  predicate HasLength(phase: Phase) {
    phase.BodyIdentity? || phase.ChunkData?
  }

  /** The bytes that are still to come. */
  function Remaining(p: Parser): nat {
    if HasLength(p.phase) then p.contentLength else 0
  }

  /** The length that a step declares by entering a body or a chunk. */
  function Opened(before: Parser, after: Parser): nat {
    if !HasLength(before.phase) && HasLength(after.phase) then after.contentLength else 0
  }

  function Declared(p: Parser, s: seq<byte>): nat {
    if s == [] then 0
    else
      var n := |s| - 1;
      var q := Run(p, s[..n]).parser;
      Declared(p, s[..n]) + if Live(q) then Opened(q, Step(q, s[n]).parser) else 0
  }

  lemma StepConserves(p: Parser, ch: byte)
    requires Live(p) && Inv(p) && !p.phase.BodyIdentityEof?
    ensures var o := Step(p, ch);
      Bodies(o.atoms) + Remaining(o.parser) == Remaining(p) + Opened(p, o.parser)
  {
    BodiesOfOne(ch);
    if HasLength(p.phase) {
      StepInBody(p, ch);
    } else {
      StepOutsideBody(p, ch);
    }
    hide Step, ShouldKeepAlive, Bodies;
  }

  lemma BodiesOfOne(ch: byte)
    ensures Bodies([]) == 0 && Bodies([Complete]) == 0
    ensures Bodies([BodyByte(ch)] + []) == 1 && Bodies([BodyByte(ch)] + [Complete]) == 1
  {
    assert Bodies([BodyByte(ch)]) == 1;
    BodiesConcat([BodyByte(ch)], []);
    BodiesConcat([BodyByte(ch)], [Complete]);
  }

  lemma StepOutsideBody(p: Parser, ch: byte)
    requires Live(p) && !HasLength(p.phase) && !p.phase.BodyIdentityEof?
    ensures Step(p, ch).atoms in {[], [Complete]}
  {
    hide ShouldKeepAlive, Unhex, Wrap;
  }

  lemma EofStays(p: Parser, ch: byte)
    requires Live(p) && p.phase.BodyIdentityEof?
    ensures Step(p, ch).parser.phase.BodyIdentityEof?
  {
  }

  /** Delivered plus remaining equals declared: over any input, as long as the body is not one
      that only the end of the connection ends. */
  lemma {:induction false} BodyConserved(p: Parser, s: seq<byte>)
    requires Inv(p) && !Run(p, s).parser.phase.BodyIdentityEof?
    ensures Bodies(Run(p, s).atoms) + Remaining(Run(p, s).parser) == Remaining(p) + Declared(p, s)
  {
    hide Step, Inv, Remaining, Opened;
    if s != [] {
      var n := |s| - 1;
      var q := Run(p, s[..n]).parser;
      RunKeepsInv(p, s[..n]);
      if Live(q) {
        if q.phase.BodyIdentityEof? {
          EofStays(q, s[n]);
        }
        StepConserves(q, s[n]);
        BodiesConcat(Run(p, s[..n]).atoms, Step(q, s[n]).atoms);
      }
      BodyConserved(p, s[..n]);
    }
  }

  // ---- bulk reading --------------------------------------------------------------------------

  /** The parser behind k bytes of a body of known length, k not more than that length. */
  function Behind(p: Parser, k: nat): Parser
    requires HasLength(p.phase) && k <= p.contentLength
  {
    var q := p.(contentLength := p.contentLength - k);
    if q.contentLength > 0 then q
    else if p.phase.ChunkData? then q.(phase := ChunkDataAlmostDone)
    else NewMessage(q)
  }

  /** Reading k bytes of such a body: they are delivered as they are, and a whole identity body
      completes the message. */
  lemma {:induction false} ReadBody(p: Parser, s: seq<byte>)
    requires Live(p) && Inv(p) && HasLength(p.phase) && |s| <= p.contentLength
    ensures var done := p.phase.BodyIdentity? && |s| == p.contentLength;
      Run(p, s) == Progress(Behind(p, |s|), BodyAtoms(s) + if done then [Complete] else [], |s|)
    ensures p.phase.ChunkData? ==> Tail(p, s) == |s|
    decreases |s|
  {
    hide Inv, Step;
    LengthInRange(p);
    if s == [] {
      assert BodyAtoms(s) + [] == [];
    } else {
      var n := |s| - 1;
      ReadBody(p, s[..n]);
      StepInBody(Behind(p, n), s[n]);
      assert Behind(Behind(p, n), 1) == Behind(p, n + 1);
      assert BodyAtoms(s) == BodyAtoms(s[..n]) + [BodyByte(s[n])];
      assert BodyAtoms(s[..n]) + [] == BodyAtoms(s[..n]);
    }
  }

  lemma LengthInRange(p: Parser)
    requires Inv(p) && HasLength(p.phase)
    ensures 0 < p.contentLength < ULLONG_MAX
  {
  }

  lemma StepInBody(p: Parser, ch: byte)
    requires Live(p) && HasLength(p.phase) && p.contentLength > 0
    ensures var last := p.phase.BodyIdentity? && p.contentLength == 1;
      Step(p, ch) == Outcome(Behind(p, 1), [BodyByte(ch)] + if last then [Complete] else [])
    ensures Live(Behind(p, 1))
  {
    WrapSmall(p.contentLength - 1);
    hide ShouldKeepAlive, Wrap;
    assert [BodyByte(ch)] + [] == [BodyByte(ch)];
  }
}
