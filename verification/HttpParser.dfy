/** The parsing loop over a buffer: bulk reading, marks, and bytes that are executed twice. */
module HttpParser {
  import opened Common
  import opened HttpBody

  /** One call of a callback. */
  datatype Call = OnBody(bytes: seq<byte>) | OnMessageComplete

  function AtomsOf(calls: seq<Call>): seq<Atom> {
    if calls == [] then []
    else AtomsOf(calls[..|calls| - 1]) + match calls[|calls| - 1] { case OnBody(bytes) => BodyAtoms(bytes) case OnMessageComplete => [Complete] }
  }

  lemma {:induction false} AtomsOfMore(calls: seq<Call>, call: Call)
    ensures AtomsOf(calls + [call]) == AtomsOf(calls) + match call { case OnBody(bytes) => BodyAtoms(bytes) case OnMessageComplete => [Complete] }
  {
    assert (calls + [call])[..|calls|] == calls;
  }

  /** The bytes behind a mark; -1 stands for no mark. */
  function Marked(data: seq<byte>, mark: int, end: int): seq<Atom>
    requires 0 <= mark ==> mark <= end <= |data|
  {
    if mark < 0 then [] else BodyAtoms(data[mark..end])
  }

  /** Where the loop is: the bytes before i are done, or byte i is to be executed once more. */
  predicate Here(p: Parser, data: seq<byte>, i: nat, now: Parser, atoms: seq<Atom>, again: bool)
    requires i <= |data|
  {
    if again then
      && i < |data| && IsFinal(now.phase)
      && Run(p, data[..i + 1]) == After(Reexecute(now, data[i]), atoms, i)
    else Run(p, data[..i]) == Progress(now, atoms, i)
  }

  /** The progress when the outcome of byte i is added. */
  function After(o: Outcome, atoms: seq<Atom>, i: nat): Progress {
    Progress(o.parser, atoms + o.atoms, if Live(o.parser) then i + 1 else i)
  }

  lemma OneByte(p: Parser, data: seq<byte>, i: nat, now: Parser, atoms: seq<Atom>)
    requires i < |data| && Live(now) && Here(p, data, i, now, atoms, false)
    ensures Run(p, data[..i + 1]) == After(Step(now, data[i]), atoms, i)
  {
    assert data[..i + 1][..i] == data[..i];
  }

  /** Bytes of a body of known length, taken at once. */
  lemma ManyBytes(p: Parser, data: seq<byte>, i: nat, now: Parser, atoms: seq<Atom>, k: nat)
    requires i + k <= |data| && Live(p) && Live(now) && Inv(now) && HasLength(now.phase) && 0 < k <= now.contentLength
    requires Here(p, data, i, now, atoms, false)
    ensures var q := now.(contentLength := now.contentLength - k);
      var read := atoms + BodyAtoms(data[i..i + k]);
      if q.contentLength > 0 then Here(p, data, i + k, q, read, false)
      else if now.phase.ChunkData? then Here(p, data, i + k, q.(phase := ChunkDataAlmostDone), read, false)
      else Here(p, data, i + k - 1, q.(phase := MessageDone), read, true)
    ensures now.phase.ChunkData? ==> Tail(p, data[..i + k]) == Tail(p, data[..i]) + k
  {
    hide Run, Tail, Step, Inv, ShouldKeepAlive;
    var part := data[i..i + k];
    assert data[..i + k] == data[..i] + part;
    RunConcat(p, data[..i], part);
    ReadBody(now, part);
    if now.phase.ChunkData? {
      TailConcat(p, data[..i], part);
    }
    assert atoms + BodyAtoms(part) + [Complete] == atoms + (BodyAtoms(part) + [Complete]);
    assert BodyAtoms(part) + [] == BodyAtoms(part);
  }

  lemma ReadKeepsInv(now: Parser, k: nat)
    requires Live(now) && Inv(now) && HasLength(now.phase) && k <= now.contentLength
    ensures var q := now.(contentLength := now.contentLength - k);
      if q.contentLength > 0 then Inv(q)
      else Inv(q.(phase := if now.phase.ChunkData? then ChunkDataAlmostDone else MessageDone))
  {
  }

  /** The run ends at byte i. */
  lemma StopsAt(p: Parser, data: seq<byte>, i: nat)
    requires i < |data| && Live(p) && !Live(Run(p, data[..i + 1]).parser) && Run(p, data[..i + 1]).taken == i
    ensures Run(p, data) == Run(p, data[..i + 1])
    ensures Lost(p, data) == if BadTerminator(Run(p, data).parser) then Tail(p, data[..i]) else 0
  {
    hide Run, Tail;
    var r := Run(p, data[..i + 1]);
    assert data == data[..i + 1] + data[i + 1..];
    RunConcat(p, data[..i + 1], data[i + 1..]);
    DeadRun(r.parser, data[i + 1..]);
    assert r.atoms + [] == r.atoms;
  }

  /** The mark that is set when none was set before. */
  function MarkOf(mark: int, i: nat): int {
    if mark < 0 then i else mark
  }

  lemma MarkedMore(data: seq<byte>, mark: int, i: nat, k: nat, seen: seq<Atom>)
    requires mark <= i && i + k <= |data|
    ensures seen + Marked(data, MarkOf(mark, i), i + k) == seen + Marked(data, mark, i) + BodyAtoms(data[i..i + k])
  {
    if mark >= 0 {
      assert data[mark..i + k] == data[mark..i] + data[i..i + k];
      BodyAtomsConcat(data[mark..i], data[i..i + k]);
      hide BodyAtoms;
      assert seen + (Marked(data, mark, i) + BodyAtoms(data[i..i + k])) == seen + Marked(data, mark, i) + BodyAtoms(data[i..i + k]);
    } else {
      assert seen + [] == seen;
    }
  }

  lemma BodyAtomsConcat(a: seq<byte>, b: seq<byte>)
    ensures BodyAtoms(a + b) == BodyAtoms(a) + BodyAtoms(b)
  {
  }

  lemma EofStep(p: Parser, ch: byte)
    requires Live(p) && p.phase.BodyIdentityEof?
    ensures Step(p, ch) == Outcome(p, [BodyByte(ch)])
  {
  }

  lemma BodyAtomsMore(s: seq<byte>, ch: byte)
    ensures BodyAtoms(s) + [BodyByte(ch)] == BodyAtoms(s + [ch])
  {
  }

  lemma {:induction false} ReadToEof(p: Parser, s: seq<byte>)
    requires Live(p) && p.phase.BodyIdentityEof?
    ensures Run(p, s) == Progress(p, BodyAtoms(s), |s|)
  {
    hide Step, BodyAtoms;
    if s == [] {
      assert BodyAtoms(s) == [];
    } else {
      var n := |s| - 1;
      ReadToEof(p, s[..n]);
      EofStep(p, s[n]);
      BodyAtomsMore(s[..n], s[n]);
      assert s[..n] + [s[n]] == s;
    }
  }

  /** All bytes that are left, in a body that only the end of the connection ends. */
  lemma AllBytes(p: Parser, data: seq<byte>, i: nat, now: Parser, atoms: seq<Atom>)
    requires i <= |data| && Live(now) && now.phase.BodyIdentityEof? && Here(p, data, i, now, atoms, false)
    ensures Here(p, data, |data|, now, atoms + BodyAtoms(data[i..|data|]), false)
  {
    hide Run;
    assert data[..|data|] == data[..i] + data[i..|data|];
    RunConcat(p, data[..i], data[i..|data|]);
    ReadToEof(now, data[i..|data|]);
  }

  /** The line end of a chunk. */
  lemma ChunkEnds(p: Parser, data: seq<byte>, i: nat, now: Parser, atoms: seq<Atom>)
    requires i < |data| && Live(p) && Live(now) && now.phase.ChunkDataAlmostDone? && Here(p, data, i, now, atoms, false)
    ensures data[i] == CR ==> Here(p, data, i + 1, now.(phase := ChunkDataDone), atoms, false)
    ensures data[i] != CR ==>
      && Run(p, data) == Progress(now.(errno := HpeStrict), atoms, i)
      && Lost(p, data) == Tail(p, data[..i])
  {
    OneByte(p, data, i, now, atoms);
    assert atoms + [] == atoms;
    if data[i] != CR {
      StopsAt(p, data, i);
    }
  }

  lemma ChunkEndKeepsInv(now: Parser)
    requires Inv(now) && now.phase.ChunkDataAlmostDone?
    ensures Inv(now.(phase := ChunkDataDone))
  {
  }

  /** A byte that is only half done. */
  lemma AgainHere(p: Parser, data: seq<byte>, i: nat, was: Parser, now: Parser, atoms: seq<Atom>, wasAgain: bool)
    requires i < |data| && Live(was) && Here(p, data, i, was, atoms, wasAgain) && Rank(now.phase) < Rank(was.phase)
    requires IsFinal(now.phase) && Step(was, data[i]) == Reexecute(now, data[i])
    ensures Here(p, data, i, now, atoms + [], true)
  {
    assert atoms + [] == atoms;
    if !wasAgain {
      OneByte(p, data, i, was, atoms);
    }
  }

  /** Any other byte. */
  lemma ByteDone(p: Parser, data: seq<byte>, i: nat, now: Parser, atoms: seq<Atom>, again: bool)
    requires i < |data| && Live(p) && Live(now) && Here(p, data, i, now, atoms, again)
    requires !HasLength(now.phase) && !now.phase.ChunkDataAlmostDone?
    ensures var o := Step(now, data[i]);
      if Live(o.parser) then
        && Here(p, data, i + 1, o.parser, atoms + o.atoms, false)
        && (o.parser.phase.ChunkData? ==> !again && Tail(p, data[..i + 1]) == 0)
        && !o.parser.phase.ChunkDataAlmostDone?
      else
        && Run(p, data) == Progress(o.parser, atoms + o.atoms, i)
        && Lost(p, data) == 0
  {
    if !again {
      OneByte(p, data, i, now, atoms);
      TailEnds(p, data, i, now, atoms);
    } else {
      FinalStep(now, data[i]);
    }
    NoChunkEnd(now, data[i]);
    if !Live(Step(now, data[i]).parser) {
      StopsAt(p, data, i);
    }
  }

  lemma NoChunkEnd(now: Parser, ch: byte)
    requires Live(now) && !HasLength(now.phase) && !now.phase.ChunkDataAlmostDone?
    ensures !Step(now, ch).parser.phase.ChunkDataAlmostDone?
  {
  }

  lemma FinalStep(now: Parser, ch: byte)
    requires IsFinal(now.phase)
    ensures Step(now, ch) == Reexecute(now, ch)
    ensures Live(Step(now, ch).parser) ==> !Step(now, ch).parser.phase.ChunkData?
  {
  }

  /** The marked bytes are what a bad chunk end loses. */
  lemma DeliveredBeforeMark(p: Parser, data: seq<byte>, seen: seq<Atom>, mark: int, i: nat)
    requires mark <= i <= |data| && Run(p, data).atoms == seen + Marked(data, mark, i)
    requires Lost(p, data) == if mark < 0 then 0 else i - mark
    ensures Delivered(p, data) == seen
  {
    hide Run, Lost;
    assert |Marked(data, mark, i)| == Lost(p, data);
    assert (seen + Marked(data, mark, i))[..|seen|] == seen;
  }

  lemma TailEnds(p: Parser, data: seq<byte>, i: nat, now: Parser, atoms: seq<Atom>)
    requires i < |data| && Here(p, data, i, now, atoms, false) && !now.phase.ChunkData?
    ensures Tail(p, data[..i + 1]) == 0
  {
    assert data[..i + 1][..i] == data[..i];
  }

  /** A byte that is executed again leads to a state of lower rank. */
  function Rank(phase: Phase): nat {
    if phase.BodyIdentity? || phase.TrailerStart? then 1 else 0
  }

  datatype Action = Advance | Again | Stop

  /** The action carries out the outcome of a byte, or is half-way through it. */
  predicate Performed(o: Outcome, ch: byte, rank: nat, action: Action, after: Parser, was: seq<Atom>, atoms: seq<Atom>) {
    match action
    case Advance => after == o.parser && Live(after) && atoms == was + o.atoms
    case Stop => after == o.parser && !Live(after) && atoms == was && o.atoms == [] && !after.phase.ChunkDataAlmostDone?
    case Again =>
      && IsFinal(after.phase) && o == Reexecute(after, ch) && atoms == was
      && Rank(after.phase) < rank && Live(after) && Inv(after)
  }

  class HttpParser {
    var message: Message
    var phase: Phase
    var trailing: bool
    var nread: nat
    var contentLength: uint64
    var errno: HttpError
    var calls: seq<Call>

    constructor (p: Parser)
      ensures Contents() == p && calls == []
    {
      message, phase, trailing, nread := p.message, p.phase, p.trailing, p.nread;
      contentLength, errno, calls := p.contentLength, p.errno, [];
    }

    function Contents(): Parser
      reads this
    {
      Parser(message, phase, trailing, nread, contentLength, errno)
    }

    function Atoms(): seq<Atom>
      reads this
    {
      AtomsOf(calls)
    }

    method NotifyComplete()
      modifies this`calls
      ensures Atoms() == old(Atoms()) + [Complete]
    {
      AtomsOfMore(calls, OnMessageComplete);
      calls := calls + [OnMessageComplete];
    }

    /** Hands over the bytes from the mark up to `end`, if a mark is set. */
    method FlushBody(data: seq<byte>, mark: int, end: int)
      requires 0 <= mark ==> mark <= end <= |data|
      modifies this`calls
      ensures Atoms() == old(Atoms()) + Marked(data, mark, end)
    {
      if mark >= 0 {
        AtomsOfMore(calls, OnBody(data[mark..end]));
        calls := calls + [OnBody(data[mark..end])];
      } else {
        assert Atoms() + [] == Atoms();
      }
    }

    /** The end of the connection. */
    method ExecuteEof() returns (r: int)
      modifies this
      ensures old(errno) != HpeOk || old(phase) in {Dead, StartMessage} ==> r == 0 && Contents() == old(Contents()) && calls == old(calls)
      ensures old(errno) == HpeOk && old(phase) == BodyIdentityEof ==>
        r == 0 && Contents() == old(Contents()) && Atoms() == old(Atoms()) + [Complete]
      ensures old(errno) == HpeOk && old(phase) !in {Dead, StartMessage, BodyIdentityEof} ==>
        r == 1 && Contents() == old(Contents()).(errno := HpeInvalidEofState) && calls == old(calls)
    {
      if errno != HpeOk {
        return 0;
      }
      match phase {
        case BodyIdentityEof =>
          NotifyComplete();
          return 0;
        case Dead =>
          return 0;
        case StartMessage =>
          return 0;
        case _ =>
          errno := HpeInvalidEofState;
          return 1;
      }
    }

    /** `UPDATE_STATE(NEW_MESSAGE())` and the callback for a complete message. */
    method CompleteMessage() returns (action: Action)
      modifies this`phase, this`calls
      ensures action == Advance && Contents() == NewMessage(old(Contents())) && Atoms() == old(Atoms()) + [Complete]
    {
      phase := if ShouldKeepAlive(message, contentLength) then StartMessage else Dead;
      NotifyComplete();
      return Advance;
    }

    /** The line end behind the headers decides how the body is delimited. */
    method EndHeaders(ch: byte) returns (action: Action)
      requires phase == HeadersDone && errno == HpeOk
      modifies this
      ensures Performed(Act(old(Contents()), ch), ch, 0, action, Contents(), old(Atoms()), Atoms())
    {
      hide ShouldKeepAlive, AtomsOf;
      assert Atoms() + [] == Atoms();
      if ch != LF {
        errno := HpeStrict;
        return Stop;
      }
      nread := 0;
      if message.isChunked {
        phase := ChunkSizeStart;
      } else if contentLength == 0 {
        action := CompleteMessage();
      } else if contentLength != ULLONG_MAX {
        phase := BodyIdentity;
      } else if message.isRequest || !MessageNeedsEof(message, contentLength) {
        action := CompleteMessage();
      } else {
        phase := BodyIdentityEof;
      }
      return Advance;
    }

    /** The line with the size of a chunk. The overflow test comes behind the multiplication,
        which may wrap; the result is only kept when it has not. */
    method ActOnSize(ch: byte) returns (action: Action)
      requires errno == HpeOk && message.isChunked
      requires phase == ChunkSizeStart || phase == ChunkSize || phase == ChunkParameters
      requires phase == ChunkSizeStart ==> nread == 1
      modifies this
      ensures Performed(Act(old(Contents()), ch), ch, 0, action, Contents(), old(Atoms()), Atoms())
    {
      hide AtomsOf, Unhex, Wrap;
      UnhexRange(ch);
      assert Atoms() + [] == Atoms();
      var unhexVal := Unhex(ch);
      if phase == ChunkSizeStart {
        if unhexVal == -1 {
          errno := HpeInvalidChunkSize;
          return Stop;
        }
        contentLength := unhexVal;
        phase := ChunkSize;
      } else if ch == CR {
        phase := ChunkSizeAlmostDone;
      } else if phase == ChunkSize {
        if unhexVal == -1 {
          if ch == SEMICOLON || ch == SPACE {
            phase := ChunkParameters;
            return Advance;
          }
          errno := HpeInvalidChunkSize;
          return Stop;
        }
        var t := Wrap(contentLength * 16 + unhexVal);
        if MAX_BEFORE_DIGIT < contentLength {
          errno := HpeInvalidContentLength;
          return Stop;
        }
        contentLength := t;
      }
      return Advance;
    }

    /** The line feeds behind the size and behind the data of a chunk. */
    method ActOnLineEnd(ch: byte) returns (action: Action)
      requires errno == HpeOk && message.isChunked && (phase == ChunkSizeAlmostDone || phase == ChunkDataDone)
      modifies this
      ensures Performed(Act(old(Contents()), ch), ch, 0, action, Contents(), old(Atoms()), Atoms())
    {
      hide AtomsOf;
      assert Atoms() + [] == Atoms();
      if ch != LF {
        errno := HpeStrict;
        return Stop;
      }
      nread := 0;
      if phase == ChunkDataDone {
        phase := ChunkSizeStart;
      } else if contentLength == 0 {
        trailing := true;
        phase := TrailerStart;
      } else {
        phase := ChunkData;
      }
      return Advance;
    }

    /** Behind the last chunk and behind the message. */
    method ActOnEnd(ch: byte) returns (action: Action)
      requires Live(Contents()) && Inv(Contents())
      requires IsFinal(phase) || phase == TrailerStart || phase == StartMessage || phase == Dead
      modifies this
      ensures Performed(Act(old(Contents()), ch), ch, Rank(old(phase)), action, Contents(), old(Atoms()), Atoms())
    {
      hide AtomsOf, ShouldKeepAlive, Reexecute;
      assert Atoms() + [] == Atoms();
      match phase {
        case MessageDone =>
          action := CompleteMessage();
        case TrailerStart =>
          if ch == CR {
            phase := TrailerAlmostDone;
            return Advance;
          }
          if ch == LF {
            phase := TrailerAlmostDone;
            return Again;
          }
          phase := Beyond;
          return Stop;
        case TrailerAlmostDone =>
          if ch != LF {
            errno := HpeStrict;
            return Stop;
          }
          action := CompleteMessage();
        case StartMessage =>
          phase := Beyond;
          return Stop;
        case Dead =>
          if ch == CR || ch == LF {
            return Advance;
          }
          errno := HpeClosedConnection;
          return Stop;
      }
    }

    /** A byte in a state that looks at single bytes and has no mark. */
    method ExecuteByte(ch: byte) returns (action: Action)
      requires Live(Contents()) && Inv(Contents())
      requires !HasLength(phase) && phase != ChunkDataAlmostDone && phase != BodyIdentityEof
      modifies this
      ensures Performed(Step(old(Contents()), ch), ch, Rank(old(phase)), action, Contents(), old(Atoms()), Atoms())
    {
      hide AtomsOf, Act, Reexecute;
      ghost var p := Contents();
      if CountsAsHeader(phase) {
        nread := nread + 1;
        if nread > MAX_HEADER_SIZE {
          errno := HpeHeaderOverflow;
          return Stop;
        }
      }
      assert Contents() == Counted(p) && Step(p, ch) == Act(Counted(p), ch);
      assert Rank(phase) == 0 || IsFinal(phase) || phase == TrailerStart;
      hide Counted, Step, Performed, Rank;
      if phase == HeadersDone {
        action := EndHeaders(ch);
      } else if phase == ChunkSizeStart || phase == ChunkSize || phase == ChunkParameters {
        action := ActOnSize(ch);
      } else if phase == ChunkSizeAlmostDone || phase == ChunkDataDone {
        action := ActOnLineEnd(ch);
      } else {
        action := ActOnEnd(ch);
      }
    }

    // ---- the loop ----------------------------------------------------------------------------

    /** The atoms that were handed over since the call began. */
    ghost function Since(before: seq<Atom>): seq<Atom>
      reads this
    {
      if |before| <= |Atoms()| then Atoms()[|before|..] else []
    }

    lemma SinceMore(before: seq<Atom>, seen: seq<Atom>, more: seq<Atom>)
      requires Atoms() == before + seen + more
      ensures Since(before) == seen + more && Atoms() == before + Since(before)
    {
      assert Atoms() == before + (seen + more);
    }

    /** Where the loop of one call is: `mark` is the start of the body bytes not handed over yet. */
    ghost predicate InLoop(p: Parser, data: seq<byte>, before: seq<Atom>, i: nat, mark: int, again: bool)
      reads this
    {
      && -1 <= mark <= i <= |data|
      && Live(p) && Live(Contents()) && Inv(Contents())
      && Atoms() == before + Since(before)
      && Here(p, data, i, Contents(), Since(before) + Marked(data, mark, i), again)
      && (mark >= 0 && i < |data| ==> phase.ChunkData? || phase.ChunkDataAlmostDone?)
      && (!again && (phase.ChunkData? || phase.ChunkDataAlmostDone?) ==>
          Tail(p, data[..i]) == if mark < 0 then 0 else i - mark)
    }

    /** As many bytes of a body of known length as there are. */
    method ReadLength(data: seq<byte>, i: nat, mark: int, ghost p: Parser, ghost before: seq<Atom>)
        returns (next: nat, bodyMark: int, again: bool)
      requires i < |data| && HasLength(phase) && InLoop(p, data, before, i, mark, false)
      modifies this
      ensures InLoop(p, data, before, next, bodyMark, again)
      ensures i <= next <= |data| && (next == i ==> Rank(phase) < Rank(old(phase)))
    {
      hide Run, Tail, Step, Inv, AtomsOf, Reexecute, ShouldKeepAlive, Here;
      ghost var was, seen := Contents(), Since(before);
      var toRead := if contentLength < |data| - i then contentLength else |data| - i;
      LengthInRange(was);
      ReadKeepsInv(was, toRead);
      MarkedMore(data, mark, i, toRead, seen);
      ManyBytes(p, data, i, was, seen + Marked(data, mark, i), toRead);
      bodyMark, again := MarkOf(mark, i), false;
      contentLength := contentLength - toRead;
      next := i + toRead;
      if contentLength == 0 && phase.BodyIdentity? {
        phase := MessageDone;
        FlushBody(data, bodyMark, next);
        SinceMore(before, seen, Marked(data, bodyMark, next));
        next, bodyMark, again := next - 1, -1, true;
        assert Since(before) + [] == Since(before);
      } else if contentLength == 0 {
        phase := ChunkDataAlmostDone;
      }
    }

    /** Where the line end of a chunk is due. */
    method EndChunk(data: seq<byte>, i: nat, mark: int, ghost p: Parser, ghost before: seq<Atom>)
        returns (stop: bool)
      requires i < |data| && phase.ChunkDataAlmostDone? && InLoop(p, data, before, i, mark, false)
      modifies this
      ensures !stop ==> InLoop(p, data, before, i + 1, -1, false)
      ensures stop ==> Contents() == Run(p, data).parser && i == Run(p, data).taken
      ensures stop ==> Atoms() == before + Delivered(p, data)
    {
      hide Run, Tail, Step, Inv, AtomsOf, ShouldKeepAlive, Here, Delivered, Lost;
      ghost var was, seen := Contents(), Since(before);
      ChunkEnds(p, data, i, was, seen + Marked(data, mark, i));
      ChunkEndKeepsInv(was);
      if data[i] != CR {
        errno := HpeStrict;
        DeliveredBeforeMark(p, data, seen, mark, i);
        return true;
      }
      phase := ChunkDataDone;
      FlushBody(data, mark, i);
      SinceMore(before, seen, Marked(data, mark, i));
      assert Since(before) + [] == Since(before);
      return false;
    }

    /** Any other byte; the flag says whether it is executed again. */
    method ExecuteOther(data: seq<byte>, i: nat, wasAgain: bool, ghost p: Parser, ghost before: seq<Atom>)
        returns (action: Action)
      requires i < |data| && InLoop(p, data, before, i, -1, wasAgain)
      requires !HasLength(phase) && phase != ChunkDataAlmostDone && phase != BodyIdentityEof
      modifies this
      ensures action == Advance ==> InLoop(p, data, before, i + 1, -1, false)
      ensures action == Again ==> InLoop(p, data, before, i, -1, true) && Rank(phase) < Rank(old(phase))
      ensures action == Stop ==> Contents() == Run(p, data).parser && i == Run(p, data).taken
      ensures action == Stop ==> Atoms() == before + Delivered(p, data)
    {
      hide Run, Tail, Step, Inv, AtomsOf, ShouldKeepAlive, Here, Reexecute;
      ghost var was, seen := Contents(), Since(before);
      assert seen + [] == seen;
      ByteDone(p, data, i, was, seen, wasAgain);
      StepKeepsInv(was, data[i]);
      action := ExecuteByte(data[i]);
      if action == Advance {
        SinceMore(before, seen, Step(was, data[i]).atoms);
        assert Since(before) + [] == Since(before);
      } else if action == Again {
        AgainHere(p, data, i, was, Contents(), seen, wasAgain);
      } else {
        assert Run(p, data).atoms == seen;
        assert seen[..|seen|] == seen;
      }
    }

    /** The loop. A byte that is executed again leads to a state of lower rank, so it ends. */
    method Execute(data: seq<byte>) returns (parsed: nat)
      requires data != [] && Inv(Contents()) && phase != Beyond
      modifies this
      ensures Contents() == Run(old(Contents()), data).parser && Inv(Contents())
      ensures parsed == Run(old(Contents()), data).taken
      ensures Atoms() == old(Atoms()) + Delivered(old(Contents()), data)
    {
      hide Run, Delivered, Inv, Since, Marked, Step, Live, AtomsOf, InLoop;
      ghost var p, before := Contents(), Atoms();
      RunKeepsInv(p, data);
      LoopStarts(data);
      if errno != HpeOk {
        return 0;
      }
      var i: nat, bodyMark: int, again := 0, -1, false;
      while i < |data|
        invariant i <= |data| && InLoop(p, data, before, i, bodyMark, again)
        decreases |data| - i, Rank(phase)
      {
        MarkInChunks(p, data, before, i, bodyMark, again);
        if HasLength(phase) {
          i, bodyMark, again := ReadLength(data, i, bodyMark, p, before);
        } else if phase == BodyIdentityEof {
          bodyMark := ReadRest(data, i, bodyMark, p, before);
          i := |data|;
        } else if phase == ChunkDataAlmostDone {
          var stop := EndChunk(data, i, bodyMark, p, before);
          if stop {
            return i;
          }
          i, bodyMark := i + 1, -1;
        } else {
          var action := ExecuteOther(data, i, again, p, before);
          if action == Stop {
            return i;
          }
          again := action == Again;
          if !again {
            i := i + 1;
          }
        }
      }
      LoopDone(p, data, before, bodyMark, again);
      FlushBody(data, bodyMark, i);
      return |data|;
    }

    /** The loop begins, or the parser is already in error and takes nothing. */
    lemma LoopStarts(data: seq<byte>)
      requires Inv(Contents()) && phase != Beyond
      ensures errno == HpeOk ==> InLoop(Contents(), data, Atoms(), 0, -1, false)
      ensures errno != HpeOk ==> Run(Contents(), data) == Progress(Contents(), [], 0)
      ensures errno != HpeOk ==> Atoms() + Delivered(Contents(), data) == Atoms()
    {
      hide Step, Inv, AtomsOf;
      assert Since(Atoms()) == [] && Atoms() + [] == Atoms();
      if errno != HpeOk {
        DeadRun(Contents(), data);
      }
    }

    /** All that is left, when only the end of the connection ends the body. */
    method ReadRest(data: seq<byte>, i: nat, mark: int, ghost p: Parser, ghost before: seq<Atom>) returns (bodyMark: int)
      requires i < |data| && phase.BodyIdentityEof? && InLoop(p, data, before, i, mark, false)
      ensures InLoop(p, data, before, |data|, bodyMark, false)
    {
      hide Run, Tail, Step, Inv, AtomsOf, Here;
      MarkedMore(data, mark, i, |data| - i, Since(before));
      AllBytes(p, data, i, Contents(), Since(before) + Marked(data, mark, i));
      bodyMark := MarkOf(mark, i);
    }

    /** Body bytes are pending only inside a chunk, and only final states are executed again. */
    lemma MarkInChunks(p: Parser, data: seq<byte>, before: seq<Atom>, i: nat, mark: int, again: bool)
      requires i < |data| && InLoop(p, data, before, i, mark, again)
      ensures !phase.ChunkData? && !phase.ChunkDataAlmostDone? ==> mark == -1
      ensures again ==> IsFinal(phase)
      ensures phase != Beyond
    {
    }

    lemma LoopDone(p: Parser, data: seq<byte>, before: seq<Atom>, mark: int, again: bool)
      requires InLoop(p, data, before, |data|, mark, again)
      ensures Contents() == Run(p, data).parser && |data| == Run(p, data).taken && mark <= |data|
      ensures Atoms() + Marked(data, mark, |data|) == before + Delivered(p, data)
    {
      hide Run, Tail, Step, Inv, AtomsOf, Delivered;
      assert data[..|data|] == data;
      NothingLost(p, data);
      assert before + Since(before) + Marked(data, mark, |data|) == before + (Since(before) + Marked(data, mark, |data|));
    }
  }
}
