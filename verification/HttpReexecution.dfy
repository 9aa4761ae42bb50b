/** The bytes that the parser's loop executes again: the loop steps back by one byte and goes on in
    another state. */
module HttpReexecution {
  import opened Common
  import opened HttpBody
  import HttpParser

  /** The states that execute their byte again, and those in which it is executed then. */
  datatype State =
    | StartReqOrRes
    | StartReq
    | HeaderFieldStart
    | HeaderValueStart
    | HeaderValue
    | HeaderAlmostDone
    | HeaderValueLws
    | HeaderValueDiscardLws
    | HeadersAlmostDone
    | HeadersDone
    | BodyIdentity
    | MessageDone
    | Other

  const TAB: byte := 9
  const H: byte := 72

  predicate IsBlank(ch: byte) {
    ch == SPACE || ch == TAB
  }

  /** A byte as the loop meets it. `trailing` says that the last chunk is done, and `last` that the
      body is complete with the byte. */
  datatype Look = Look(state: State, ch: byte, trailing: bool, last: bool)

  /** The state in which the byte is executed again, if it is and if no callback stops the parser. */
  function Again(l: Look): Option<State> {
    match l.state
    case StartReqOrRes => if l.ch == CR || l.ch == LF || l.ch == H then None else Some(StartReq)
    case HeaderFieldStart => if l.ch == LF then Some(HeadersAlmostDone) else None
    case HeaderValue => if l.ch == LF then Some(HeaderAlmostDone) else None
    case HeaderValueLws => Some(if IsBlank(l.ch) then HeaderValueStart else HeaderFieldStart)
    case HeaderValueDiscardLws => if IsBlank(l.ch) then None else Some(HeaderFieldStart)
    case HeadersAlmostDone => if l.ch == LF && !l.trailing then Some(State.HeadersDone) else None
    case BodyIdentity => if l.last then Some(State.MessageDone) else None
    case _ => None
  }

  function Rank(s: State): nat {
    match s
    case HeaderValueLws => 3
    case HeaderValueDiscardLws => 3
    case HeaderFieldStart => 2
    case HeadersAlmostDone => 1
    case HeaderValue => 1
    case BodyIdentity => 1
    case StartReqOrRes => 1
    case _ => 0
  }

  /** A byte that is executed again meets a state of lower rank, so that the loop gets on. */
  lemma RankFalls(l: Look)
    requires Again(l).Some?
    ensures Rank(Again(l).value) < Rank(l.state)
  {
  }

  /** How often the byte is executed. */
  function Executions(l: Look): nat
    decreases Rank(l.state)
  {
    if Again(l) == None then 1
    else
      RankFalls(l);
      1 + Executions(l.(state := Again(l).value))
  }

  lemma {:induction false} WithinRank(l: Look)
    ensures 1 <= Executions(l) <= 1 + Rank(l.state)
    decreases Rank(l.state)
  {
    if Again(l).Some? {
      RankFalls(l);
      WithinRank(l.(state := Again(l).value));
    }
  }

  lemma EndOfHeaders(l: Look)
    requires l.state.HeaderFieldStart?
    ensures Executions(l) == if l.ch != LF then 1 else if l.trailing then 2 else 3
  {
    if l.ch == LF {
      var done := l.(state := HeadersAlmostDone);
      assert Executions(l) == 1 + Executions(done);
      assert Executions(done) == if l.trailing then 1 else 2;
    }
  }

  /** No byte is executed more than four times, and exactly the line feed of the empty line that
      ends the headers is executed so often, if it comes behind a value. */
  lemma AtMostFour(l: Look)
    ensures 1 <= Executions(l) <= 4
    ensures Executions(l) == 4 <==>
      (l.state.HeaderValueLws? || l.state.HeaderValueDiscardLws?) && l.ch == LF && !l.trailing
  {
    WithinRank(l);
    if l.state.HeaderValueLws? || l.state.HeaderValueDiscardLws? {
      EndOfHeaders(l.(state := HeaderFieldStart));
      if l.state.HeaderValueLws? && IsBlank(l.ch) {
        WithinRank(l.(state := HeaderValueStart));
      }
    }
  }

  /** The executions of all bytes of an input. */
  function Total(looks: seq<Look>): nat {
    if looks == [] then 0 else Total(looks[..|looks| - 1]) + Executions(looks[|looks| - 1])
  }

  /** The loop ends: it goes around at most four times for each byte. */
  lemma {:induction false} TotalIsLinear(looks: seq<Look>)
    ensures |looks| <= Total(looks) <= 4 * |looks|
  {
    if looks != [] {
      TotalIsLinear(looks[..|looks| - 1]);
      AtMostFour(looks[|looks| - 1]);
    }
  }

  // ---- the states behind the headers ---------------------------------------------------------

  /** Where the states behind the headers are among these. */
  function StateOf(p: Parser): State {
    match p.phase
    case HeadersDone => State.HeadersDone
    case BodyIdentity => State.BodyIdentity
    case MessageDone => State.MessageDone
    case TrailerStart => HeaderFieldStart
    case TrailerAlmostDone => HeadersAlmostDone
    case StartMessage => StartReqOrRes
    case _ => Other
  }

  function LookAt(p: Parser, ch: byte): Look {
    Look(StateOf(p), ch, p.trailing, p.contentLength == 1)
  }

  /** The body states execute a byte again when this says so, in the state that this says. */
  lemma BodyAgrees(p: Parser, ch: byte)
    requires Live(p) && Inv(p) && !p.phase.StartMessage?
    ensures match Again(LookAt(p, ch))
      case None =>
        && (p.phase.TrailerStart? ==> ch != LF)
        && (p.phase.BodyIdentity? ==> Act(p, ch) == Outcome(p.(contentLength := p.contentLength - 1), [BodyByte(ch)]))
      case Some(HeadersAlmostDone) => Act(p, ch) == Reexecute(p.(phase := TrailerAlmostDone), ch)
      case Some(MessageDone) =>
        var again := Reexecute(p.(contentLength := 0, phase := Phase.MessageDone), ch);
        Act(p, ch) == Outcome(again.parser, [BodyByte(ch)] + again.atoms)
      case _ => false
  {
    hide Reexecute;
    if p.phase.BodyIdentity? {
      WrapSmall(p.contentLength - 1);
      hide Wrap;
    }
  }

  /** The rank of the body states bounds their executions. */
  lemma BodyWithinRank(p: Parser, ch: byte)
    requires Live(p) && Inv(p) && !p.phase.StartMessage?
    ensures Executions(LookAt(p, ch)) <= 1 + HttpParser.Rank(p.phase)
  {
    var l := LookAt(p, ch);
    WithinRank(l);
    if p.phase.TrailerStart? {
      EndOfHeaders(l);
    }
    hide Executions;
  }

  /** How often each byte is executed. */
  lemma ExecutionsExact(l: Look)
    ensures Executions(l) ==
      match l.state
      case StartReqOrRes => (if l.ch as char in "\r\nH" then 1 else 2)
      case HeaderFieldStart => (if l.ch != LF then 1 else if l.trailing then 2 else 3)
      case HeaderValue => (if l.ch == LF then 2 else 1)
      case HeaderValueLws => (if l.ch != LF then 2 else if l.trailing then 3 else 4)
      case HeaderValueDiscardLws => (if l.ch as char in " \t" then 1 else if l.ch != LF then 2 else if l.trailing then 3 else 4)
      case HeadersAlmostDone => (if l.ch == LF && !l.trailing then 2 else 1)
      case BodyIdentity => (if l.last then 2 else 1)
      case _ => 1
  {
    WithinRank(l);
    if l.state.HeaderValueLws? || l.state.HeaderValueDiscardLws? || l.state.HeaderFieldStart? {
      EndOfHeaders(l.(state := HeaderFieldStart));
      WithinRank(l.(state := HeaderValueStart));
    } else if Again(l).Some? {
      WithinRank(l.(state := Again(l).value));
    }
  }
}
