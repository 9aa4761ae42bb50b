/** The verification steps that need nothing but the signature, and what the policies that ask for
    them accept. */
module SignatureVerification {
  import opened Common
  import opened Hashing
  import opened HashChain
  import opened Verification
  import AggregationChains
  import CalendarChain
  import CalendarObjects
  import Policy

  /** The time and the root hash of a publication, or of a calendar authentication record. */
  datatype Published = Published(time: uint64, imprint: Imprint)

  datatype Parts = Parts(
    chains: seq<AggregationChains.AggregationChain>,
    calendar: CalendarObjects.CalendarHashChain,
    authRec: Option<Published>,
    publication: Option<Published>)

  // ---- calendar chains -----------------------------------------------------------------------

  function HashLink(link: CalendarObjects.CalendarLink): Link {
    Link(link.isLeft, None, Some(link.imprint), None, None)
  }

  function HashLinks(links: seq<CalendarObjects.CalendarLink>): (r: seq<Link>)
    ensures |r| == |links| && forall k | 0 <= k < |links| :: r[k] == HashLink(links[k])
  {
    seq(|links|, k requires 0 <= k < |links| => HashLink(links[k]))
  }

  function Shape(links: seq<CalendarObjects.CalendarLink>): (r: seq<bool>)
    ensures |r| == |links| && forall k | 0 <= k < |links| :: r[k] == links[k].isLeft
  {
    seq(|links|, k requires 0 <= k < |links| => links[k].isLeft)
  }

  function CalendarTask(c: CalendarObjects.CalendarHashChain): Task {
    Task(HashLinks(c.hashChain), c.inputHash, 0xff, -1, true)
  }

  function CalendarRoot(h: Digest, c: CalendarObjects.CalendarHashChain): Result<Option<Imprint>> {
    match Aggregate(h, CalendarTask(c))
    case Err(error) => Err(error)
    case Ok(outcome) => Ok(outcome.hash)
  }

  method AggregateCalendar(h: Digest, c: CalendarObjects.CalendarHashChain) returns (res: Result<Option<Imprint>>)
    ensures res == CalendarRoot(h, c)
  {
    var inputHash := new DataHash(c.inputHash);
    var ok, endLevel, outputHash := AggregateChain(h, HashLinks(c.hashChain), inputHash, 0xff, -1, true);
    if ok.Err? {
      return Err(ok.error);
    }
    return Ok(if outputHash == null then None else Some(outputHash.imprint));
  }

  /** The algorithm of a calendar chain: that of its first link if it is a left one. */
  function CalendarAlgorithm(c: CalendarObjects.CalendarHashChain): int
    requires c.hashChain != []
  {
    if c.hashChain[0].isLeft then c.hashChain[0].imprint[0] else c.inputHash[0]
  }

  lemma TaskOfMore(c: CalendarObjects.CalendarHashChain, link: CalendarObjects.CalendarLink)
    ensures var more := c.(hashChain := c.hashChain + [link]);
      CalendarTask(more) == CalendarTask(c).(chain := CalendarTask(c).chain + [HashLink(link)])
  {
    assert HashLinks(c.hashChain + [link]) == HashLinks(c.hashChain) + [HashLink(link)];
  }

  /** The hash of a calendar chain over one more link. The level byte is 0xff for every link. */
  lemma CalendarLinkHash(h: Digest, c: CalendarObjects.CalendarHashChain, link: CalendarObjects.CalendarLink)
    requires CalendarRoot(h, c.(hashChain := c.hashChain + [link])).Ok?
    ensures CalendarRoot(h, c).Ok? && (CalendarRoot(h, c).value == None <==> c.hashChain == [])
    ensures var more := c.(hashChain := c.hashChain + [link]);
      var below := if CalendarRoot(h, c).value.Some? then CalendarRoot(h, c).value.value else c.inputHash;
      var alg := if more.hashChain[0].isLeft then more.hashChain[0].imprint[0] else c.inputHash[0];
      && 0 <= alg <= 5
      && CalendarRoot(h, more) == Ok(Some([alg] + h(alg,
           if link.isLeft then below + link.imprint + [0xff] else link.imprint + below + [0xff])))
  {
    TaskOfMore(c, link);
    var more := c.(hashChain := c.hashChain + [link]);
    var alg, below, sibling, level := HashOfLink(h, CalendarTask(c), HashLink(link));
    CalendarLevel(h, CalendarTask(c));
    assert CalendarTask(more).chain[0] == HashLink(more.hashChain[0]);
    hide Aggregate, HashLinks, ToInt32, DigestLength;
  }

  /** A calendar chain is aggregated exactly if its algorithm is implemented. */
  lemma {:induction false} CalendarAggregates(h: Digest, c: CalendarObjects.CalendarHashChain)
    ensures CalendarRoot(h, c) == Ok(None) <==> c.hashChain == []
    ensures c.hashChain != [] ==>
      if 0 <= CalendarAlgorithm(c) <= 5 then CalendarRoot(h, c).Ok? else CalendarRoot(h, c) == Err(UnavailableHashAlgorithm)
    decreases |c.hashChain|
  {
    if c.hashChain != [] {
      var n := |c.hashChain| - 1;
      var less := c.(hashChain := c.hashChain[..n]);
      CalendarAggregates(h, less);
      assert less.(hashChain := less.hashChain + [c.hashChain[n]]) == c;
      CalendarMore(h, less, c.hashChain[n]);
    }
  }

  lemma CalendarMore(h: Digest, c: CalendarObjects.CalendarHashChain, link: CalendarObjects.CalendarLink)
    requires CalendarRoot(h, c) == Ok(None) <==> c.hashChain == []
    ensures var more := c.(hashChain := c.hashChain + [link]);
      match CalendarRoot(h, c)
      case Err(error) => CalendarRoot(h, more) == Err(error)
      case Ok(_) =>
        if c.hashChain == [] && !(0 <= CalendarAlgorithm(more) <= 5) then CalendarRoot(h, more) == Err(UnavailableHashAlgorithm)
        else CalendarRoot(h, more).Ok? && CalendarRoot(h, more).value.Some?
  {
    TaskOfMore(c, link);
    var more := c.(hashChain := c.hashChain + [link]);
    LinkRefused(h, CalendarTask(c), HashLink(link));
    if Aggregate(h, CalendarTask(c)).Ok? {
      CalendarLevel(h, CalendarTask(c));
    }
    if CalendarRoot(h, more).Ok? {
      var alg, below, sibling, level := HashOfLink(h, CalendarTask(c), HashLink(link));
    }
    assert CalendarTask(more).chain[0] == HashLink(more.hashChain[0]);
    hide Aggregate, HashLinks, ToInt32, DigestLength;
  }

  // ---- the steps -----------------------------------------------------------------------------

  const PASSED: (bool, string) := (true, "")
  const FAILED: (bool, string) := (false, "")

  function Recorded(ok: bool): Policy.StepRun {
    Policy.StepRun([if ok then PASSED else FAILED], None)
  }

  function Refused(error: Error): Policy.StepRun {
    Policy.StepRun([], Some(error))
  }

  const NOT_APPLICABLE := Policy.StepRun([], None)

  function AggregationRun(h: Digest, sig: Parts, docLevel: int): Policy.StepRun {
    match AggregationChains.Verify(h, sig.chains, docLevel)
    case Success(_) => Recorded(true)
    case Failure => Recorded(false)
    case Stopped(error) => Refused(error)
  }

  /** What the first step leaves for the comparison with the calendar. */
  function AggregationHash(h: Digest, sig: Parts, docLevel: int): Option<Imprint> {
    match AggregationChains.Verify(h, sig.chains, docLevel)
    case Success(root) => root
    case _ => None
  }

  /** The comparison records each mismatch and then, all the same, a success. */
  function RootRun(sig: Parts, hash: Option<Imprint>): Policy.StepRun {
    if sig.chains == [] then Refused(BufferOverflow)
    else
      var wrongHash := if hash == Some(sig.calendar.inputHash) then [] else [FAILED];
      var wrongTime := if AggregationChains.SameTime(sig.calendar.aggregationTime, sig.chains[0].time) then [] else [FAILED];
      Policy.StepRun(wrongHash + wrongTime + [PASSED], None)
  }

  function CalendarRun(sig: Parts): Policy.StepRun {
    match CalendarChain.AggregationTime(Shape(sig.calendar.hashChain), sig.calendar.publicationTime)
    case Err(error) => Refused(error)
    case Ok(time) => Recorded(sig.calendar.aggregationTime == Some(time))
  }

  /** A calendar chain leads to a publication: the same time and the same root hash. */
  predicate LeadsTo(h: Digest, c: CalendarObjects.CalendarHashChain, published: Published) {
    c.publicationTime == published.time && CalendarRoot(h, c) == Ok(Some(published.imprint))
  }

  function PublishedRun(h: Digest, sig: Parts, published: Option<Published>): Policy.StepRun {
    if published.None? then NOT_APPLICABLE
    else
      match CalendarRoot(h, sig.calendar)
      case Err(error) => Refused(error)
      case Ok(_) => Recorded(LeadsTo(h, sig.calendar, published.value))
  }

  /** The outcomes of all steps; those that need more than the signature are given. */
  function Outcomes(h: Digest, sig: Parts, docLevel: int, given: Policy.Outcomes): Policy.Outcomes {
    (step: Step) =>
      match step
      case AggregationInternally => AggregationRun(h, sig, docLevel)
      case AggregationWithCalendar => RootRun(sig, AggregationHash(h, sig, docLevel))
      case CalendarInternally => CalendarRun(sig)
      case CalendarWithAuthRec => PublishedRun(h, sig, sig.authRec)
      case CalendarWithPublication => PublishedRun(h, sig, sig.publication)
      case _ => given(step)
  }

  /** The comparison with a publication, or with an authentication record: both its time and its
      hash have to be those of the calendar chain. */
  lemma PublishedExact(h: Digest, sig: Parts, published: Published)
    ensures PublishedRun(h, sig, Some(published)) ==
      match CalendarRoot(h, sig.calendar)
      case Err(error) => Policy.StepRun([], Some(error))
      case Ok(root) => Policy.StepRun(
        [(sig.calendar.publicationTime == published.time && root == Some(published.imprint), "")], None)
  {
    hide CalendarRoot;
  }

  /** The steps above record no more than the record has slots for. */
  lemma OutcomesAreBounded(h: Digest, sig: Parts, docLevel: int, given: Policy.Outcomes)
    requires Policy.Bounded(given)
    ensures Policy.Bounded(Outcomes(h, sig, docLevel, given))
  {
    hide AggregationChains.Verify, CalendarChain.AggregationTime, CalendarRoot, LeadsTo, AggregationHash;
    var o := Outcomes(h, sig, docLevel, given);
    forall step: Step
      ensures |o(step).results| <= Allowance(step)
    {
      StepIsBounded(h, sig, docLevel, given, step);
    }
  }

  lemma StepIsBounded(h: Digest, sig: Parts, docLevel: int, given: Policy.Outcomes, step: Step)
    requires |given(step).results| <= Allowance(step)
    ensures |Outcomes(h, sig, docLevel, given)(step).results| <= Allowance(step)
  {
    hide AggregationChains.Verify, CalendarChain.AggregationTime, CalendarRoot, LeadsTo, AggregationHash;
    match step
    case AggregationInternally => assert |AggregationRun(h, sig, docLevel).results| <= 1;
    case AggregationWithCalendar => assert |RootRun(sig, AggregationHash(h, sig, docLevel)).results| <= 3;
    case CalendarInternally => assert |CalendarRun(sig).results| <= 1;
    case CalendarWithAuthRec => assert |PublishedRun(h, sig, sig.authRec).results| <= 1;
    case CalendarWithPublication => assert |PublishedRun(h, sig, sig.publication).results| <= 1;
    case _ =>
  }

  /** Everything a step adds to the record, and what it returns. */
  predicate Reports(before: Record, after: Record, step: Step, run: Policy.StepRun, res: Result<()>) {
    after == Policy.AddAll(before, step, run.results) && res == if run.error.Some? then Err(run.error.value) else Ok(())
  }

  /** One result. */
  method Report(info: VerificationResult, step: Step, ok: bool)
    requires info.Room() && info.stepsLen < MAX_STEP_RESULTS
    modifies info, info.steps
    ensures info.Room() && info.stepsLen == old(info.stepsLen) + 1
    ensures info.Contents() == Added(old(info.Contents()), StepResult(step, ok, ""))
    ensures Reports(old(info.Contents()), info.Contents(), step, Recorded(ok), Ok(()))
  {
    info.AddVerificationStepResult(step, "", ok);
    var results := Recorded(ok).results;
    assert results[..0] == [];
    assert Policy.AddAll(old(info.Contents()), step, results[..0]) == old(info.Contents());
  }

  method VerifyInternallyAggregationChain(h: Digest, sig: Parts, docLevel: int, info: VerificationResult)
      returns (res: Result<()>, aggregationHash: Option<Imprint>)
    requires info.Room() && info.stepsLen < MAX_STEP_RESULTS
    modifies info, info.steps
    ensures info.Room() && Reports(old(info.Contents()), info.Contents(), AggregationInternally, AggregationRun(h, sig, docLevel), res)
    ensures aggregationHash == AggregationHash(h, sig, docLevel)
  {
    hide AggregationChains.Verify;
    aggregationHash := None;
    var verdict := AggregationChains.VerifyInternally(h, sig.chains, docLevel);
    if verdict.Stopped? {
      return Err(verdict.error), None;
    }
    if verdict.Success? {
      aggregationHash := verdict.root;
    }
    Report(info, AggregationInternally, verdict.Success?);
    return Ok(()), aggregationHash;
  }

  method VerifyAggregationRootWithCalendarChain(sig: Parts, aggregationHash: Option<Imprint>, info: VerificationResult)
      returns (res: Result<()>)
    requires info.Room() && info.stepsLen + 3 <= MAX_STEP_RESULTS
    modifies info, info.steps
    ensures info.Room() && Reports(old(info.Contents()), info.Contents(), AggregationWithCalendar, RootRun(sig, aggregationHash), res)
  {
    if |sig.chains| == 0 {
      return Err(BufferOverflow);
    }
    hide Policy.AddAll;
    ghost var was := info.Contents();
    ghost var results := [];
    NothingAdded(was, AggregationWithCalendar);
    results := ReportUnless(info, AggregationWithCalendar, aggregationHash == Some(sig.calendar.inputHash), was, results);
    results := ReportUnless(info, AggregationWithCalendar,
      AggregationChains.SameTime(sig.calendar.aggregationTime, sig.chains[0].time), was, results);
    Report(info, AggregationWithCalendar, true);
    results := AddOne(was, AggregationWithCalendar, results, true);
    assert results == RootRun(sig, aggregationHash).results;
    return Ok(());
  }

  /** A failure if the comparison did not hold; the caller goes on in both cases. */
  method ReportUnless(info: VerificationResult, step: Step, holds: bool, ghost was: Record, ghost results: seq<(bool, string)>)
      returns (ghost more: seq<(bool, string)>)
    requires info.Room() && info.stepsLen < MAX_STEP_RESULTS && info.Contents() == Policy.AddAll(was, step, results)
    modifies info, info.steps
    ensures info.Room() && info.stepsLen <= old(info.stepsLen) + 1
    ensures more == results + if holds then [] else [FAILED]
    ensures info.Contents() == Policy.AddAll(was, step, more)
  {
    more := results;
    if !holds {
      Report(info, step, false);
      more := AddOne(was, step, results, false);
    }
  }

  lemma NothingAdded(r: Record, step: Step)
    ensures Policy.AddAll(r, step, []) == r
  {
  }

  lemma AddOne(r: Record, step: Step, results: seq<(bool, string)>, ok: bool) returns (more: seq<(bool, string)>)
    ensures more == results + [if ok then PASSED else FAILED]
    ensures Policy.AddAll(r, step, more) == Added(Policy.AddAll(r, step, results), StepResult(step, ok, ""))
  {
    more := results + [if ok then PASSED else FAILED];
    assert more[..|results|] == results;
  }

  method VerifyInternallyCalendarChain(sig: Parts, info: VerificationResult) returns (res: Result<()>)
    requires info.Room() && info.stepsLen < MAX_STEP_RESULTS
    modifies info, info.steps
    ensures info.Room() && Reports(old(info.Contents()), info.Contents(), CalendarInternally, CalendarRun(sig), res)
  {
    var calculated := CalendarChain.CalculateCalendarAggregationTime(Shape(sig.calendar.hashChain), sig.calendar.publicationTime);
    if calculated.Err? {
      return Err(calculated.error);
    }
    Report(info, CalendarInternally, sig.calendar.aggregationTime == Some(calculated.value));
    return Ok(());
  }

  method VerifyCalendarChain(h: Digest, sig: Parts, info: VerificationResult) returns (res: Result<()>)
    requires info.Room() && info.stepsLen < MAX_STEP_RESULTS
    modifies info, info.steps
    ensures info.Room() && Reports(old(info.Contents()), info.Contents(), CalendarWithAuthRec, PublishedRun(h, sig, sig.authRec), res)
  {
    if sig.authRec.None? {
      return Ok(());
    }
    var rootHash := AggregateCalendar(h, sig.calendar);
    if rootHash.Err? {
      return Err(rootHash.error);
    }
    var pub := sig.authRec.value;
    Report(info, CalendarWithAuthRec, sig.calendar.publicationTime == pub.time && rootHash.value == Some(pub.imprint));
    return Ok(());
  }

  method VerifyCalendarChainWithPublication(h: Digest, sig: Parts, info: VerificationResult) returns (res: Result<()>)
    requires info.Room() && info.stepsLen < MAX_STEP_RESULTS
    modifies info, info.steps
    ensures info.Room() && Reports(old(info.Contents()), info.Contents(), CalendarWithPublication, PublishedRun(h, sig, sig.publication), res)
  {
    if sig.publication.None? {
      return Ok(());
    }
    var rootHash := AggregateCalendar(h, sig.calendar);
    if rootHash.Err? {
      return Err(rootHash.error);
    }
    if rootHash.value != Some(sig.publication.value.imprint) {
      Report(info, CalendarWithPublication, false);
      return Ok(());
    }
    if sig.calendar.publicationTime != sig.publication.value.time {
      Report(info, CalendarWithPublication, false);
      return Ok(());
    }
    Report(info, CalendarWithPublication, true);
    return Ok(());
  }
}
