/** What a signature that a policy accepts is bound to. */
module SignatureBinding {
  import opened Common
  import opened Hashing
  import opened HashChain
  import opened SignatureVerification
  import opened Verification
  import opened CalendarObjects
  import AggregationChains
  import CalendarChain
  import Policy

  // ---- the policies --------------------------------------------------------------------------

  const INTERNAL: set<Step> := {AggregationInternally, CalendarInternally, AggregationWithCalendar}
  const WITH_AUTH_REC: set<Step> := INTERNAL + {CalendarWithAuthRec, AuthRecWithSignature}
  const WITH_STRING: set<Step> := INTERNAL + {CalendarWithPublication, PublicationWithString}
  const WITH_FILE: set<Step> := INTERNAL + {CalendarWithPublication, PublicationWithFile}
  const WITH_ONLINE: set<Step> := INTERNAL + {CalendarOnline}

  const VP_INTERNAL: Policy.Policy := [INTERNAL]
  const VP_OFFLINE: Policy.Policy := [WITH_AUTH_REC, WITH_STRING, WITH_FILE]
  const VP_ONLINE: Policy.Policy := [WITH_ONLINE]
  const VP_SIGNATURE: Policy.Policy := [WITH_AUTH_REC, WITH_STRING, WITH_FILE, WITH_ONLINE]
  const VP_DOCUMENT: Policy.Policy := [
    {Document} + WITH_AUTH_REC, {Document} + WITH_STRING, {Document} + WITH_FILE, {Document} + WITH_ONLINE]

  /** The entries of this policy ask for everything online, but not for the calendar time. */
  const PARANOID_BASE: set<Step> := {PublicationsFileSignature, AggregationInternally, AggregationWithCalendar, CalendarOnline}
  const VP_PARANOID: Policy.Policy := [
    PARANOID_BASE + {CalendarWithAuthRec, AuthRecWithSignature},
    PARANOID_BASE + {CalendarWithPublication, PublicationWithString},
    PARANOID_BASE + {CalendarWithPublication, PublicationWithFile},
    PARANOID_BASE]

  predicate Accepted(policy: Policy.Policy, o: Policy.Outcomes) {
    Policy.Decide(EMPTY, policy, 0, o).1 == Ok(())
  }

  // ---- what acceptance means -----------------------------------------------------------------

  /** The aggregation chains lead to the input of the calendar chain, in one round. */
  predicate Rooted(h: Digest, sig: Parts, docLevel: int) {
    && sig.chains != []
    && AggregationChains.Verify(h, sig.chains, docLevel) == AggregationChains.Success(Some(sig.calendar.inputHash))
    && sig.chains[0].time.Some? && sig.calendar.aggregationTime == sig.chains[0].time
  }

  /** The shape of the calendar chain denotes the aggregation time that it states. */
  predicate Timed(sig: Parts) {
    && sig.calendar.aggregationTime.Some?
    && CalendarChain.AggregationTime(Shape(sig.calendar.hashChain), sig.calendar.publicationTime) == Ok(sig.calendar.aggregationTime.value)
  }

  lemma RootStepsPass(h: Digest, sig: Parts, docLevel: int, given: Policy.Outcomes)
    ensures var o := Outcomes(h, sig, docLevel, given);
      o(AggregationInternally).Passes() && o(AggregationWithCalendar).Passes() <==> Rooted(h, sig, docLevel)
  {
    hide AggregationChains.Verify;
    var run := RootRun(sig, AggregationHash(h, sig, docLevel));
    if sig.chains != [] {
      var ok := AggregationHash(h, sig, docLevel) == Some(sig.calendar.inputHash)
        && AggregationChains.SameTime(sig.calendar.aggregationTime, sig.chains[0].time);
      if ok {
        assert run.results == [PASSED];
      } else {
        assert !run.results[0].0;
      }
    }
  }

  lemma RecordedPasses(ok: bool)
    ensures Recorded(ok).Passes() <==> ok
  {
    assert Recorded(ok).results[0].0 == ok;
  }

  lemma TimeStepPasses(h: Digest, sig: Parts, docLevel: int, given: Policy.Outcomes)
    ensures Outcomes(h, sig, docLevel, given)(CalendarInternally).Passes() <==> Timed(sig)
  {
    RecordedPasses(true);
    RecordedPasses(false);
    hide CalendarChain.AggregationTime, Recorded;
  }

  lemma PublishedStepPasses(h: Digest, sig: Parts, published: Option<Published>)
    ensures PublishedRun(h, sig, published).Passes() <==> published.Some? && LeadsTo(h, sig.calendar, published.value)
  {
    RecordedPasses(true);
    RecordedPasses(false);
    hide CalendarRoot, Recorded;
  }

  lemma OneEntry(entry: set<Step>, o: Policy.Outcomes)
    requires entry != {}
    ensures Accepted([entry], o) <==> Policy.AllPass(entry, o)
  {
    Policy.PolicyCorrect([entry], o);
    if Policy.AllPass(entry, o) {
      assert Policy.Accepts([entry], 0, o);
    }
  }

  /** The internal policy accepts exactly the signatures whose aggregation chains lead to the
      calendar chain, and whose calendar chain has the shape of its stated time. */
  lemma InternalExact(h: Digest, sig: Parts, docLevel: int, given: Policy.Outcomes)
    ensures Accepted(VP_INTERNAL, Outcomes(h, sig, docLevel, given)) <==> Rooted(h, sig, docLevel) && Timed(sig)
  {
    OneEntry(INTERNAL, Outcomes(h, sig, docLevel, given));
    RootStepsPass(h, sig, docLevel, given);
    TimeStepPasses(h, sig, docLevel, given);
    hide Outcomes, Rooted, Timed;
  }

  /** The three steps of the internal policy, one after the other. */
  function ThreeSteps(o: Policy.Outcomes): (Record, Option<Error>) {
    var r := Policy.AddAll(EMPTY, AggregationInternally, o(AggregationInternally).results);
    if o(AggregationInternally).error.Some? || r.failed != {} then (r, o(AggregationInternally).error)
    else
      var s := Policy.AddAll(r, CalendarInternally, o(CalendarInternally).results);
      if o(CalendarInternally).error.Some? || s.failed != {} then (s, o(CalendarInternally).error)
      else (Policy.AddAll(s, AggregationWithCalendar, o(AggregationWithCalendar).results), o(AggregationWithCalendar).error)
  }

  /** Behind the last step of the entry, and in front of the first, nothing is due. */
  lemma {:induction false} NothingDue(r: Record, entry: set<Step>, k: nat, n: nat, o: Policy.Outcomes)
    requires k <= n <= |Policy.ORDER| && forall j | k <= j < n :: Policy.ORDER[j] !in entry
    ensures Policy.Sweep(r, entry, k, o) == Policy.Sweep(r, entry, n, o)
    decreases n - k
  {
    if k < n {
      NothingDue(r, entry, k + 1, n, o);
    }
  }

  lemma SweepOne(r: Record, entry: set<Step>, k: nat, o: Policy.Outcomes)
    requires k < |Policy.ORDER| && Policy.ORDER[k] in entry && Policy.ORDER[k] !in r.performed && r.failed == {}
    ensures var run := o(Policy.ORDER[k]);
      var next := Policy.AddAll(r, Policy.ORDER[k], run.results);
      Policy.Sweep(r, entry, k, o) ==
      if run.error.Some? || next.failed != {} then (next, run.error) else Policy.Sweep(next, entry, k + 1, o)
  {
    var run := o(Policy.ORDER[k]);
    var next := Policy.AddAll(r, Policy.ORDER[k], run.results);
    if run.error == None && next.failed != {} {
      Policy.SweepAfterFailure(next, entry, k + 1, o);
    }
    hide Policy.AddAll;
  }

  lemma InternalSweep(o: Policy.Outcomes)
    ensures Policy.Sweep(EMPTY, INTERNAL, 0, o) == ThreeSteps(o)
  {
    hide Policy.Sweep, Policy.AddAll;
    NothingDue(EMPTY, INTERNAL, 0, 2, o);
    SweepOne(EMPTY, INTERNAL, 2, o);
    Policy.AddAllParts(EMPTY, AggregationInternally, o(AggregationInternally).results);
    var r := Policy.AddAll(EMPTY, AggregationInternally, o(AggregationInternally).results);
    if o(AggregationInternally).error == None && r.failed == {} {
      SweepOne(r, INTERNAL, 3, o);
      Policy.AddAllParts(r, CalendarInternally, o(CalendarInternally).results);
      var s := Policy.AddAll(r, CalendarInternally, o(CalendarInternally).results);
      if o(CalendarInternally).error == None && s.failed == {} {
        SweepOne(s, INTERNAL, 4, o);
        var t := Policy.AddAll(s, AggregationWithCalendar, o(AggregationWithCalendar).results);
        NothingDue(t, INTERNAL, 5, 11, o);
        SweepEnd(t, INTERNAL, o);
      }
    }
  }

  lemma SweepEnd(r: Record, entry: set<Step>, o: Policy.Outcomes)
    ensures Policy.Sweep(r, entry, 11, o) == (r, None)
  {
  }

  lemma OneResult(r: Record, step: Step, ok: bool)
    ensures Policy.AddAll(r, step, Recorded(ok).results) ==
      Record(r.performed + {step}, if ok then r.failed else r.failed + {step}, r.log + [StepResult(step, ok, "")])
  {
    var results := Recorded(ok).results;
    assert results[..0] == [] && results[0].0 == ok;
    assert Policy.AddAll(r, step, results[..0]) == r;
  }

  function FailureUnless(step: Step, ok: bool): seq<StepResult> {
    if ok then [] else [StepResult(step, false, "")]
  }

  lemma RootResults(r: Record, sig: Parts, hash: Option<Imprint>)
    requires sig.chains != [] && sig.calendar.aggregationTime.Some?
    ensures var sameHash, sameTime := hash == Some(sig.calendar.inputHash), sig.chains[0].time == sig.calendar.aggregationTime;
      && RootRun(sig, hash).error == None
      && Policy.AddAll(r, AggregationWithCalendar, RootRun(sig, hash).results) == Record(
           r.performed + {AggregationWithCalendar},
           if sameHash && sameTime then r.failed else r.failed + {AggregationWithCalendar},
           r.log + (FailureUnless(AggregationWithCalendar, sameHash) + FailureUnless(AggregationWithCalendar, sameTime)
                    + [StepResult(AggregationWithCalendar, true, "")]))
  {
    var sameHash, sameTime := hash == Some(sig.calendar.inputHash), sig.chains[0].time == sig.calendar.aggregationTime;
    var results := RootRun(sig, hash).results;
    Policy.AddAllParts(r, AggregationWithCalendar, results);
    if !(sameHash && sameTime) {
      assert !results[0].0;
    }
    assert Policy.Logged(AggregationWithCalendar, results) ==
      FailureUnless(AggregationWithCalendar, sameHash) + FailureUnless(AggregationWithCalendar, sameTime)
      + [StepResult(AggregationWithCalendar, true, "")];
    hide Policy.AddAll, Policy.Logged;
  }

  lemma InternalDecision(o: Policy.Outcomes)
    ensures var (r, error) := ThreeSteps(o);
      Policy.Decide(EMPTY, VP_INTERNAL, 0, o) == (r,
        if error.Some? then Err(error.value)
        else if r.failed * INTERNAL == {} && INTERNAL <= r.performed then Ok(())
        else Err(VerificationFailure))
  {
    InternalSweep(o);
    hide ThreeSteps, Policy.Sweep;
  }

  /** The record and the result code of the internal policy, for every signature: the aggregation
      chains come first, then the shape of the calendar chain, then the comparison of the two,
      and the first of them that is in error or fails is the last. */
  lemma InternalRecord(h: Digest, sig: Parts, docLevel: int, given: Policy.Outcomes)
    ensures var (r, res) := Policy.Decide(EMPTY, VP_INTERNAL, 0, Outcomes(h, sig, docLevel, given));
      var calendar := sig.calendar;
      match AggregationChains.Verify(h, sig.chains, docLevel)
      case Stopped(error) => r == EMPTY && res == Err(error)
      case Failure =>
        && r == Record({AggregationInternally}, {AggregationInternally}, [StepResult(AggregationInternally, false, "")])
        && res == Err(VerificationFailure)
      case Success(root) =>
        var first := [StepResult(AggregationInternally, true, "")];
        match CalendarChain.AggregationTime(Shape(calendar.hashChain), calendar.publicationTime)
        case Err(error) => r == Record({AggregationInternally}, {}, first) && res == Err(error)
        case Ok(time) =>
          var second := first + [StepResult(CalendarInternally, calendar.aggregationTime == Some(time), "")];
          if calendar.aggregationTime != Some(time) then
            && r == Record({AggregationInternally, CalendarInternally}, {CalendarInternally}, second)
            && res == Err(VerificationFailure)
          else if sig.chains == [] then
            && r == Record({AggregationInternally, CalendarInternally}, {}, second)
            && res == Err(BufferOverflow)
          else
            var sameHash, sameTime := root == Some(calendar.inputHash), sig.chains[0].time == calendar.aggregationTime;
            && r == Record({AggregationInternally, CalendarInternally, AggregationWithCalendar},
                           if sameHash && sameTime then {} else {AggregationWithCalendar},
                           second + (FailureUnless(AggregationWithCalendar, sameHash) + FailureUnless(AggregationWithCalendar, sameTime)
                                     + [StepResult(AggregationWithCalendar, true, "")]))
            && res == if sameHash && sameTime then Ok(()) else Err(VerificationFailure)
  {
    var o := Outcomes(h, sig, docLevel, given);
    InternalDecision(o);
    hide Policy.Decide, AggregationChains.Verify, CalendarChain.AggregationTime, Policy.AddAll, Recorded, Shape, RootRun, FailureUnless;
    NothingReported(EMPTY, AggregationInternally);
    FirstResult(true);
    FirstResult(false);
    NothingReported(AfterFirst(true), CalendarInternally);
    SecondResult(true);
    SecondResult(false);
    RecordedError(true);
    RecordedError(false);
    if o(AggregationInternally) == Recorded(true) && o(CalendarInternally) == Recorded(true) {
      NothingReported(AfterSecond(true), AggregationWithCalendar);
      if sig.chains != [] {
        ThirdResult(sig, AggregationHash(h, sig, docLevel));
        assert AfterSecond(true).log == [StepResult(AggregationInternally, true, "")] + [StepResult(CalendarInternally, true, "")];
        assert AggregationWithCalendar in {AggregationWithCalendar} * INTERNAL && {} * INTERNAL == {};
      } else {
        NoChains(sig, AggregationHash(h, sig, docLevel));
      }
    }
  }

  function AfterFirst(ok: bool): Record {
    Record({AggregationInternally}, if ok then {} else {AggregationInternally}, [StepResult(AggregationInternally, ok, "")])
  }

  function AfterSecond(ok: bool): Record {
    Record({AggregationInternally, CalendarInternally}, if ok then {} else {CalendarInternally},
           [StepResult(AggregationInternally, true, ""), StepResult(CalendarInternally, ok, "")])
  }

  lemma FirstResult(ok: bool)
    ensures Policy.AddAll(EMPTY, AggregationInternally, Recorded(ok).results) == AfterFirst(ok)
  {
    OneResult(EMPTY, AggregationInternally, ok);
    hide Policy.AddAll;
    assert {} + {AggregationInternally} == {AggregationInternally};
  }

  lemma SecondResult(ok: bool)
    ensures Policy.AddAll(AfterFirst(true), CalendarInternally, Recorded(ok).results) == AfterSecond(ok)
  {
    OneResult(AfterFirst(true), CalendarInternally, ok);
    hide Policy.AddAll;
    assert {AggregationInternally} + {CalendarInternally} == {AggregationInternally, CalendarInternally};
    assert {} + {CalendarInternally} == {CalendarInternally};
  }

  lemma ThirdResult(sig: Parts, hash: Option<Imprint>)
    requires sig.chains != [] && sig.calendar.aggregationTime.Some?
    ensures var sameHash, sameTime := hash == Some(sig.calendar.inputHash), sig.chains[0].time == sig.calendar.aggregationTime;
      && RootRun(sig, hash).error == None
      && Policy.AddAll(AfterSecond(true), AggregationWithCalendar, RootRun(sig, hash).results) == Record(
           {AggregationInternally, CalendarInternally, AggregationWithCalendar},
           if sameHash && sameTime then {} else {AggregationWithCalendar},
           AfterSecond(true).log + (FailureUnless(AggregationWithCalendar, sameHash)
             + FailureUnless(AggregationWithCalendar, sameTime) + [StepResult(AggregationWithCalendar, true, "")]))
  {
    RootResults(AfterSecond(true), sig, hash);
    hide Policy.AddAll, RootRun, FailureUnless;
    assert {AggregationInternally, CalendarInternally} + {AggregationWithCalendar} ==
      {AggregationInternally, CalendarInternally, AggregationWithCalendar};
    assert {} + {AggregationWithCalendar} == {AggregationWithCalendar};
  }

  lemma NothingReported(r: Record, step: Step)
    ensures Policy.AddAll(r, step, []) == r
  {
  }

  lemma RecordedError(ok: bool)
    ensures Recorded(ok).error == None && Recorded(ok).results == [(ok, "")]
  {
  }

  lemma NoChains(sig: Parts, hash: Option<Imprint>)
    requires sig.chains == []
    ensures RootRun(sig, hash) == Refused(BufferOverflow)
  {
  }

  /** Whatever a policy accepts passes all steps of one of its entries. */
  lemma AcceptingEntry(policy: Policy.Policy, o: Policy.Outcomes) returns (i: nat)
    requires Accepted(policy, o)
    ensures i < |policy| && Policy.AllPass(policy[i], o)
  {
    Policy.PolicyCorrect(policy, o);
    i :| 0 <= i < |policy| && Policy.Accepts(policy, i, o);
  }

  predicate AsksForInternal(policy: Policy.Policy) {
    forall i | 0 <= i < |policy| :: INTERNAL <= policy[i]
  }

  /** All policies of the library but one ask for the three internal steps in every entry. */
  lemma LibraryPolicies()
    ensures AsksForInternal(VP_INTERNAL) && AsksForInternal(VP_OFFLINE) && AsksForInternal(VP_ONLINE)
    ensures AsksForInternal(VP_SIGNATURE) && AsksForInternal(VP_DOCUMENT)
    ensures forall i | 0 <= i < |VP_PARANOID| :: CalendarInternally !in VP_PARANOID[i]
  {
  }

  /** Such a policy accepts only what the internal policy accepts. */
  lemma AcceptedIsInternallySound(policy: Policy.Policy, h: Digest, sig: Parts, docLevel: int, given: Policy.Outcomes)
    requires AsksForInternal(policy)
    requires Accepted(policy, Outcomes(h, sig, docLevel, given))
    ensures Accepted(VP_INTERNAL, Outcomes(h, sig, docLevel, given))
  {
    var i := AcceptingEntry(policy, Outcomes(h, sig, docLevel, given));
    OneEntry(INTERNAL, Outcomes(h, sig, docLevel, given));
  }

  // ---- what each policy accepts --------------------------------------------------------------

  lemma EntryPasses(base: set<Step>, more: set<Step>, o: Policy.Outcomes)
    ensures Policy.AllPass(base + more, o) <==> Policy.AllPass(base, o) && Policy.AllPass(more, o)
    ensures Policy.AllPass(base, o) ==> (Policy.NoBadStep(base + more, o) <==> Policy.NoBadStep(more, o))
  {
    forall step: Step
      ensures o(step).Passes() ==> !o(step).Bad()
    {
      Policy.SomeResult(o(step));
    }
  }

  lemma PassingIsNotBad(entry: set<Step>, o: Policy.Outcomes)
    ensures Policy.AllPass(entry, o) ==> Policy.NoBadStep(entry, o)
  {
    EntryPasses(entry, {}, o);
    assert entry + {} == entry;
  }

  /** One way of proving the calendar chain after another: its authentication record; the
      publication string; the publications file; the extender. A way is tried only if nothing
      has gone wrong before. */
  predicate FirstThreeWays(o: Policy.Outcomes) {
    || (o(CalendarWithAuthRec).Passes() && o(AuthRecWithSignature).Passes())
    || (&& !o(CalendarWithAuthRec).Bad() && !o(AuthRecWithSignature).Bad()
        && o(CalendarWithPublication).Passes()
        && (o(PublicationWithString).Passes() || (!o(PublicationWithString).Bad() && o(PublicationWithFile).Passes())))
  }

  predicate NothingWrong(o: Policy.Outcomes) {
    && !o(CalendarWithAuthRec).Bad() && !o(AuthRecWithSignature).Bad() && !o(CalendarWithPublication).Bad()
    && !o(PublicationWithString).Bad() && !o(PublicationWithFile).Bad()
  }

  /** The first three entries, over the steps that all of them ask for. */
  predicate HasThreeWays(policy: Policy.Policy, base: set<Step>) {
    && |policy| >= 3
    && policy[0] == base + {CalendarWithAuthRec, AuthRecWithSignature}
    && policy[1] == base + {CalendarWithPublication, PublicationWithString}
    && policy[2] == base + {CalendarWithPublication, PublicationWithFile}
  }

  lemma ThreeWays(policy: Policy.Policy, base: set<Step>, o: Policy.Outcomes)
    requires HasThreeWays(policy, base)
    ensures Policy.Accepts(policy, 0, o) || Policy.Accepts(policy, 1, o) || Policy.Accepts(policy, 2, o) <==>
      Policy.AllPass(base, o) && FirstThreeWays(o)
    ensures Policy.AllPass(base, o) ==>
      (Policy.NoBadStep(policy[0], o) && Policy.NoBadStep(policy[1], o) && Policy.NoBadStep(policy[2], o) <==> NothingWrong(o))
  {
    EntryPasses(base, {CalendarWithAuthRec, AuthRecWithSignature}, o);
    EntryPasses(base, {CalendarWithPublication, PublicationWithString}, o);
    EntryPasses(base, {CalendarWithPublication, PublicationWithFile}, o);
    PassingIsNotBad(policy[0], o);
    PassingIsNotBad(policy[1], o);
    PassingIsNotBad(policy[2], o);
    FirstEntries(policy, o);
  }

  lemma FirstEntries(policy: Policy.Policy, o: Policy.Outcomes)
    requires |policy| >= 3
    ensures Policy.Accepts(policy, 0, o) <==> Policy.AllPass(policy[0], o) && Policy.NoBadStep(policy[0], o)
    ensures Policy.Accepts(policy, 1, o) <==>
      Policy.AllPass(policy[1], o) && Policy.NoBadStep(policy[0], o) && Policy.NoBadStep(policy[1], o)
    ensures Policy.Accepts(policy, 2, o) <==>
      && Policy.AllPass(policy[2], o)
      && Policy.NoBadStep(policy[0], o) && Policy.NoBadStep(policy[1], o) && Policy.NoBadStep(policy[2], o)
  {
    hide Policy.AllPass, Policy.NoBadStep;
  }

  lemma AcceptedThree(policy: Policy.Policy, base: set<Step>, o: Policy.Outcomes)
    requires |policy| == 3 && HasThreeWays(policy, base)
    ensures Accepted(policy, o) <==> Policy.AllPass(base, o) && FirstThreeWays(o)
  {
    Policy.PolicyCorrect(policy, o);
    ThreeWays(policy, base, o);
    hide Policy.Accepts, FirstThreeWays, HasThreeWays, Policy.AllPass;
    if Accepted(policy, o) {
      var i :| 0 <= i < |policy| && Policy.Accepts(policy, i, o);
      assert i == 0 || i == 1 || i == 2;
    }
  }

  lemma AcceptedFour(policy: Policy.Policy, base: set<Step>, last: set<Step>, o: Policy.Outcomes)
    requires |policy| == 4 && HasThreeWays(policy, base) && policy[3] == base + last
    ensures Accepted(policy, o) <==>
      Policy.AllPass(base, o) && (FirstThreeWays(o) || (NothingWrong(o) && Policy.AllPass(last, o)))
  {
    Policy.PolicyCorrect(policy, o);
    ThreeWays(policy, base, o);
    EntryPasses(base, last, o);
    PassingIsNotBad(policy[3], o);
    FourthEntry(policy, o);
    hide Policy.Accepts, FirstThreeWays, HasThreeWays, Policy.AllPass, NothingWrong, Policy.NoBadStep;
    if Accepted(policy, o) {
      var i :| 0 <= i < |policy| && Policy.Accepts(policy, i, o);
      assert i == 0 || i == 1 || i == 2 || i == 3;
    }
  }

  lemma FourthEntry(policy: Policy.Policy, o: Policy.Outcomes)
    requires |policy| == 4
    ensures Policy.Accepts(policy, 3, o) <==>
      && Policy.AllPass(policy[3], o) && Policy.NoBadStep(policy[0], o) && Policy.NoBadStep(policy[1], o)
      && Policy.NoBadStep(policy[2], o) && Policy.NoBadStep(policy[3], o)
  {
    hide Policy.AllPass, Policy.NoBadStep;
  }

  predicate InternalPasses(o: Policy.Outcomes) {
    o(AggregationInternally).Passes() && o(CalendarInternally).Passes() && o(AggregationWithCalendar).Passes()
  }

  lemma OfflineExact(o: Policy.Outcomes)
    ensures Accepted(VP_OFFLINE, o) <==> InternalPasses(o) && FirstThreeWays(o)
  {
    AcceptedThree(VP_OFFLINE, INTERNAL, o);
    hide Accepted, FirstThreeWays;
  }

  lemma OnlineExact(o: Policy.Outcomes)
    ensures Accepted(VP_ONLINE, o) <==> InternalPasses(o) && o(CalendarOnline).Passes()
  {
    OneEntry(WITH_ONLINE, o);
    hide Accepted;
  }

  lemma SignatureExact(o: Policy.Outcomes)
    ensures Accepted(VP_SIGNATURE, o) <==>
      InternalPasses(o) && (FirstThreeWays(o) || (NothingWrong(o) && o(CalendarOnline).Passes()))
  {
    AcceptedFour(VP_SIGNATURE, INTERNAL, {CalendarOnline}, o);
    hide Accepted, FirstThreeWays, NothingWrong;
  }

  lemma DocumentExact(o: Policy.Outcomes)
    ensures Accepted(VP_DOCUMENT, o) <==>
      && o(Document).Passes() && InternalPasses(o)
      && (FirstThreeWays(o) || (NothingWrong(o) && o(CalendarOnline).Passes()))
  {
    var base := {Document} + INTERNAL;
    assert VP_DOCUMENT[0] == base + {CalendarWithAuthRec, AuthRecWithSignature};
    assert VP_DOCUMENT[1] == base + {CalendarWithPublication, PublicationWithString};
    assert VP_DOCUMENT[2] == base + {CalendarWithPublication, PublicationWithFile};
    assert VP_DOCUMENT[3] == base + {CalendarOnline};
    AcceptedFour(VP_DOCUMENT, base, {CalendarOnline}, o);
    hide Accepted, FirstThreeWays, NothingWrong;
  }

  /** The paranoid policy asks for the extender in every entry, and never for the time step. */
  lemma ParanoidExact(o: Policy.Outcomes)
    ensures Accepted(VP_PARANOID, o) <==>
      && o(PublicationsFileSignature).Passes() && o(AggregationInternally).Passes() && o(AggregationWithCalendar).Passes()
      && o(CalendarOnline).Passes() && (FirstThreeWays(o) || NothingWrong(o))
  {
    assert VP_PARANOID[3] == PARANOID_BASE + {};
    AcceptedFour(VP_PARANOID, PARANOID_BASE, {}, o);
    hide Accepted, FirstThreeWays, NothingWrong;
  }

  lemma PublishedSteps(h: Digest, sig: Parts, docLevel: int, given: Policy.Outcomes)
    ensures var o := Outcomes(h, sig, docLevel, given);
      && (o(CalendarWithAuthRec).Passes() <==> sig.authRec.Some? && LeadsTo(h, sig.calendar, sig.authRec.value))
      && (o(CalendarWithPublication).Passes() <==> sig.publication.Some? && LeadsTo(h, sig.calendar, sig.publication.value))
      && o(AuthRecWithSignature) == given(AuthRecWithSignature)
      && o(PublicationWithString) == given(PublicationWithString) && o(PublicationWithFile) == given(PublicationWithFile)
  {
    PublishedStepPasses(h, sig, sig.authRec);
    PublishedStepPasses(h, sig, sig.publication);
    hide LeadsTo, PublishedRun;
  }

  lemma OfflineEntries(o: Policy.Outcomes)
    requires Accepted(VP_OFFLINE, o)
    ensures || (o(CalendarWithAuthRec).Passes() && o(AuthRecWithSignature).Passes())
            || (o(CalendarWithPublication).Passes() && (o(PublicationWithString).Passes() || o(PublicationWithFile).Passes()))
  {
    var i := AcceptingEntry(VP_OFFLINE, o);
    hide Accepted;
    if i == 0 {
      assert CalendarWithAuthRec in VP_OFFLINE[0] && AuthRecWithSignature in VP_OFFLINE[0];
    } else {
      assert CalendarWithPublication in VP_OFFLINE[i];
      assert (if i == 1 then PublicationWithString else PublicationWithFile) in VP_OFFLINE[i];
    }
  }

  /** The offline policy moreover accepts only calendar chains that lead to the authentication
      record or to the publication of the signature. */
  lemma OfflineLeadsToPublication(h: Digest, sig: Parts, docLevel: int, given: Policy.Outcomes)
    requires Accepted(VP_OFFLINE, Outcomes(h, sig, docLevel, given))
    ensures Rooted(h, sig, docLevel) && Timed(sig)
    ensures || (sig.authRec.Some? && LeadsTo(h, sig.calendar, sig.authRec.value) && given(AuthRecWithSignature).Passes())
            || (sig.publication.Some? && LeadsTo(h, sig.calendar, sig.publication.value)
                && (given(PublicationWithString).Passes() || given(PublicationWithFile).Passes()))
  {
    hide *;
    LibraryPolicies();
    AcceptedIsInternallySound(VP_OFFLINE, h, sig, docLevel, given);
    InternalExact(h, sig, docLevel, given);
    OfflineEntries(Outcomes(h, sig, docLevel, given));
    PublishedSteps(h, sig, docLevel, given);
  }

  lemma ParanoidFirstEntry(o: Policy.Outcomes)
    ensures Policy.Accepts(VP_PARANOID, 0, o) <==>
      && o(PublicationsFileSignature).Passes() && o(AggregationInternally).Passes() && o(AggregationWithCalendar).Passes()
      && o(CalendarOnline).Passes() && o(CalendarWithAuthRec).Passes() && o(AuthRecWithSignature).Passes()
  {
    assert VP_PARANOID[0] == {PublicationsFileSignature, AggregationInternally, AggregationWithCalendar, CalendarOnline,
      CalendarWithAuthRec, AuthRecWithSignature};
    assert Policy.Accepts(VP_PARANOID, 0, o) <==> Policy.AllPass(VP_PARANOID[0], o);
  }

  /** The first entry of the paranoid policy passes whatever the calendar chain's shape says about
      its time: no step of it compares the two. */
  lemma ParanoidIgnoresTime(h: Digest, sig: Parts, docLevel: int, given: Policy.Outcomes)
    ensures Policy.Accepts(VP_PARANOID, 0, Outcomes(h, sig, docLevel, given)) <==>
      && Rooted(h, sig, docLevel) && sig.authRec.Some? && LeadsTo(h, sig.calendar, sig.authRec.value)
      && given(PublicationsFileSignature).Passes() && given(AuthRecWithSignature).Passes() && given(CalendarOnline).Passes()
  {
    ParanoidFirstEntry(Outcomes(h, sig, docLevel, given));
    RootStepsPass(h, sig, docLevel, given);
    PublishedStepPasses(h, sig, sig.authRec);
    hide LeadsTo, PublishedRun, Rooted, AggregationRun, RootRun, Policy.Accepts;
  }

  // ---- binding -------------------------------------------------------------------------------

  /** Two calendar chains hash different strings to one digest at link i. */
  predicate CalendarsCollide(h: Digest, a: CalendarHashChain, b: CalendarHashChain, i: nat) {
    var n := |a.hashChain|;
    && i < n == |b.hashChain|
    && FirstError(CalendarTask(a), n) == None && FirstError(CalendarTask(b), n) == None
    && PathsCollide(h, Layers(CalendarTask(a), n), a.inputHash, Layers(CalendarTask(b), n), b.inputHash, i)
  }

  /** The publication and aggregation times leave no choice of the shape. */
  lemma SameTimesSameShape(s: Parts, t: Parts)
    requires Timed(s) && Timed(t)
    requires s.calendar.publicationTime == t.calendar.publicationTime && s.calendar.aggregationTime == t.calendar.aggregationTime
    ensures Shape(s.calendar.hashChain) == Shape(t.calendar.hashChain)
  {
    var p, a := s.calendar.publicationTime, s.calendar.aggregationTime.value;
    if p == 0 || p >= INT64_LIMIT {
      CalendarChain.NoShapeOutsideRange(p, Shape(s.calendar.hashChain));
    } else {
      CalendarChain.ShapesBijection(p, Shape(s.calendar.hashChain), a);
      CalendarChain.ShapesBijection(p, Shape(t.calendar.hashChain), a);
    }
  }

  /** Two calendar chains that lead to one publication and state one aggregation time, each with
      the shape of that time, are the same, up to a collision. */
  lemma CalendarBinding(h: Digest, s: Parts, t: Parts, published: Published) returns (i: nat)
    requires Timed(s) && Timed(t) && s.calendar.aggregationTime == t.calendar.aggregationTime
    requires LeadsTo(h, s.calendar, published) && LeadsTo(h, t.calendar, published)
    ensures || (s.calendar.inputHash == t.calendar.inputHash && s.calendar.hashChain == t.calendar.hashChain)
            || CalendarsCollide(h, s.calendar, t.calendar, i)
  {
    SameTimesSameShape(s, t);
    var a, b := s.calendar, t.calendar;
    var n := |a.hashChain|;
    assert n == |Shape(a.hashChain)| == |Shape(b.hashChain)| == |b.hashChain|;
    assert n > 0;
    var p, q := CalendarTask(a), CalendarTask(b);
    forall k | 0 <= k < n
      ensures ComparableLinks(p.chain[k], q.chain[k])
    {
      assert Shape(a.hashChain)[k] == Shape(b.hashChain)[k];
    }
    i := MerkleBinding(h, p, q);
    hide Root, Layers, PathsCollide;
    if a.inputHash == b.inputHash && forall k | 0 <= k < n :: Sibling(p.chain[k]) == Sibling(q.chain[k]) {
      forall k | 0 <= k < n
        ensures a.hashChain[k] == b.hashChain[k]
      {
        assert Sibling(p.chain[k]) == Sibling(q.chain[k]) && Shape(a.hashChain)[k] == Shape(b.hashChain)[k];
      }
    }
  }

  /** Two signatures hash different strings to one digest in the run over all their aggregation
      chains. */
  predicate AggregationsCollide(h: Digest, a: Task, b: Task, i: nat) {
    var n := |a.chain|;
    && i < n == |b.chain|
    && FirstError(a, n) == None && FirstError(b, n) == None
    && PathsCollide(h, Layers(a, n), a.input, Layers(b, n), b.input, i)
  }

  /** All links of a signature's aggregation chains as one aggregation. */
  function WholeAggregation(sig: Parts, docLevel: int): Task
    requires sig.chains != []
  {
    AggregationChains.WholeTask(sig.chains, docLevel, |sig.chains|)
  }

  predicate ComparableTasks(a: Task, b: Task) {
    |a.chain| == |b.chain| && forall k | 0 <= k < |a.chain| :: ComparableLinks(a.chain[k], b.chain[k])
  }

  /** A rooted signature without empty chains and with one hash algorithm is a single hash tree
      path from its document hash to the input of its calendar chain. */
  lemma RootedIsOnePath(h: Digest, sig: Parts, docLevel: int)
    requires Rooted(h, sig, docLevel)
    requires AggregationChains.OneAlgorithm(sig.chains) && AggregationChains.NoneEmpty(sig.chains)
    ensures var whole := WholeAggregation(sig, docLevel);
      && whole.chain != [] && whole.input == sig.chains[0].input
      && Aggregate(h, whole).Ok? && Aggregate(h, whole).value.hash == Some(sig.calendar.inputHash)
  {
    hide Aggregate;
    AggregationChains.ChainsCompose(h, sig.chains, docLevel);
    AggregationChains.PrefixComposes(h, sig.chains, docLevel, |sig.chains|);
  }

  /** Two signatures that lead to one publication from one aggregation round sign the same
      document hash with the same siblings, if their aggregation paths have one shape; or else a
      collision of the hash function can be read off the two signatures. */
  lemma DocumentBinding(h: Digest, s: Parts, t: Parts, level: int, other: int, published: Published) returns (i: nat)
    requires Rooted(h, s, level) && Rooted(h, t, other) && Timed(s) && Timed(t)
    requires LeadsTo(h, s.calendar, published) && LeadsTo(h, t.calendar, published)
    requires s.calendar.aggregationTime == t.calendar.aggregationTime
    requires AggregationChains.OneAlgorithm(s.chains) && AggregationChains.NoneEmpty(s.chains)
    requires AggregationChains.OneAlgorithm(t.chains) && AggregationChains.NoneEmpty(t.chains)
    requires ComparableTasks(WholeAggregation(s, level), WholeAggregation(t, other))
    ensures var a, b := WholeAggregation(s, level), WholeAggregation(t, other);
      || (&& s.chains[0].input == t.chains[0].input && s.calendar.hashChain == t.calendar.hashChain
          && forall k | 0 <= k < |a.chain| :: Sibling(a.chain[k]) == Sibling(b.chain[k]))
      || CalendarsCollide(h, s.calendar, t.calendar, i)
      || AggregationsCollide(h, a, b, i)
  {
    RootedIsOnePath(h, s, level);
    RootedIsOnePath(h, t, other);
    i := CalendarBinding(h, s, t, published);
    if s.calendar.inputHash == t.calendar.inputHash && s.calendar.hashChain == t.calendar.hashChain {
      var a, b := WholeAggregation(s, level), WholeAggregation(t, other);
      hide Rooted, Timed, LeadsTo, WholeAggregation, CalendarsCollide, PathsCollide, Layers;
      i := MerkleBinding(h, a, b);
    }
  }
}
