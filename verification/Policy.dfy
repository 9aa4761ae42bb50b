/** The engine that runs verification steps as policies ask for them. */
module Policy {
  import opened Common
  import opened Verification

  /** What a step does when it is executed: the results that it records, in order, and the error
      that it then returns, if any. A step that does not apply records nothing. */
  datatype StepRun = StepRun(results: seq<(bool, string)>, error: Option<Error>) {
    predicate Passes() {
      error == None && results != [] && forall i | 0 <= i < |results| :: results[i].0
    }

    predicate Fails() {
      exists i :: 0 <= i < |results| && !results[i].0
    }

    predicate Bad() {
      error.Some? || Fails()
    }
  }

  /** The outcome of every step, fixed for one run of the engine. */
  type Outcomes = Step -> StepRun

  /** No step records more results than its code can. */
  ghost predicate Bounded(o: Outcomes) {
    forall step: Step :: |o(step).results| <= Allowance(step)
  }

  /** Each entry is a bitmap of steps; an empty one would end the list. */
  type Policy = p: seq<set<Step>> | forall i | 0 <= i < |p| :: p[i] != {}

  /** The fixed order in which the steps of an entry are considered. */
  const ORDER: seq<Step> := [
    PublicationsFileSignature, Document, AggregationInternally, CalendarInternally, AggregationWithCalendar,
    CalendarWithAuthRec, AuthRecWithSignature, CalendarWithPublication, PublicationWithString,
    PublicationWithFile, CalendarOnline]

  // ---- what the engine does ------------------------------------------------------------------

  /** A step is due when the entry asks for it, it was not performed yet, and nothing has failed. */
  predicate Due(r: Record, entry: set<Step>, step: Step) {
    step in entry && step !in r.performed && r.failed == {}
  }

  function AddAll(r: Record, step: Step, results: seq<(bool, string)>): Record {
    if results == [] then r
    else
      var n := |results| - 1;
      Added(AddAll(r, step, results[..n]), StepResult(step, results[n].0, results[n].1))
  }

  /** The steps from the k-th on, in order, up to an error. */
  function Sweep(r: Record, entry: set<Step>, k: nat, o: Outcomes): (Record, Option<Error>)
    requires k <= |ORDER|
    decreases |ORDER| - k
  {
    if k == |ORDER| then (r, None)
    else if !Due(r, entry, ORDER[k]) then Sweep(r, entry, k + 1, o)
    else
      var next := AddAll(r, ORDER[k], o(ORDER[k]).results);
      if o(ORDER[k]).error.Some? then (next, o(ORDER[k]).error) else Sweep(next, entry, k + 1, o)
  }

  /** The entries from the i-th on. */
  function Decide(r: Record, policy: Policy, i: nat, o: Outcomes): (Record, Result<()>)
    requires i <= |policy|
    decreases |policy| - i
  {
    if i == |policy| then (r, Err(VerificationFailure))
    else
      var (next, error) := Sweep(r, policy[i], 0, o);
      if error.Some? then (next, Err(error.value))
      else if next.failed * policy[i] != {} then (next, Err(VerificationFailure))
      else if policy[i] <= next.performed then (next, Ok(()))
      else Decide(next, policy, i + 1, o)
  }

  method RunStep(info: VerificationResult, step: Step, run: StepRun)
    requires info.Room() && info.stepsLen + |run.results| <= MAX_STEP_RESULTS
    modifies info, info.steps
    ensures info.Room() && info.Contents() == AddAll(old(info.Contents()), step, run.results)
    ensures info.stepsLen == old(info.stepsLen) + |run.results|
  {
    for j := 0 to |run.results|
      invariant info.Room() && info.stepsLen == old(info.stepsLen) + j
      invariant info.Contents() == AddAll(old(info.Contents()), step, run.results[..j])
    {
      assert run.results[..j + 1][..j] == run.results[..j] && run.results[..j + 1][j] == run.results[j];
      info.AddVerificationStepResult(step, run.results[j].1, run.results[j].0);
    }
    assert run.results[..|run.results|] == run.results;
  }

  /** One pass over all steps for one entry of a policy. */
  method RunEntry(info: VerificationResult, entry: set<Step>, o: Outcomes) returns (error: Option<Error>)
    requires info.Valid() && Bounded(o)
    modifies info, info.steps
    ensures info.Valid()
    ensures (info.Contents(), error) == Sweep(old(info.Contents()), entry, 0, o)
  {
    for k := 0 to |ORDER|
      invariant info.Valid()
      invariant Sweep(old(info.Contents()), entry, 0, o) == Sweep(info.Contents(), entry, k, o)
    {
      var step := ORDER[k];
      if step in entry && step !in info.stepsPerformed && info.stepsFailed == {} {
        LogIsBounded(info.Contents());
        StaysConsistent(info.Contents(), step, o);
        RunStep(info, step, o(step));
        if o(step).error.Some? {
          return o(step).error;
        }
      }
    }
    return None;
  }

  method VerifyPolicy(info: VerificationResult, policy: Policy, o: Outcomes) returns (res: Result<()>)
    requires info.Valid() && Bounded(o)
    modifies info, info.steps
    ensures info.Valid()
    ensures (info.Contents(), res) == Decide(old(info.Contents()), policy, 0, o)
  {
    for i := 0 to |policy|
      invariant info.Valid()
      invariant Decide(old(info.Contents()), policy, 0, o) == Decide(info.Contents(), policy, i, o)
    {
      var pol := policy[i];
      var error := RunEntry(info, pol, o);
      if error.Some? {
        return Err(error.value);
      }
      if info.stepsFailed * pol != {} {
        return Err(VerificationFailure);
      }
      if pol <= info.stepsPerformed {
        return Ok(());
      }
    }
    return Err(VerificationFailure);
  }

  // ---- the log -------------------------------------------------------------------------------

  predicate SomeFailed(results: seq<(bool, string)>) {
    exists i :: 0 <= i < |results| && !results[i].0
  }

  function Logged(step: Step, results: seq<(bool, string)>): (log: seq<StepResult>)
    ensures |log| == |results|
  {
    seq(|results|, i requires 0 <= i < |results| => StepResult(step, results[i].0, results[i].1))
  }

  /** What a step leaves in the record. */
  lemma {:induction false} AddAllParts(r: Record, step: Step, results: seq<(bool, string)>)
    ensures AddAll(r, step, results) == Record(
      if results == [] then r.performed else r.performed + {step},
      if SomeFailed(results) then r.failed + {step} else r.failed,
      r.log + Logged(step, results))
    decreases |results|
  {
    if results == [] {
      assert r.log + Logged(step, results) == r.log;
    } else {
      var n := |results| - 1;
      AddAllParts(r, step, results[..n]);
      SomeFailedLast(results);
      assert Logged(step, results) == Logged(step, results[..n]) + [StepResult(step, results[n].0, results[n].1)];
    }
  }

  lemma SomeFailedLast(results: seq<(bool, string)>)
    requires results != []
    ensures var n := |results| - 1; SomeFailed(results) <==> SomeFailed(results[..n]) || !results[n].0
  {
    var n := |results| - 1;
    if i :| 0 <= i < n && !results[i].0 {
      assert !results[..n][i].0;
    }
  }

  lemma ResultsStayLogged(r: Record, step: Step, results: seq<(bool, string)>)
    requires Consistent(r)
    ensures var a := AddAll(r, step, results);
      && a.failed <= a.performed
      && (forall i | 0 <= i < |a.log| :: a.log[i].step in a.performed && (!a.log[i].succeeded ==> a.log[i].step in a.failed))
  {
    var a := AddAll(r, step, results);
    AddAllParts(r, step, results);
    forall i | |r.log| <= i < |a.log|
      ensures a.log[i].step == step && (!a.log[i].succeeded ==> SomeFailed(results))
    {
      assert a.log[i] == Logged(step, results)[i - |r.log|];
    }
  }

  lemma FailuresStayLogged(r: Record, step: Step, results: seq<(bool, string)>)
    requires Consistent(r)
    ensures forall s <- AddAll(r, step, results).failed :: FailureLogged(AddAll(r, step, results).log, s)
  {
    var log := AddAll(r, step, results).log;
    AddAllParts(r, step, results);
    forall s <- r.failed
      ensures FailureLogged(log, s)
    {
      var i :| 0 <= i < |r.log| && r.log[i].step == s && !r.log[i].succeeded;
      assert log[i] == r.log[i];
    }
    if i :| 0 <= i < |results| && !results[i].0 {
      assert log[|r.log| + i] == StepResult(step, false, results[i].1);
      assert FailureLogged(log, step);
    }
  }

  /** Executing a due step keeps the record consistent, and so within its array. */
  lemma StaysConsistent(r: Record, step: Step, o: Outcomes)
    requires Consistent(r) && Bounded(o) && step !in r.performed && r.failed == {}
    ensures Consistent(AddAll(r, step, o(step).results))
    ensures |AddAll(r, step, o(step).results).log| <= 13
  {
    var results := o(step).results;
    AddAllParts(r, step, results);
    ResultsStayLogged(r, step, results);
    FailuresStayLogged(r, step, results);
    hide AddAll, Logged, FailureLogged;
    assert |results| <= Allowance(step);
    assert |r.performed + {step}| == |r.performed| + 1;
    LogIsBounded(AddAll(r, step, results));
  }

  /** All results of some steps, one step after the other. */
  function Flat(ran: seq<Step>, o: Outcomes): seq<StepResult> {
    if ran == [] then []
    else Flat(ran[..|ran| - 1], o) + Logged(ran[|ran| - 1], o(ran[|ran| - 1]).results)
  }

  /** The log holds every recorded step in one piece, from a single execution. */
  predicate RanOnce(r: Record, ran: seq<Step>, o: Outcomes) {
    && (forall i, j | 0 <= i < j < |ran| :: ran[i] != ran[j])
    && r.performed == (set step | step in ran)
    && r.log == Flat(ran, o)
  }

  lemma StepRanOnce(r: Record, ran: seq<Step>, step: Step, o: Outcomes) returns (more: seq<Step>)
    requires RanOnce(r, ran, o) && step !in r.performed
    ensures RanOnce(AddAll(r, step, o(step).results), more, o)
  {
    var results := o(step).results;
    AddAllParts(r, step, results);
    if results == [] {
      assert r.log + Logged(step, results) == r.log;
      more := ran;
    } else {
      more := ran + [step];
      assert more[..|ran|] == ran;
    }
  }

  lemma {:induction false} SweepRanOnce(r: Record, ran: seq<Step>, entry: set<Step>, k: nat, o: Outcomes) returns (more: seq<Step>)
    requires k <= |ORDER| && RanOnce(r, ran, o)
    ensures RanOnce(Sweep(r, entry, k, o).0, more, o)
    decreases |ORDER| - k
  {
    hide RanOnce, AddAll;
    if k == |ORDER| {
      more := ran;
    } else if !Due(r, entry, ORDER[k]) {
      more := SweepRanOnce(r, ran, entry, k + 1, o);
    } else {
      more := StepRanOnce(r, ran, ORDER[k], o);
      if o(ORDER[k]).error == None {
        more := SweepRanOnce(AddAll(r, ORDER[k], o(ORDER[k]).results), more, entry, k + 1, o);
      }
    }
  }

  lemma {:induction false} DecideRanOnce(r: Record, ran: seq<Step>, policy: Policy, i: nat, o: Outcomes) returns (more: seq<Step>)
    requires i <= |policy| && RanOnce(r, ran, o)
    ensures RanOnce(Decide(r, policy, i, o).0, more, o)
    decreases |policy| - i
  {
    hide RanOnce, Sweep;
    more := ran;
    if i < |policy| {
      var next := Sweep(r, policy[i], 0, o);
      more := SweepRanOnce(r, ran, policy[i], 0, o);
      if next.1 == None && next.0.failed * policy[i] == {} && !(policy[i] <= next.0.performed) {
        more := DecideRanOnce(next.0, more, policy, i + 1, o);
      }
    }
  }

  /** Every step of a run from a fresh result is recorded in one execution only. */
  lemma EveryStepRecordedOnce(policy: Policy, o: Outcomes) returns (ran: seq<Step>)
    ensures RanOnce(Decide(EMPTY, policy, 0, o).0, ran, o)
  {
    ran := DecideRanOnce(EMPTY, [], policy, 0, o);
  }

  // ---- the verdict ---------------------------------------------------------------------------

  /** The first step of an entry, in order, that fails or returns an error. */
  function FirstBad(entry: set<Step>, k: nat, o: Outcomes): Option<Step>
    requires k <= |ORDER|
    decreases |ORDER| - k
  {
    if k == |ORDER| then None
    else if ORDER[k] in entry && o(ORDER[k]).Bad() then Some(ORDER[k])
    else FirstBad(entry, k + 1, o)
  }

  predicate AllPass(entry: set<Step>, o: Outcomes) {
    forall step <- entry :: o(step).Passes()
  }

  /** The verdict without any record: the first entry with a bad step refuses, and the first
      entry whose steps all pass accepts. */
  function Verdict(policy: Policy, i: nat, o: Outcomes): Result<()>
    requires i <= |policy|
    decreases |policy| - i
  {
    if i == |policy| then Err(VerificationFailure)
    else
      match FirstBad(policy[i], 0, o)
      case Some(step) => Err(if o(step).error.Some? then o(step).error.value else VerificationFailure)
      case None => if AllPass(policy[i], o) then Ok(()) else Verdict(policy, i + 1, o)
  }

  /** Nothing has failed so far, and what was performed passed. */
  predicate Clean(r: Record, o: Outcomes) {
    r.failed == {} && forall step <- r.performed :: o(step).Passes()
  }

  predicate InOrder(step: Step, k: nat) {
    exists j :: k <= j < |ORDER| && ORDER[j] == step
  }

  lemma EveryStepInOrder(step: Step)
    ensures InOrder(step, 0)
  {
    match step
    case PublicationsFileSignature => assert ORDER[0] == step;
    case Document => assert ORDER[1] == step;
    case AggregationInternally => assert ORDER[2] == step;
    case CalendarInternally => assert ORDER[3] == step;
    case AggregationWithCalendar => assert ORDER[4] == step;
    case CalendarWithAuthRec => assert ORDER[5] == step;
    case AuthRecWithSignature => assert ORDER[6] == step;
    case CalendarWithPublication => assert ORDER[7] == step;
    case PublicationWithString => assert ORDER[8] == step;
    case PublicationWithFile => assert ORDER[9] == step;
    case CalendarOnline => assert ORDER[10] == step;
  }

  /** Once a step has failed, nothing more is executed. */
  lemma {:induction false} SweepAfterFailure(r: Record, entry: set<Step>, k: nat, o: Outcomes)
    requires k <= |ORDER| && r.failed != {}
    ensures Sweep(r, entry, k, o) == (r, None)
    decreases |ORDER| - k
  {
    if k < |ORDER| {
      SweepAfterFailure(r, entry, k + 1, o);
    }
  }

  lemma InOrderNext(step: Step, k: nat)
    requires k < |ORDER|
    ensures InOrder(step, k) <==> step == ORDER[k] || InOrder(step, k + 1)
  {
    if j :| k <= j < |ORDER| && ORDER[j] == step {
      assert j == k || k + 1 <= j;
    }
  }

  /** A sweep without a bad step: it has performed exactly what passes. */
  ghost predicate Swept(r: Record, entry: set<Step>, k: nat, o: Outcomes, next: Record) {
    && Clean(next, o)
    && forall step: Step ::
        step in next.performed <==> step in r.performed || (step in entry && InOrder(step, k) && o(step).Passes())
  }

  /** A sweep that came to a bad step. */
  predicate Stopped(entry: set<Step>, step: Step, o: Outcomes, next: Record, error: Option<Error>) {
    step in entry && o(step).Bad() && error == o(step).error && (error == None ==> step in next.failed)
  }

  /** Executing one due step that is not bad. */
  lemma GoodStep(r: Record, step: Step, o: Outcomes)
    requires Clean(r, o) && !o(step).Bad()
    ensures var next := AddAll(r, step, o(step).results);
      Clean(next, o) && next.performed == if o(step).Passes() then r.performed + {step} else r.performed
  {
    AddAllParts(r, step, o(step).results);
  }

  /** The sweep over one entry ends at its first bad step, or has performed all that passes. */
  lemma {:induction false} SweepVerdict(r: Record, entry: set<Step>, k: nat, o: Outcomes)
    requires k <= |ORDER| && Clean(r, o)
    ensures var (next, error) := Sweep(r, entry, k, o);
      match FirstBad(entry, k, o)
      case Some(step) => Stopped(entry, step, o, next, error)
      case None => error == None && Swept(r, entry, k, o, next)
    decreases |ORDER| - k
  {
    hide ORDER;
    if k < |ORDER| {
      var step := ORDER[k];
      var results := o(step).results;
      forall s: Step
        ensures InOrder(s, k) <==> s == step || InOrder(s, k + 1)
      {
        InOrderNext(s, k);
      }
      if step in entry && o(step).Bad() {
        var next := AddAll(r, step, results);
        AddAllParts(r, step, results);
        if o(step).error == None {
          SweepAfterFailure(next, entry, k + 1, o);
        }
      } else if !Due(r, entry, step) {
        SweepVerdict(r, entry, k + 1, o);
      } else {
        GoodStep(r, step, o);
        SweepVerdict(AddAll(r, step, results), entry, k + 1, o);
      }
    }
  }

  lemma {:induction false} NoneBad(entry: set<Step>, k: nat, o: Outcomes)
    requires k <= |ORDER|
    ensures FirstBad(entry, k, o) == None <==> forall step <- entry :: InOrder(step, k) ==> !o(step).Bad()
    decreases |ORDER| - k
  {
    hide ORDER;
    if k < |ORDER| {
      NoneBad(entry, k + 1, o);
      forall s: Step
        ensures InOrder(s, k) <==> s == ORDER[k] || InOrder(s, k + 1)
      {
        InOrderNext(s, k);
      }
    }
  }

  /** The engine gives the verdict of the reference, whatever it has already performed. */
  lemma {:induction false} DecideIsVerdict(r: Record, policy: Policy, i: nat, o: Outcomes)
    requires i <= |policy| && Clean(r, o)
    ensures Decide(r, policy, i, o).1 == Verdict(policy, i, o)
    decreases |policy| - i
  {
    hide Sweep, FirstBad, InOrder;
    if i < |policy| {
      var entry := policy[i];
      SweepVerdict(r, entry, 0, o);
      var next := Sweep(r, entry, 0, o).0;
      if FirstBad(entry, 0, o) == None {
        forall step <- entry
          ensures step in next.performed <==> o(step).Passes()
        {
          EveryStepInOrder(step);
        }
        DecideIsVerdict(next, policy, i + 1, o);
      } else {
        var step := FirstBad(entry, 0, o).value;
        assert o(step).error == None ==> step in next.failed * entry;
      }
    }
  }

  // ---- the order -----------------------------------------------------------------------------

  /** The place of a step in the engine's sequence of tests. */
  function Place(step: Step): nat {
    match step
    case PublicationsFileSignature => 0
    case Document => 1
    case AggregationInternally => 2
    case CalendarInternally => 3
    case AggregationWithCalendar => 4
    case CalendarWithAuthRec => 5
    case AuthRecWithSignature => 6
    case CalendarWithPublication => 7
    case PublicationWithString => 8
    case PublicationWithFile => 9
    case CalendarOnline => 10
  }

  lemma PlaceInOrder(k: nat)
    requires k < |ORDER|
    ensures Place(ORDER[k]) == k
  {
    assert k == 0 || k == 1 || k == 2 || k == 3 || k == 4 || k == 5 || k == 6 || k == 7 || k == 8 || k == 9 || k == 10;
  }

  predicate NoTrace(r: Record, step: Step) {
    step !in r.performed && step !in r.failed && forall i | 0 <= i < |r.log| :: r.log[i].step != step
  }

  lemma OtherStepLeavesNoTrace(r: Record, step: Step, other: Step, results: seq<(bool, string)>)
    requires NoTrace(r, step) && other != step
    ensures NoTrace(AddAll(r, other, results), step)
  {
    AddAllParts(r, other, results);
    hide AddAll;
  }

  lemma {:induction false} SweepStopsBefore(r: Record, entry: set<Step>, k: nat, o: Outcomes, a: Step, b: Step)
    requires k <= Place(a) < Place(b) && a in entry && o(a).Bad()
    requires r.failed == {} && a !in r.performed && NoTrace(r, b)
    ensures NoTrace(Sweep(r, entry, k, o).0, b)
    decreases |ORDER| - k
  {
    assert |ORDER| == 11;
    hide ORDER, Place, NoTrace, AddAll;
    PlaceInOrder(k);
    PlaceInjective(a, ORDER[k]);
    PlaceInjective(b, ORDER[k]);
    var step := ORDER[k];
    var next := AddAll(r, step, o(step).results);
    OtherStepLeavesNoTrace(r, b, step, o(step).results);
    AddAllParts(r, step, o(step).results);
    if !Due(r, entry, step) {
      SweepStopsBefore(r, entry, k + 1, o, a, b);
    } else if next.failed != {} {
      SweepAfterFailure(next, entry, k + 1, o);
    } else if o(step).error == None {
      SweepStopsBefore(next, entry, k + 1, o, a, b);
    }
  }

  lemma PlaceInjective(a: Step, b: Step)
    ensures Place(a) == Place(b) <==> a == b
  {
  }

  /** Behind a bad step of an entry no later step leaves a trace, whatever the entry asks for, and
      the policy ends there. */
  lemma NothingBehindBadStep(policy: Policy, i: nat, r: Record, o: Outcomes, a: Step, b: Step)
    requires i < |policy| && a in policy[i] && o(a).Bad() && Place(a) < Place(b)
    requires Clean(r, o) && NoTrace(r, b)
    ensures NoTrace(Sweep(r, policy[i], 0, o).0, b)
    ensures Decide(r, policy, i, o).0 == Sweep(r, policy[i], 0, o).0 && Decide(r, policy, i, o).1.Err?
  {
    SomeResult(o(a));
    SweepStopsBefore(r, policy[i], 0, o, a, b);
    SweepVerdict(r, policy[i], 0, o);
    FirstBadFindsAll(policy[i], o);
    var step := FirstBad(policy[i], 0, o).value;
    var next := Sweep(r, policy[i], 0, o).0;
    assert o(step).error == None ==> step in next.failed * policy[i];
    hide Sweep, FirstBad;
  }

  lemma SomeResult(run: StepRun)
    ensures run.Bad() ==> !run.Passes()
  {
  }

  predicate NoBadStep(entry: set<Step>, o: Outcomes) {
    forall step <- entry :: !o(step).Bad()
  }

  lemma FirstBadFindsAll(entry: set<Step>, o: Outcomes)
    ensures FirstBad(entry, 0, o) == None <==> NoBadStep(entry, o)
  {
    NoneBad(entry, 0, o);
    forall step <- entry
      ensures InOrder(step, 0)
    {
      EveryStepInOrder(step);
    }
  }

  /** Entry i accepts: all its steps pass, and no entry up to it has a bad step. */
  predicate Accepts(policy: Policy, i: nat, o: Outcomes)
    requires i < |policy|
  {
    AllPass(policy[i], o) && forall k | 0 <= k <= i :: NoBadStep(policy[k], o)
  }

  lemma {:induction false} VerdictAccepts(policy: Policy, i: nat, o: Outcomes)
    requires i <= |policy| && forall k | 0 <= k < i :: NoBadStep(policy[k], o)
    ensures Verdict(policy, i, o) == Ok(()) <==> exists n :: i <= n < |policy| && Accepts(policy, n, o)
    decreases |policy| - i
  {
    if i < |policy| {
      FirstBadFindsAll(policy[i], o);
      hide FirstBad, NoBadStep, AllPass;
      if FirstBad(policy[i], 0, o) == None && !AllPass(policy[i], o) {
        VerdictAccepts(policy, i + 1, o);
      } else if FirstBad(policy[i], 0, o) == None {
        assert Accepts(policy, i, o);
      }
    }
  }

  /** Verification of a policy from a fresh result succeeds exactly when some entry has only
      passing steps and neither it nor an entry before it has a failing or erroneous one. */
  lemma PolicyCorrect(policy: Policy, o: Outcomes)
    ensures Decide(EMPTY, policy, 0, o).1 == Verdict(policy, 0, o)
    ensures Decide(EMPTY, policy, 0, o).1 == Ok(()) <==> exists i :: 0 <= i < |policy| && Accepts(policy, i, o)
  {
    DecideIsVerdict(EMPTY, policy, 0, o);
    VerdictAccepts(policy, 0, o);
  }
}
