/** The record of verification steps, kept in two sets and a fixed array. */
module Verification {
  import opened Common

  datatype Step =
    | Document
    | AggregationInternally
    | AggregationWithCalendar
    | CalendarInternally
    | CalendarWithAuthRec
    | CalendarWithPublication
    | CalendarOnline
    | AuthRecWithSignature
    | PublicationsFileSignature
    | PublicationWithFile
    | PublicationWithString

  const ALL_STEPS: set<Step> := {
    Document, AggregationInternally, AggregationWithCalendar, CalendarInternally, CalendarWithAuthRec,
    CalendarWithPublication, CalendarOnline, AuthRecWithSignature, PublicationsFileSignature,
    PublicationWithFile, PublicationWithString}

  datatype StepResult = StepResult(step: Step, succeeded: bool, description: string)

  const MAX_STEP_RESULTS: nat := 32

  /** The value of a verification result: the bitmaps as sets, and the log. */
  datatype Record = Record(performed: set<Step>, failed: set<Step>, log: seq<StepResult>)

  const EMPTY := Record({}, {}, [])

  function Added(r: Record, result: StepResult): Record {
    Record(r.performed + {result.step}, if result.succeeded then r.failed else r.failed + {result.step}, r.log + [result])
  }

  /** How many results one execution of the step may record: the comparison of the aggregation
      root notes two different failures and then still a success. */
  function Allowance(step: Step): nat {
    if step.AggregationWithCalendar? then 3 else 1
  }

  function TotalAllowance(steps: set<Step>): nat {
    |steps| + if AggregationWithCalendar in steps then 2 else 0
  }

  predicate FailureLogged(log: seq<StepResult>, step: Step) {
    exists i :: 0 <= i < |log| && log[i].step == step && !log[i].succeeded
  }

  /** What holds of a record after any sequence of runs. */
  predicate Consistent(r: Record) {
    && r.failed <= r.performed
    && |r.log| <= TotalAllowance(r.performed)
    && (forall step <- r.failed :: FailureLogged(r.log, step))
    && (forall i | 0 <= i < |r.log| :: r.log[i].step in r.performed && (!r.log[i].succeeded ==> r.log[i].step in r.failed))
  }

  lemma EveryStep(step: Step)
    ensures step in ALL_STEPS
  {
    match step
    case Document =>
    case AggregationInternally =>
    case AggregationWithCalendar =>
    case CalendarInternally =>
    case CalendarWithAuthRec =>
    case CalendarWithPublication =>
    case CalendarOnline =>
    case AuthRecWithSignature =>
    case PublicationsFileSignature =>
    case PublicationWithFile =>
    case PublicationWithString =>
  }

  lemma AllStepsCounted(steps: set<Step>)
    ensures steps <= ALL_STEPS && |steps| <= 11
  {
    forall step <- steps
      ensures step in ALL_STEPS
    {
      EveryStep(step);
    }
    SubsetSmaller(steps, ALL_STEPS);
  }

  lemma {:induction false} SubsetSmaller<T>(a: set<T>, b: set<T>)
    requires a <= b
    ensures |a| <= |b|
  {
    if x :| x in a {
      SubsetSmaller(a - {x}, b - {x});
    }
  }

  /** A consistent log fills at most 13 of its 32 slots. */
  lemma LogIsBounded(r: Record)
    requires Consistent(r)
    ensures |r.log| <= 13 < MAX_STEP_RESULTS
  {
    AllStepsCounted(r.performed);
  }

  class VerificationResult {
    var stepsPerformed: set<Step>
    var stepsFailed: set<Step>
    const steps: array<StepResult>
    var stepsLen: nat

    predicate Room()
      reads this
    {
      steps.Length == MAX_STEP_RESULTS && stepsLen <= MAX_STEP_RESULTS
    }

    function Contents(): Record
      reads this, steps
      requires Room()
    {
      Record(stepsPerformed, stepsFailed, steps[..stepsLen])
    }

    ghost predicate Valid()
      reads this, steps
    {
      Room() && Consistent(Contents())
    }

    constructor ()
      ensures Valid() && fresh(steps) && Contents() == EMPTY
    {
      stepsPerformed, stepsFailed := {}, {};
      steps := new StepResult[MAX_STEP_RESULTS](_ => StepResult(Document, false, ""));
      stepsLen := 0;
    }

    /** The array keeps its old entries; only the length says that they are gone. */
    method Reset()
      requires Room()
      modifies this
      ensures Valid() && Contents() == EMPTY
    {
      stepsFailed := {};
      stepsPerformed := {};
      stepsLen := 0;
    }

    method AddVerificationStepResult(step: Step, desc: string, succeeded: bool)
      requires Room() && stepsLen < MAX_STEP_RESULTS
      modifies this, steps
      ensures Room() && stepsLen == old(stepsLen) + 1
      ensures Contents() == Added(old(Contents()), StepResult(step, succeeded, desc))
    {
      if !succeeded {
        stepsFailed := stepsFailed + {step};
      }
      stepsPerformed := stepsPerformed + {step};
      steps[stepsLen] := StepResult(step, succeeded, desc);
      stepsLen := stepsLen + 1;
    }

    /** The bound test lets the index just behind the last result through; it is still a slot of
        the array. */
    method GetStepResult(index: nat) returns (res: Result<StepResult>)
      requires Valid()
      ensures res.Ok? <==> index <= stepsLen
      ensures index < stepsLen ==> res == Ok(Contents().log[index])
    {
      LogIsBounded(Contents());
      if index > stepsLen {
        return Err(InvalidArgument);
      }
      return Ok(steps[index]);
    }

    predicate IsStepPerformed(step: Step)
      reads this
    {
      step in stepsPerformed
    }

    predicate IsStepSuccess(step: Step)
      reads this
    {
      IsStepPerformed(step) && step !in stepsFailed
    }

    /** The description of the last failure; there is one exactly when a step has failed. */
    method LastFailureMessage() returns (msg: Option<string>)
      requires Valid()
      ensures msg == LastFailure(Contents().log)
      ensures msg.Some? <==> stepsFailed != {}
      ensures msg.Some? ==> exists i :: IsLastFailure(Contents().log, i) && Contents().log[i].description == msg.value
    {
      msg := None;
      NoFailureNoMessage(Contents());
      LastFailureDescribed(Contents().log);
      if stepsLen == 0 || stepsFailed == {} {
        return;
      }
      var i := stepsLen;
      while i > 0
        invariant 0 <= i <= stepsLen
        invariant LastFailure(steps[..stepsLen]) == LastFailure(steps[..i])
      {
        assert steps[..i][..i - 1] == steps[..i - 1];
        if !steps[i - 1].succeeded {
          return Some(steps[i - 1].description);
        }
        i := i - 1;
      }
    }
  }

  function LastFailure(log: seq<StepResult>): Option<string> {
    if log == [] then None
    else
      var last := log[|log| - 1];
      if last.succeeded then LastFailure(log[..|log| - 1]) else Some(last.description)
  }

  predicate IsLastFailure(log: seq<StepResult>, i: int) {
    0 <= i < |log| && !log[i].succeeded && forall j | i < j < |log| :: log[j].succeeded
  }

  /** The message is the description of the failure that no other one follows. */
  lemma {:induction false} LastFailureIsLast(log: seq<StepResult>, message: string)
    ensures LastFailure(log) == Some(message) <==> exists i :: IsLastFailure(log, i) && log[i].description == message
    ensures LastFailure(log) == None <==> forall i | 0 <= i < |log| :: log[i].succeeded
  {
    if log != [] {
      var n := |log| - 1;
      var rest := log[..n];
      LastFailureIsLast(rest, message);
      if !log[n].succeeded {
        assert IsLastFailure(log, n);
      } else {
        forall i
          ensures IsLastFailure(rest, i) <==> IsLastFailure(log, i)
        {
          if IsLastFailure(log, i) {
            assert forall j | i < j < n :: rest[j] == log[j];
          }
        }
        assert forall i | 0 <= i < n :: rest[i] == log[i];
      }
    }
  }

  lemma LastFailureDescribed(log: seq<StepResult>)
    ensures LastFailure(log).Some? ==> exists i :: IsLastFailure(log, i) && log[i].description == LastFailure(log).value
  {
    if LastFailure(log).Some? {
      LastFailureIsLast(log, LastFailure(log).value);
    }
  }

  lemma {:induction false} LastFailureExists(log: seq<StepResult>)
    ensures LastFailure(log).Some? <==> exists i :: 0 <= i < |log| && !log[i].succeeded
  {
    if log != [] {
      var n := |log| - 1;
      LastFailureExists(log[..n]);
      if LastFailure(log).Some? {
        if !log[n].succeeded {
        } else {
          var i :| 0 <= i < n && !log[..n][i].succeeded;
          assert !log[i].succeeded;
        }
      }
      if i :| 0 <= i < |log| && !log[i].succeeded {
        if i < n {
          assert !log[..n][i].succeeded;
        }
      }
    }
  }

  /** Any failed bit means that there is a failure message, and the other way round. */
  lemma NoFailureNoMessage(r: Record)
    requires Consistent(r)
    ensures LastFailure(r.log).Some? <==> r.failed != {}
  {
    LastFailureExists(r.log);
    if step :| step in r.failed {
      assert FailureLogged(r.log, step);
    }
  }
}
