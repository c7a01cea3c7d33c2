/**
  `LemonTestResult` (lemontest/__init__.py:126-142): a unittest result whose
  error and failure callbacks are swallowed and whose success callback
  records a failure, so that the run is unsuccessful exactly when a selected
  test passed.  Stream output of the base result class is not modelled.
*/
module Results {
  import opened Suites

  /** How one test ended, as the host reports it to the result. */
  datatype Outcome = Passed | Failed | Errored

  class LemonTestResult {
    /** Set by the runner; read by the `failfast` decorator. */
    const failfast: bool
    var failures: seq<(Test, string)>
    var errors: seq<(Test, string)>
    var shouldStop: bool
    var mirrorOutput: bool

    /** A fresh result, as `TestResult.__init__` leaves it. */
    constructor (failfast: bool)
      ensures this.failfast == failfast
      ensures failures == [] && errors == [] && !shouldStop && !mirrorOutput
    {
      this.failfast := failfast;
      failures := [];
      errors := [];
      shouldStop := false;
      mirrorOutput := false;
    }

    /** `wasSuccessful`: no failure and no error was recorded. */
    predicate WasSuccessful()
      reads this
    {
      failures == [] && errors == []
    }

    /** `addError` under `@failfast`: records nothing; stops the run when
        `failfast` is on. */
    method AddError(test: Test, err: string)
      modifies this`shouldStop
      ensures shouldStop == (old(shouldStop) || failfast)
    {
      if failfast {
        shouldStop := true;
      }
    }

    /** `addFailure` under `@failfast`: the same as `addError`. */
    method AddFailure(test: Test, err: string)
      modifies this`shouldStop
      ensures shouldStop == (old(shouldStop) || failfast)
    {
      if failfast {
        shouldStop := true;
      }
    }

    /** `addSuccess`: the passing test is recorded as a failure with an empty
        traceback, and its captured output is to be mirrored. */
    method AddSuccess(test: Test)
      modifies this`failures, this`mirrorOutput
      ensures failures == old(failures) + [(test, "")]
      ensures mirrorOutput
    {
      failures := failures + [(test, "")];
      mirrorOutput := true;
    }

    /** The host calling back for each test that ran, in order. */
    method Report(outcomes: seq<(Test, Outcome)>)
      modifies this`failures, this`mirrorOutput, this`shouldStop
      ensures failures == old(failures) + PassedEntries(outcomes)
      ensures shouldStop == (old(shouldStop) || (failfast && exists k :: 0 <= k < |outcomes| && outcomes[k].1 != Passed))
      ensures mirrorOutput == (old(mirrorOutput) || PassedEntries(outcomes) != [])
    {
      var k := 0;
      while k < |outcomes|
        invariant 0 <= k <= |outcomes|
        invariant failures == old(failures) + PassedEntries(outcomes[..k])
        invariant shouldStop == (old(shouldStop) || (failfast && exists j :: 0 <= j < k && outcomes[j].1 != Passed))
        invariant mirrorOutput == (old(mirrorOutput) || PassedEntries(outcomes[..k]) != [])
      {
        assert outcomes[..k + 1][..k] == outcomes[..k];
        var (test, outcome) := outcomes[k];
        match outcome {
          case Passed => AddSuccess(test);
          case Failed => AddFailure(test, "");
          case Errored => AddError(test, "");
        }
        k := k + 1;
      }
      assert outcomes[..k] == outcomes;
    }
  }

  /** What `addSuccess` appends for the outcomes, in order. */
  function PassedEntries(outcomes: seq<(Test, Outcome)>): seq<(Test, string)>
  {
    if outcomes == [] then []
    else
      var (test, outcome) := outcomes[|outcomes| - 1];
      PassedEntries(outcomes[..|outcomes| - 1]) + (if outcome == Passed then [(test, "")] else [])
  }

  /** A test appears among the failures exactly when it passed, and always with
      an empty traceback: a test that failed or errored is never reported. */
  lemma {:induction false} PassedEntriesAreThePasses(outcomes: seq<(Test, Outcome)>, t: Test, d: string)
    ensures (t, d) in PassedEntries(outcomes)
            <==> d == "" && exists k :: 0 <= k < |outcomes| && outcomes[k] == (t, Passed)
  {
    if outcomes != [] {
      var init := outcomes[..|outcomes| - 1];
      PassedEntriesAreThePasses(init, t, d);
      if exists k :: 0 <= k < |outcomes| && outcomes[k] == (t, Passed) {
        var k :| 0 <= k < |outcomes| && outcomes[k] == (t, Passed);
        if k < |init| {
          assert init[k] == outcomes[k];
        }
      }
      if exists k :: 0 <= k < |init| && init[k] == (t, Passed) {
        var k :| 0 <= k < |init| && init[k] == (t, Passed);
        assert outcomes[k] == init[k];
      }
    }
  }

  /** Starting from a fresh result, the run is unsuccessful exactly when at
      least one test passed. */
  lemma {:induction false} UnsuccessfulIffSomeTestPassed(outcomes: seq<(Test, Outcome)>)
    ensures PassedEntries(outcomes) == [] <==> forall k :: 0 <= k < |outcomes| ==> outcomes[k].1 != Passed
  {
    if outcomes != [] {
      var init := outcomes[..|outcomes| - 1];
      UnsuccessfulIffSomeTestPassed(init);
      assert forall k :: 0 <= k < |init| ==> init[k] == outcomes[k];
    }
  }

  /** A run of the selected tests against the reverted code: its verdict. */
  method RunVerdict(failfast: bool, outcomes: seq<(Test, Outcome)>) returns (successful: bool)
    ensures successful <==> forall k :: 0 <= k < |outcomes| ==> outcomes[k].1 != Passed
  {
    var result := new LemonTestResult(failfast);
    result.Report(outcomes);
    UnsuccessfulIffSomeTestPassed(outcomes);
    successful := result.WasSuccessful();
  }
}
