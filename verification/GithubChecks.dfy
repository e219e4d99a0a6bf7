/** GitHub's three CI signals folded into one reading for the merge gate. */
module GithubChecks {
  import opened Common
  import opened PrShared

  datatype CombinedStatus = CombinedStatus(state: string, totalCount: nat)

  datatype CheckRun = CheckRun(status: string, conclusion: Option<string>)

  datatype WorkflowRun = WorkflowRun(workflowId: int, status: string, conclusion: Option<string>)

  /** What one run says: green stands for a run that does not block. */
  function Outcome(status: string, conclusion: Option<string>): CheckState {
    if status != "completed" then Pending
    else if conclusion.Some? && conclusion.value in ["success", "neutral", "skipped"] then Green
    else Failing
  }

  function CheckRunOutcome(run: CheckRun): CheckState {
    Outcome(run.status, run.conclusion)
  }

  function WorkflowRunOutcome(run: WorkflowRun): CheckState {
    Outcome(run.status, run.conclusion)
  }

  /** Run `i` is its workflow's newest: the list is newest first. */
  predicate IsLatest(runs: seq<WorkflowRun>, i: nat)
    requires i < |runs|
  {
    forall j | 0 <= j < i :: runs[j].workflowId != runs[i].workflowId
  }

  /** The newest runs among the first `k`, in list order. */
  function LatestRuns(runs: seq<WorkflowRun>, k: nat): seq<WorkflowRun>
    requires k <= |runs|
  {
    if k == 0 then []
    else LatestRuns(runs, k - 1) + (if IsLatest(runs, k - 1) then [runs[k - 1]] else [])
  }

  /** The source's filter: one pass with a set of workflow ids already seen. */
  method LatestRunsPerWorkflow(runs: seq<WorkflowRun>) returns (r: seq<WorkflowRun>)
    ensures r == LatestRuns(runs, |runs|)
  {
    var seen: set<int> := {};
    r := [];
    for k := 0 to |runs|
      invariant seen == set j | 0 <= j < k :: runs[j].workflowId
      invariant r == LatestRuns(runs, k)
    {
      if runs[k].workflowId !in seen {
        r := r + [runs[k]];
        seen := seen + {runs[k].workflowId};
      }
    }
  }

  function Outcomes(checkRuns: seq<CheckRun>, workflowRuns: seq<WorkflowRun>): seq<CheckState> {
    seq(|checkRuns|, i requires 0 <= i < |checkRuns| => CheckRunOutcome(checkRuns[i])) +
    seq(|workflowRuns|, i requires 0 <= i < |workflowRuns| => WorkflowRunOutcome(workflowRuns[i]))
  }

  function GithubChecksState(combined: CombinedStatus, checkRuns: seq<CheckRun>,
                             workflowRuns: seq<WorkflowRun>): CheckState {
    var outcomes := Outcomes(checkRuns, workflowRuns);
    if Failing in outcomes then Failing
    else if combined.totalCount > 0 && combined.state != "success" && combined.state != "pending" then Failing
    else if Pending in outcomes then Pending
    else if combined.totalCount > 0 && combined.state == "pending" then Pending
    else Green
  }

  /** The whole reading; a failed workflow-run request counts as no workflow runs. */
  function GithubChecksStatus(combined: CombinedStatus, checkRuns: seq<CheckRun>,
                              workflowRuns: Option<seq<WorkflowRun>>): ChecksStatus {
    var latest := if workflowRuns.Some? then LatestRuns(workflowRuns.value, |workflowRuns.value|) else [];
    ChecksStatus(true, GithubChecksState(combined, checkRuns, latest))
  }

  // ------------------------------------------------------------------ meaning

  /** A run blocks as pending until it is completed, and as failing unless its conclusion is one of three. */
  predicate Says(status: string, conclusion: Option<string>, state: CheckState) {
    var fine := conclusion == Some("success") || conclusion == Some("neutral") || conclusion == Some("skipped");
    match state
    case Pending => status != "completed"
    case Failing => status == "completed" && !fine
    case Green => status == "completed" && fine
  }

  lemma OutcomeExact(status: string, conclusion: Option<string>, state: CheckState)
    ensures Outcome(status, conclusion) == state <==> Says(status, conclusion, state)
  {
  }

  /** Some check run, newest workflow run or the commit status says `state`. */
  ghost predicate SomeSignal(combined: CombinedStatus, checkRuns: seq<CheckRun>, runs: seq<WorkflowRun>,
                             state: CheckState) {
    || (exists i :: 0 <= i < |checkRuns| && Says(checkRuns[i].status, checkRuns[i].conclusion, state))
    || (exists i :: 0 <= i < |runs| && Says(runs[i].status, runs[i].conclusion, state)
                    && forall j :: 0 <= j < i ==> runs[j].workflowId != runs[i].workflowId)
    || (combined.totalCount > 0 &&
          match state
          case Green => combined.state == "success"
          case Pending => combined.state == "pending"
          case Failing => combined.state != "success" && combined.state != "pending")
  }

  /** Every kept run is the newest of its workflow, and every newest run is kept. */
  lemma {:induction false} KeptIsLatest(runs: seq<WorkflowRun>, k: nat, i: nat) returns (j: nat)
    requires k <= |runs| && i < |LatestRuns(runs, k)|
    ensures j < k && IsLatest(runs, j) && LatestRuns(runs, k)[i] == runs[j]
  {
    if i < |LatestRuns(runs, k - 1)| {
      j := KeptIsLatest(runs, k - 1, i);
    } else {
      j := k - 1;
    }
  }

  lemma {:induction false} LatestIsKept(runs: seq<WorkflowRun>, k: nat, j: nat) returns (i: nat)
    requires j < k <= |runs| && IsLatest(runs, j)
    ensures i < |LatestRuns(runs, k)| && LatestRuns(runs, k)[i] == runs[j]
  {
    if j < k - 1 {
      i := LatestIsKept(runs, k - 1, j);
    } else {
      i := |LatestRuns(runs, k - 1)|;
    }
  }

  lemma LatestHas(runs: seq<WorkflowRun>, state: CheckState)
    ensures var kept := LatestRuns(runs, |runs|);
      (exists i :: 0 <= i < |kept| && WorkflowRunOutcome(kept[i]) == state) <==>
      (exists j :: 0 <= j < |runs| && IsLatest(runs, j) && WorkflowRunOutcome(runs[j]) == state)
  {
    var kept := LatestRuns(runs, |runs|);
    if i :| 0 <= i < |kept| && WorkflowRunOutcome(kept[i]) == state {
      var j := KeptIsLatest(runs, |runs|, i);
    }
    if j :| 0 <= j < |runs| && IsLatest(runs, j) && WorkflowRunOutcome(runs[j]) == state {
      var i := LatestIsKept(runs, |runs|, j);
    }
  }

  lemma OutcomesHave(checkRuns: seq<CheckRun>, workflowRuns: seq<WorkflowRun>, state: CheckState)
    ensures state in Outcomes(checkRuns, workflowRuns) <==>
            || (exists i :: 0 <= i < |checkRuns| && CheckRunOutcome(checkRuns[i]) == state)
            || (exists i :: 0 <= i < |workflowRuns| && WorkflowRunOutcome(workflowRuns[i]) == state)
  {
    var os := Outcomes(checkRuns, workflowRuns);
    if i :| 0 <= i < |checkRuns| && CheckRunOutcome(checkRuns[i]) == state {
      assert os[i] == state;
    }
    if i :| 0 <= i < |workflowRuns| && WorkflowRunOutcome(workflowRuns[i]) == state {
      assert os[|checkRuns| + i] == state;
    }
    if state in os {
      var i :| 0 <= i < |os| && os[i] == state;
      if i >= |checkRuns| {
        assert WorkflowRunOutcome(workflowRuns[i - |checkRuns|]) == state;
      }
    }
  }

  /**
    Failing beats pending beats green over all three signals, counting only each
    workflow's newest run: green exactly when nothing fails and nothing is pending.
    A failed request for workflow runs counts as none of them.
   */
  lemma ReadingIsTheWorstSignal(combined: CombinedStatus, checkRuns: seq<CheckRun>,
                                workflowRuns: Option<seq<WorkflowRun>>)
    ensures var r := GithubChecksStatus(combined, checkRuns, workflowRuns);
      var runs := if workflowRuns == None then [] else workflowRuns.value;
      && r.supported
      && (r.state == Failing <==> SomeSignal(combined, checkRuns, runs, Failing))
      && (r.state == Green <==> !SomeSignal(combined, checkRuns, runs, Failing)
                                && !SomeSignal(combined, checkRuns, runs, Pending))
  {
    var runs := if workflowRuns == None then [] else workflowRuns.value;
    SignalsExact(combined, checkRuns, runs, Failing);
    SignalsExact(combined, checkRuns, runs, Pending);
  }

  /** The outcomes looked at are the signals of the runs, whichever state is asked for. */
  lemma SignalsExact(combined: CombinedStatus, checkRuns: seq<CheckRun>, runs: seq<WorkflowRun>, state: CheckState)
    ensures state in Outcomes(checkRuns, LatestRuns(runs, |runs|)) <==>
      || (exists i :: 0 <= i < |checkRuns| && Says(checkRuns[i].status, checkRuns[i].conclusion, state))
      || (exists i :: 0 <= i < |runs| && Says(runs[i].status, runs[i].conclusion, state)
                      && forall j :: 0 <= j < i ==> runs[j].workflowId != runs[i].workflowId)
  {
    OutcomesHave(checkRuns, LatestRuns(runs, |runs|), state);
    LatestHas(runs, state);
    forall i | 0 <= i < |checkRuns|
      ensures CheckRunOutcome(checkRuns[i]) == state <==> Says(checkRuns[i].status, checkRuns[i].conclusion, state)
    {
      OutcomeExact(checkRuns[i].status, checkRuns[i].conclusion, state);
    }
    forall i | 0 <= i < |runs|
      ensures WorkflowRunOutcome(runs[i]) == state <==> Says(runs[i].status, runs[i].conclusion, state)
      ensures IsLatest(runs, i) <==> forall j :: 0 <= j < i ==> runs[j].workflowId != runs[i].workflowId
    {
      OutcomeExact(runs[i].status, runs[i].conclusion, state);
    }
  }

  /** What a green reading rules out, said of the runs themselves. */
  lemma GreenMeansAllDone(combined: CombinedStatus, checkRuns: seq<CheckRun>, runs: seq<WorkflowRun>)
    requires GithubChecksStatus(combined, checkRuns, Some(runs)).state == Green
    ensures forall i :: 0 <= i < |checkRuns| ==>
      && checkRuns[i].status == "completed"
      && checkRuns[i].conclusion in {Some("success"), Some("neutral"), Some("skipped")}
    ensures forall i :: (0 <= i < |runs| && forall j :: 0 <= j < i ==> runs[j].workflowId != runs[i].workflowId) ==>
      && runs[i].status == "completed"
      && runs[i].conclusion in {Some("success"), Some("neutral"), Some("skipped")}
    ensures combined.totalCount > 0 ==> combined.state == "success"
  {
    ReadingIsTheWorstSignal(combined, checkRuns, Some(runs));
    forall i | 0 <= i < |checkRuns|
      ensures Says(checkRuns[i].status, checkRuns[i].conclusion, Green)
    {
      assert !Says(checkRuns[i].status, checkRuns[i].conclusion, Failing);
      assert !Says(checkRuns[i].status, checkRuns[i].conclusion, Pending);
    }
    forall i | 0 <= i < |runs| && forall j :: 0 <= j < i ==> runs[j].workflowId != runs[i].workflowId
      ensures Says(runs[i].status, runs[i].conclusion, Green)
    {
      assert !Says(runs[i].status, runs[i].conclusion, Failing);
      assert !Says(runs[i].status, runs[i].conclusion, Pending);
    }
  }
}
