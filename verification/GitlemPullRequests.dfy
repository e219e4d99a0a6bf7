/**
  Pull request and CI operations of the gitlem provider client, over every run
  that interleaves them with the other document operations. A merge or close
  looks its number up in one transaction and writes in a later one, so those
  steps take an arbitrary number.
 */
module GitlemPullRequests {
  import opened Common
  import opened GitlemDoc
  import opened PrShared

  predicate Matches(pr: PullRequest, head: string, base: string) {
    pr.head == head && pr.base == base
  }

  predicate IsOpenFor(pr: PullRequest, head: string, base: string) {
    Matches(pr, head, base) && pr.state == Open
  }

  /** Position of the first open pull request for the pair, or the length. */
  function OpenIndex(prs: seq<PullRequest>, head: string, base: string): (i: nat)
    ensures i <= |prs|
    ensures i < |prs| ==> IsOpenFor(prs[i], head, base)
    ensures forall j :: 0 <= j < i ==> !IsOpenFor(prs[j], head, base)
  {
    if prs == [] then 0
    else if IsOpenFor(prs[0], head, base) then 0
    else 1 + OpenIndex(prs[1..], head, base)
  }

  function LatestMatch(prs: seq<PullRequest>, head: string, base: string): (r: Option<PullRequest>)
    ensures r.None? ==> forall i :: 0 <= i < |prs| ==> !Matches(prs[i], head, base)
    ensures r.Some? ==> r.value in prs && Matches(r.value, head, base)
    ensures r.Some? ==> forall i :: 0 <= i < |prs| && Matches(prs[i], head, base) ==> prs[i].number <= r.value.number
  {
    if prs == [] then None
    else
      var rest := LatestMatch(prs[1..], head, base);
      if Matches(prs[0], head, base) && (rest.None? || rest.value.number <= prs[0].number) then Some(prs[0])
      else rest
  }

  /** The pull request reported for a pair: the open one, else the latest by number. */
  function FindPullRequest(prs: seq<PullRequest>, head: string, base: string): Option<PullRequest> {
    var i := OpenIndex(prs, head, base);
    if i < |prs| then Some(prs[i]) else LatestMatch(prs, head, base)
  }

  /** Open unless one is open already; the number that ends up in the returned address. */
  function OpenOnce(d: Doc, title: string, body: string, head: string, base: string): (Doc, int) {
    var r := if OpenIndex(d.prs, head, base) < |d.prs| then d else OpenPullRequest(d, title, body, head, base);
    var i := OpenIndex(r.prs, head, base);
    (r, if i < |r.prs| then r.prs[i].number else 0)
  }

  function RunState(run: CiRun): CheckState {
    match run.status
    case Queued => Pending
    case Running => Pending
    case Success => Green
    case Failed => Failing
  }

  function RunIndex(runs: seq<CiRun>, branch: string): (i: nat)
    ensures i <= |runs|
    ensures i < |runs| ==> runs[i].branch == branch
    ensures forall j :: 0 <= j < i ==> runs[j].branch != branch
  {
    if runs == [] then 0
    else if runs[0].branch == branch then 0
    else 1 + RunIndex(runs[1..], branch)
  }

  /** The check suite reading of a branch; a branch without a stored run reads green. */
  function ChecksStatus(d: Doc, branch: string): CheckState {
    var i := RunIndex(d.ciRuns, branch);
    if i < |d.ciRuns| then RunState(d.ciRuns[i]) else Green
  }

  // -------------------------------------------------------------------- runs

  datatype Step =
    | OpenOnceStep(title: string, body: string, head: string, base: string)
    | DocStep(op: DocOp)

  function Take(d: Doc, step: Step): Doc {
    match step
    case OpenOnceStep(title, body, head, base) => OpenOnce(d, title, body, head, base).0
    case DocStep(op) => Apply(d, op)
  }

  /** Everything ever opened (oldest first) and every CI run ever started (newest first). */
  datatype History = History(prs: seq<PullRequest>, runs: seq<CiRun>)

  /** The pull request a step creates, if it creates one. */
  function Issued(d: Doc, step: Step): Option<PullRequest> {
    match step
    case OpenOnceStep(title, body, head, base) =>
      if OpenIndex(d.prs, head, base) < |d.prs| then None
      else Some(PullRequest(d.nextPrNumber, title, body, head, base, Open))
    case DocStep(OpenPrOp(title, body, head, base)) =>
      Some(PullRequest(d.nextPrNumber, title, body, head, base, Open))
    case DocStep(_) => None
  }

  function Started(d: Doc, step: Step): Option<CiRun> {
    match step
    case DocStep(StartCiOp(name)) =>
      Some(CiRun(d.nextRunId, name, if |FilesAt(d, name)| > 0 then Success else Failed))
    case _ => None
  }

  function Record(h: History, d: Doc, step: Step): History {
    var pr, run := Issued(d, step), Started(d, step);
    History(if pr.Some? then h.prs + [pr.value] else h.prs, if run.Some? then [run.value] + h.runs else h.runs)
  }

  function RunSteps(d: Doc, h: History, steps: seq<Step>): (Doc, History)
    decreases |steps|
  {
    if steps == [] then (d, h) else RunSteps(Take(d, steps[0]), Record(h, d, steps[0]), steps[1..])
  }

  // --------------------------------------------------------- every run keeps

  /** Same pull request apart from its state. */
  predicate SamePr(a: PullRequest, b: PullRequest) {
    a == b.(state := a.state)
  }

  ghost predicate Increasing(prs: seq<PullRequest>) {
    forall i, j :: 0 <= i < j < |prs| ==> prs[i].number < prs[j].number
  }

  function Newest<T>(s: seq<T>): seq<T> {
    if |s| > MAX_HISTORY then s[..MAX_HISTORY] else s
  }

  /** The stored list is the tail of everything opened, states aside. */
  ghost predicate PrsKept(prs: seq<PullRequest>, all: seq<PullRequest>) {
    && |prs| == (if |all| > 50 then 50 else |all|)
    && forall i :: 0 <= i < |prs| ==> SamePr(prs[i], all[|all| - |prs| + i])
  }

  ghost predicate NumbersKept(all: seq<PullRequest>, next: int) {
    && next >= 1 && Increasing(all)
    && forall i :: 0 <= i < |all| ==> 1 <= all[i].number < next
  }

  /**
    Numbers ever handed out grow and stay below the counter, so none is handed
    out twice; the document holds exactly the 50 latest pull requests and the
    50 latest runs.
   */
  ghost predicate Kept(d: Doc, h: History) {
    NumbersKept(h.prs, d.nextPrNumber) && PrsKept(d.prs, h.prs) && d.ciRuns == Newest(h.runs)
  }

  lemma DropAppend<T>(s: seq<T>, x: T)
    ensures DropOldest(s + [x]) == DropOldest(DropOldest(s) + [x])
  {
  }

  lemma SameAfterDrop(a: seq<PullRequest>, b: seq<PullRequest>)
    requires |a| == |b| && forall i :: 0 <= i < |a| ==> SamePr(a[i], b[i])
    ensures |DropOldest(a)| == |DropOldest(b)|
    ensures forall i :: 0 <= i < |DropOldest(a)| ==> SamePr(DropOldest(a)[i], DropOldest(b)[i])
  {
  }

  lemma AppendKeepsPrs(prs: seq<PullRequest>, all: seq<PullRequest>, pr: PullRequest)
    requires PrsKept(prs, all)
    ensures PrsKept(DropOldest(prs + [pr]), all + [pr])
  {
    DropAppend(all, pr);
    SameAfterDrop(prs + [pr], DropOldest(all) + [pr]);
  }

  lemma OpenKeeps(d: Doc, h: History, pr: PullRequest)
    requires Kept(d, h) && pr.number == d.nextPrNumber
    ensures Kept(d.(nextPrNumber := d.nextPrNumber + 1, prs := DropOldest(d.prs + [pr])),
                 h.(prs := h.prs + [pr]))
  {
    AppendKeepsPrs(d.prs, h.prs, pr);
    var all := h.prs + [pr];
    assert forall i :: 0 <= i < |all| ==> all[i] == if i < |h.prs| then h.prs[i] else pr;
  }

  lemma SetStateKeeps(d: Doc, h: History, number: int, state: PrState)
    requires Kept(d, h)
    ensures Kept(SetPrState(d, number, state).0, h)
  {
  }

  lemma StartCiKeeps(d: Doc, h: History, name: string)
    requires Kept(d, h)
    ensures Kept(StartCiRun(d, name), Record(h, d, DocStep(StartCiOp(name))))
  {
  }

  lemma MergeKeeps(d: Doc, h: History, number: int)
    requires Kept(d, h)
    ensures Kept(MergePullRequest(d, number).0, h)
  {
    var i := PrIndex(d.prs, number);
    if i < |d.prs| {
      var mid := UpsertAll(d, d.prs[i].base, FilesAt(d, d.prs[i].head));
      UpsertAllKeepsPrs(d, d.prs[i].base, FilesAt(d, d.prs[i].head));
      SetStateKeeps(mid, h, number, Merged);
    }
  }

  lemma BranchOpsKeepCounters(d: Doc, op: DocOp)
    requires op.AddBranchOp? || op.UpsertOp? || op.ReplaceTreeOp?
    ensures Apply(d, op) == d.(branches := Apply(d, op).branches)
  {
  }

  lemma StepKeeps(d: Doc, h: History, step: Step)
    requires Kept(d, h)
    ensures Kept(Take(d, step), Record(h, d, step))
  {
    match step
    case OpenOnceStep(title, body, head, base) =>
      if Issued(d, step).Some? { OpenKeeps(d, h, Issued(d, step).value); }
    case DocStep(OpenPrOp(title, body, head, base)) => OpenKeeps(d, h, Issued(d, step).value);
    case DocStep(ClosePrOp(number, merged)) => SetStateKeeps(d, h, number, if merged then Merged else Closed);
    case DocStep(MergePrOp(number)) => MergeKeeps(d, h, number);
    case DocStep(StartCiOp(name)) => StartCiKeeps(d, h, name);
    case DocStep(op) => BranchOpsKeepCounters(d, op);
  }

  /** Over every run, with evictions and unguarded opens included. */
  lemma {:induction false} RunKeeps(d: Doc, h: History, steps: seq<Step>)
    requires Kept(d, h)
    ensures var r := RunSteps(d, h, steps); Kept(r.0, r.1)
    decreases |steps|
  {
    if steps != [] {
      StepKeeps(d, h, steps[0]);
      RunKeeps(Take(d, steps[0]), Record(h, d, steps[0]), steps[1..]);
    }
  }

  /** What `Kept` says about the stored list itself. */
  lemma StoredNumbers(d: Doc, h: History)
    requires Kept(d, h)
    ensures Increasing(d.prs) && |d.prs| <= MAX_HISTORY
    ensures forall i :: 0 <= i < |d.prs| ==> 1 <= d.prs[i].number < d.nextPrNumber
  {
  }

  /** From an empty document: stored numbers increase from 1 up, and no number was ever issued twice. */
  lemma NumbersNeverReissued(steps: seq<Step>)
    ensures var (d, h) := RunSteps(EmptyDoc(), History([], []), steps);
      && Increasing(h.prs) && Increasing(d.prs) && |d.prs| <= MAX_HISTORY
      && forall i :: 0 <= i < |d.prs| ==> 1 <= d.prs[i].number < d.nextPrNumber
  {
    RunKeeps(EmptyDoc(), History([], []), steps);
    var (d, h) := RunSteps(EmptyDoc(), History([], []), steps);
    StoredNumbers(d, h);
  }

  // -------------------------------------------------- one open request a pair

  ghost predicate OneOpenPerPair(prs: seq<PullRequest>) {
    forall i, j :: 0 <= i < j < |prs| && prs[i].state == Open && prs[j].state == Open ==>
      prs[i].head != prs[j].head || prs[i].base != prs[j].base
  }

  lemma OpenOnceKeepsOnePerPair(d: Doc, title: string, body: string, head: string, base: string)
    requires OneOpenPerPair(d.prs)
    ensures OneOpenPerPair(OpenOnce(d, title, body, head, base).0.prs)
  {
    PlainOpenExact(d, title, body, head, base);
  }

  lemma SetStateKeepsOnePerPair(d: Doc, number: int, state: PrState)
    requires OneOpenPerPair(d.prs) && state != Open
    ensures OneOpenPerPair(SetPrState(d, number, state).0.prs)
  {
  }

  lemma MergeKeepsOnePerPair(d: Doc, number: int)
    requires OneOpenPerPair(d.prs)
    ensures OneOpenPerPair(MergePullRequest(d, number).0.prs)
  {
    var i := PrIndex(d.prs, number);
    if i < |d.prs| {
      var files := FilesAt(d, d.prs[i].head);
      UpsertAllKeepsPrs(d, d.prs[i].base, files);
      SetStateKeepsOnePerPair(UpsertAll(d, d.prs[i].base, files), number, Merged);
    }
  }

  /** A plain open finds no open request for its pair, or pushes that one out of the 50 kept. */
  predicate OpensAlone(d: Doc, step: Step) {
    match step
    case DocStep(OpenPrOp(_, _, head, base)) =>
      var i := OpenIndex(d.prs, head, base); i == |d.prs| || i < |d.prs| + 1 - MAX_HISTORY
    case _ => true
  }

  lemma AppendedPair(prs: seq<PullRequest>, pr: PullRequest)
    requires OneOpenPerPair(prs) && pr.state == Open
    ensures OneOpenPerPair(prs + [pr]) <==> OpenIndex(prs, pr.head, pr.base) == |prs|
  {
    var all, i := prs + [pr], OpenIndex(prs, pr.head, pr.base);
    assert forall k :: 0 <= k < |prs| ==> all[k] == prs[k];
    if i < |prs| {
      assert all[i].state == Open && all[|prs|] == pr && Matches(all[|prs|], all[i].head, all[i].base);
    }
  }

  lemma DroppedPair(prs: seq<PullRequest>, cut: nat, head: string, base: string)
    requires OneOpenPerPair(prs) && cut <= |prs|
    ensures OneOpenPerPair(prs[cut..])
    ensures var i := OpenIndex(prs, head, base);
      OpenIndex(prs[cut..], head, base) == |prs[cut..]| <==> i == |prs| || i < cut
  {
    var rest, i, k := prs[cut..], OpenIndex(prs, head, base), OpenIndex(prs[cut..], head, base);
    assert forall j :: 0 <= j < |rest| ==> rest[j] == prs[cut + j];
    if k < |rest| {
      assert IsOpenFor(prs[cut + k], head, base);
      assert i < |prs| && i <= cut + k;
    }
    if cut <= i < |prs| {
      assert IsOpenFor(rest[i - cut], head, base);
    }
  }

  lemma PlainOpenExact(d: Doc, title: string, body: string, head: string, base: string)
    requires OneOpenPerPair(d.prs)
    ensures OneOpenPerPair(OpenPullRequest(d, title, body, head, base).prs) <==>
            OpensAlone(d, DocStep(OpenPrOp(title, body, head, base)))
  {
    var pr := PullRequest(d.nextPrNumber, title, body, head, base, Open);
    var cut := if |d.prs| + 1 > MAX_HISTORY then |d.prs| + 1 - MAX_HISTORY else 0;
    assert DropOldest(d.prs + [pr]) == d.prs[cut..] + [pr];
    DroppedPair(d.prs, cut, head, base);
    AppendedPair(d.prs[cut..], pr);
  }

  /** Each step keeps "at most one open request a pair" exactly when its guard holds. */
  lemma StepOnePerPairExact(d: Doc, step: Step)
    requires OneOpenPerPair(d.prs)
    ensures OneOpenPerPair(Take(d, step).prs) <==> OpensAlone(d, step)
  {
    match step
    case OpenOnceStep(title, body, head, base) => OpenOnceKeepsOnePerPair(d, title, body, head, base);
    case DocStep(OpenPrOp(title, body, head, base)) => PlainOpenExact(d, title, body, head, base);
    case DocStep(ClosePrOp(number, merged)) =>
      SetStateKeepsOnePerPair(d, number, if merged then Merged else Closed);
    case DocStep(MergePrOp(number)) => MergeKeepsOnePerPair(d, number);
    case DocStep(StartCiOp(name)) =>
    case DocStep(op) => BranchOpsKeepCounters(d, op);
  }

  ghost predicate OnePerPairThroughout(d: Doc, steps: seq<Step>)
    decreases |steps|
  {
    OneOpenPerPair(d.prs) && (steps == [] || OnePerPairThroughout(Take(d, steps[0]), steps[1..]))
  }

  predicate OpensAloneThroughout(d: Doc, steps: seq<Step>)
    decreases |steps|
  {
    steps == [] || (OpensAlone(d, steps[0]) && OpensAloneThroughout(Take(d, steps[0]), steps[1..]))
  }

  /** Over every run a pair never has two open requests, exactly when every plain open meets its guard. */
  lemma {:induction false} OnePerPairExact(d: Doc, steps: seq<Step>)
    requires OneOpenPerPair(d.prs)
    ensures OnePerPairThroughout(d, steps) <==> OpensAloneThroughout(d, steps)
    decreases |steps|
  {
    if steps != [] {
      StepOnePerPairExact(d, steps[0]);
      if OpensAlone(d, steps[0]) {
        OnePerPairExact(Take(d, steps[0]), steps[1..]);
      }
    }
  }

  /** The route that opens without looking breaks it: two plain opens leave two open for one pair. */
  lemma PlainOpensBreakOnePerPair(title: string, head: string, base: string)
    ensures var op := OpenPrOp(title, "", head, base);
      !OneOpenPerPair(Run(EmptyDoc(), [op, op]).prs)
  {
    var op := OpenPrOp(title, "", head, base);
    var d1 := Apply(EmptyDoc(), op);
    assert d1.prs == [PullRequest(1, title, "", head, base, Open)];
    var d2 := Apply(d1, op);
    assert d2.prs == d1.prs + [PullRequest(2, title, "", head, base, Open)];
    assert Run(d1, [op]) == d2;
    assert [op, op][1..] == [op];
    assert d2.prs[0].state == Open && d2.prs[1].state == Open;
  }

  // ------------------------------------------------------------ main readings

  lemma OpenedIsFound(d: Doc, title: string, body: string, head: string, base: string)
    ensures var r := OpenOnce(d, title, body, head, base); OpenIndex(r.0.prs, head, base) < |r.0.prs|
  {
    if OpenIndex(d.prs, head, base) == |d.prs| {
      var prs := OpenPullRequest(d, title, body, head, base).prs;
      assert IsOpenFor(prs[|prs| - 1], head, base);
    }
  }

  /** Opening a pair twice changes nothing the second time and gives the same address, numbered from 1. */
  lemma OpenTwiceSameNumber(d: Doc, h: History, t1: string, b1: string, t2: string, b2: string,
                            head: string, base: string)
    requires Kept(d, h)
    ensures var first := OpenOnce(d, t1, b1, head, base);
      && first.1 >= 1
      && OpenOnce(first.0, t2, b2, head, base) == first
      && FindPullRequest(first.0.prs, head, base).Some?
      && FindPullRequest(first.0.prs, head, base).value.number == first.1
      && FindPullRequest(first.0.prs, head, base).value.state == Open
      && FindPullRequest(first.0.prs, head, base).value.head == head
      && FindPullRequest(first.0.prs, head, base).value.base == base
  {
    var first, step := OpenOnce(d, t1, b1, head, base), OpenOnceStep(t1, b1, head, base);
    OpenedIsFound(d, t1, b1, head, base);
    assert Increasing(first.0.prs) && forall i :: 0 <= i < |first.0.prs| ==> 1 <= first.0.prs[i].number by {
      StepKeeps(d, h, step);
      StoredNumbers(first.0, Record(h, d, step));
    }
  }

  /** Green without a stored run or when the newest stored one succeeded, failing when it failed, else pending. */
  lemma ReadingMeans(d: Doc, branch: string)
    ensures var k, state := RunIndex(d.ciRuns, branch), ChecksStatus(d, branch);
      && (state == Green <==> k == |d.ciRuns| || d.ciRuns[k].status == Success)
      && (state == Failing <==> k < |d.ciRuns| && d.ciRuns[k].status == Failed)
      && (state == Pending <==> k < |d.ciRuns| && (d.ciRuns[k].status == Queued || d.ciRuns[k].status == Running))
  {
  }

  /**
    The reading is the most recent run's while fewer than 50 runs are newer;
    after that the branch reads green, so the reading is right exactly when the
    latest run is stored, or succeeded, or never existed.
   */
  lemma ChecksReadLatestRun(d: Doc, h: History, branch: string)
    requires Kept(d, h)
    ensures var k := RunIndex(h.runs, branch);
      && (k < |h.runs| && k < MAX_HISTORY ==> ChecksStatus(d, branch) == RunState(h.runs[k]))
      && (k == |h.runs| || k >= MAX_HISTORY ==> ChecksStatus(d, branch) == Green)
      && (k < |h.runs| ==> (ChecksStatus(d, branch) == RunState(h.runs[k]) <==>
                            k < MAX_HISTORY || RunState(h.runs[k]) == Green))
  {
  }

  function CiRuns(branch: string, n: nat): (r: seq<Step>)
    ensures |r| == n
  {
    if n == 0 then [] else [DocStep(StartCiOp(branch))] + CiRuns(branch, n - 1)
  }

  lemma {:induction false} ManyRuns(d: Doc, h: History, branch: string, n: nat)
    ensures var runs := RunSteps(d, h, CiRuns(branch, n)).1.runs;
      |runs| == n + |h.runs| && runs[n..] == h.runs && forall i :: 0 <= i < n ==> runs[i].branch == branch
    decreases n
  {
    if n > 0 {
      var step := DocStep(StartCiOp(branch));
      var next := Record(h, d, step);
      ManyRuns(Take(d, step), next, branch, n - 1);
      assert CiRuns(branch, n)[1..] == CiRuns(branch, n - 1);
      var runs := RunSteps(d, h, CiRuns(branch, n)).1.runs;
      assert runs[n - 1..] == next.runs && next.runs == [next.runs[0]] + h.runs;
      assert runs[n - 1] == runs[n - 1..][0] && runs[n..] == runs[n - 1..][1..];
    }
  }

  /** A reachable document in which a branch whose only run failed reads green: 50 runs of another branch came after. */
  lemma EvictedFailureReadsGreen(branch: string, other: string)
    requires branch != other
    ensures var steps := [DocStep(StartCiOp(branch))] + CiRuns(other, MAX_HISTORY);
      var (d, h) := RunSteps(EmptyDoc(), History([], []), steps);
      && RunIndex(h.runs, branch) == MAX_HISTORY < |h.runs| && h.runs[MAX_HISTORY].status == Failed
      && ChecksStatus(d, branch) == Green
  {
    var first := DocStep(StartCiOp(branch));
    var steps := [first] + CiRuns(other, MAX_HISTORY);
    var d1, h1 := Take(EmptyDoc(), first), Record(History([], []), EmptyDoc(), first);
    assert steps[1..] == CiRuns(other, MAX_HISTORY);
    ManyRuns(d1, h1, other, MAX_HISTORY);
    var (d, h) := RunSteps(EmptyDoc(), History([], []), steps);
    assert h.runs[MAX_HISTORY] == h.runs[MAX_HISTORY..][0] == h1.runs[0];
    RunKeeps(EmptyDoc(), History([], []), steps);
    ChecksReadLatestRun(d, h, branch);
  }
}
