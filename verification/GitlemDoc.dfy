/**
  The gitlem repository document as a value, with every document operation as
  a function. The heap version in GitlemStore refines these functions.
 */
module GitlemDoc {
  import opened Common

  const MAX_HISTORY: nat := 50

  datatype File = File(path: string, content: string)

  datatype Branch = Branch(name: string, files: seq<File>)

  datatype PrState = Open | Closed | Merged

  datatype PullRequest =
    PullRequest(number: int, title: string, body: string, head: string, base: string, state: PrState)

  datatype RunStatus = Queued | Running | Success | Failed

  /** `id` stands for the number in the stored text "run-<id>". */
  datatype CiRun = CiRun(id: int, branch: string, status: RunStatus)

  datatype Doc = Doc(branches: seq<Branch>, prs: seq<PullRequest>, ciRuns: seq<CiRun>,
                     nextPrNumber: int, nextRunId: int)

  function EmptyDoc(): Doc {
    Doc([], [], [], 1, 1)
  }

  // ---------------------------------------------------------------- lookups

  /** Position of the first branch with this name, or the length when there is none. */
  function BranchIndex(bs: seq<Branch>, name: string): (i: nat)
    ensures i <= |bs|
    ensures i < |bs| ==> bs[i].name == name
    ensures forall j :: 0 <= j < i ==> bs[j].name != name
  {
    if bs == [] then 0
    else if bs[0].name == name then 0
    else 1 + BranchIndex(bs[1..], name)
  }

  function FileIndex(fs: seq<File>, path: string): (i: nat)
    ensures i <= |fs|
    ensures i < |fs| ==> fs[i].path == path
    ensures forall j :: 0 <= j < i ==> fs[j].path != path
  {
    if fs == [] then 0
    else if fs[0].path == path then 0
    else 1 + FileIndex(fs[1..], path)
  }

  function PrIndex(prs: seq<PullRequest>, number: int): (i: nat)
    ensures i <= |prs|
    ensures i < |prs| ==> prs[i].number == number
    ensures forall j :: 0 <= j < i ==> prs[j].number != number
  {
    if prs == [] then 0
    else if prs[0].number == number then 0
    else 1 + PrIndex(prs[1..], number)
  }

  predicate HasBranch(d: Doc, name: string) {
    BranchIndex(d.branches, name) < |d.branches|
  }

  /** The file list read by name; a missing branch reads as an empty list. */
  function FilesAt(d: Doc, name: string): seq<File> {
    if HasBranch(d, name) then d.branches[BranchIndex(d.branches, name)].files else []
  }

  function ReadFile(d: Doc, name: string, path: string): Option<string> {
    var fs := FilesAt(d, name);
    var i := FileIndex(fs, path);
    if i < |fs| then Some(fs[i].content) else None
  }

  /** What a file list means: the content each path reads as (the first entry for a path wins). */
  function Tree(fs: seq<File>): map<string, string> {
    if fs == [] then map[] else Tree(fs[1..])[fs[0].path := fs[0].content]
  }

  function TreeAt(d: Doc, name: string): map<string, string> {
    Tree(FilesAt(d, name))
  }

  lemma {:induction false} FirstEntryIsTree(fs: seq<File>, path: string)
    ensures var i := FileIndex(fs, path);
      if i < |fs| then path in Tree(fs) && Tree(fs)[path] == fs[i].content else path !in Tree(fs)
  {
    if fs != [] && fs[0].path != path {
      FirstEntryIsTree(fs[1..], path);
    }
  }

  /** Reading one file is looking its path up in the branch's tree. */
  lemma ReadFileIsTree(d: Doc, name: string, path: string)
    ensures ReadFile(d, name, path) ==
            if path in TreeAt(d, name) then Some(TreeAt(d, name)[path]) else None
  {
    FirstEntryIsTree(FilesAt(d, name), path);
  }

  // ------------------------------------------------------------- operations

  predicate IsUnsafeChar(c: char) {
    c <= ' ' || c == '\U{7f}' || c in "~^:?*[]\\"
  }

  predicate IsValidBranchName(name: string) {
    && 0 < |name| <= 200
    && name[0] !in "-./"
    && !EndsWith(name, ".") && !EndsWith(name, "/") && !EndsWith(name, ".lock")
    && !Includes(name, "..") && !Includes(name, "//") && !Includes(name, "@{")
    && name != "@"
    && forall i | 0 <= i < |name| :: !IsUnsafeChar(name[i])
  }

  function EnsureBranch(bs: seq<Branch>, name: string): seq<Branch> {
    if BranchIndex(bs, name) < |bs| then bs else bs + [Branch(name, [])]
  }

  function AddBranch(d: Doc, name: string, from: Option<string>): (Doc, bool) {
    if !IsValidBranchName(name) || HasBranch(d, name) then (d, false)
    else
      var files := if from.Some? && from.value != "" then FilesAt(d, from.value) else [];
      (d.(branches := d.branches + [Branch(name, files)]), true)
  }

  function UpsertInto(fs: seq<File>, path: string, content: string): seq<File> {
    var i := FileIndex(fs, path);
    if i < |fs| then fs[i := File(path, content)] else fs + [File(path, content)]
  }

  function SetFiles(bs: seq<Branch>, name: string, files: seq<File>): seq<Branch> {
    var i := BranchIndex(bs, name);
    if i < |bs| then bs[i := Branch(name, files)] else bs + [Branch(name, files)]
  }

  /** Making the branch exist first and then storing the files is the same as storing them. */
  lemma SetFilesAfterEnsure(d: Doc, name: string, files: seq<File>)
    ensures var i := BranchIndex(d.branches, name);
      var bs := EnsureBranch(d.branches, name);
      && i < |bs| && bs[i] == Branch(name, FilesAt(d, name))
      && bs[i := Branch(name, files)] == SetFiles(d.branches, name, files)
  {
  }

  function UpsertFile(d: Doc, name: string, path: string, content: string): Doc {
    d.(branches := SetFiles(d.branches, name, UpsertInto(FilesAt(d, name), path, content)))
  }

  /** Upserting a path that branch `h` lists at `k` leaves what `h` lists after `k` in place. */
  lemma UpsertKeepsLaterFiles(d: Doc, h: nat, k: nat, name: string, content: string)
    requires h < |d.branches| && k < |d.branches[h].files|
    ensures var fs := d.branches[h].files;
      var r := UpsertFile(d, name, fs[k].path, content).branches;
      && h < |r| && |r[h].files| == |fs| && r[h].files[k + 1..] == fs[k + 1..]
  {
  }

  function ReplaceBranchTree(d: Doc, name: string, files: seq<File>): Doc {
    d.(branches := SetFiles(d.branches, name, files))
  }

  function DropOldest<T>(s: seq<T>): seq<T> {
    if |s| > MAX_HISTORY then s[|s| - MAX_HISTORY..] else s
  }

  function OpenPullRequest(d: Doc, title: string, body: string, head: string, base: string): Doc {
    var pr := PullRequest(d.nextPrNumber, title, body, head, base, Open);
    d.(nextPrNumber := d.nextPrNumber + 1, prs := DropOldest(d.prs + [pr]))
  }

  function SetPrState(d: Doc, number: int, state: PrState): (Doc, bool) {
    var i := PrIndex(d.prs, number);
    if i < |d.prs| then (d.(prs := d.prs[i := d.prs[i].(state := state)]), true) else (d, false)
  }

  /** Upsert every listed file onto one branch, in list order. */
  function UpsertAll(d: Doc, name: string, files: seq<File>): Doc
    decreases |files|
  {
    if files == [] then d
    else
      var last := files[|files| - 1];
      UpsertFile(UpsertAll(d, name, files[..|files| - 1]), name, last.path, last.content)
  }

  lemma {:induction false} UpsertAllKeepsPrs(d: Doc, name: string, files: seq<File>)
    ensures var r := UpsertAll(d, name, files); r == d.(branches := r.branches)
    decreases |files|
  {
    if files != [] {
      UpsertAllKeepsPrs(d, name, files[..|files| - 1]);
    }
  }

  function MergePullRequest(d: Doc, number: int): (Doc, bool) {
    var i := PrIndex(d.prs, number);
    if i < |d.prs| then
      var pr := d.prs[i];
      (SetPrState(UpsertAll(d, pr.base, FilesAt(d, pr.head)), number, Merged).0, true)
    else (d, false)
  }

  function RecordRun(d: Doc, name: string, success: bool): Doc {
    var runs := [CiRun(d.nextRunId, name, if success then Success else Failed)] + d.ciRuns;
    d.(nextRunId := d.nextRunId + 1,
       ciRuns := if |runs| > MAX_HISTORY then runs[..MAX_HISTORY] else runs)
  }

  function StartCiRun(d: Doc, name: string): Doc {
    RecordRun(d, name, |FilesAt(d, name)| > 0)
  }

  // ------------------------------------------------- shape kept by every run

  ghost predicate DistinctNames(bs: seq<Branch>) {
    forall i, j :: 0 <= i < j < |bs| ==> bs[i].name != bs[j].name
  }

  ghost predicate DistinctPaths(fs: seq<File>) {
    forall i, j :: 0 <= i < j < |fs| ==> fs[i].path != fs[j].path
  }

  ghost predicate WellFormed(d: Doc) {
    DistinctNames(d.branches) && forall i :: 0 <= i < |d.branches| ==> DistinctPaths(d.branches[i].files)
  }

  datatype DocOp =
    | AddBranchOp(name: string, from: Option<string>)
    | UpsertOp(name: string, path: string, content: string)
    | ReplaceTreeOp(name: string, files: seq<File>)
    | OpenPrOp(title: string, body: string, head: string, base: string)
    | ClosePrOp(number: int, merged: bool)
    | MergePrOp(number: int)
    | StartCiOp(name: string)

  function Apply(d: Doc, op: DocOp): Doc {
    match op
    case AddBranchOp(name, from) => AddBranch(d, name, from).0
    case UpsertOp(name, path, content) => UpsertFile(d, name, path, content)
    case ReplaceTreeOp(name, files) => ReplaceBranchTree(d, name, files)
    case OpenPrOp(title, body, head, base) => OpenPullRequest(d, title, body, head, base)
    case ClosePrOp(number, merged) => SetPrState(d, number, if merged then Merged else Closed).0
    case MergePrOp(number) => MergePullRequest(d, number).0
    case StartCiOp(name) => StartCiRun(d, name)
  }

  function Run(d: Doc, ops: seq<DocOp>): Doc
    decreases |ops|
  {
    if ops == [] then d else Run(Apply(d, ops[0]), ops[1..])
  }

  /** Git hands `ReplaceBranchTree` a listing, in which a path occurs once. */
  ghost predicate IsListing(op: DocOp) {
    op.ReplaceTreeOp? ==> DistinctPaths(op.files)
  }

  lemma UpsertIntoKeepsPaths(fs: seq<File>, path: string, content: string)
    requires DistinctPaths(fs)
    ensures DistinctPaths(UpsertInto(fs, path, content))
  {
  }

  lemma SetFilesKeepsWellFormed(d: Doc, name: string, files: seq<File>)
    requires WellFormed(d) && DistinctPaths(files)
    ensures WellFormed(d.(branches := SetFiles(d.branches, name, files)))
  {
  }

  lemma UpsertFileKeepsWellFormed(d: Doc, name: string, path: string, content: string)
    requires WellFormed(d)
    ensures WellFormed(UpsertFile(d, name, path, content))
  {
    assert DistinctPaths(FilesAt(d, name));
    UpsertIntoKeepsPaths(FilesAt(d, name), path, content);
    SetFilesKeepsWellFormed(d, name, UpsertInto(FilesAt(d, name), path, content));
  }

  lemma {:induction false} UpsertAllKeepsWellFormed(d: Doc, name: string, files: seq<File>)
    requires WellFormed(d)
    ensures WellFormed(UpsertAll(d, name, files))
    decreases |files|
  {
    if files != [] {
      var init, last := files[..|files| - 1], files[|files| - 1];
      UpsertAllKeepsWellFormed(d, name, init);
      UpsertFileKeepsWellFormed(UpsertAll(d, name, init), name, last.path, last.content);
    }
  }

  lemma AddBranchKeepsWellFormed(d: Doc, name: string, from: Option<string>)
    requires WellFormed(d)
    ensures WellFormed(AddBranch(d, name, from).0)
  {
  }

  lemma MergeKeepsWellFormed(d: Doc, number: int)
    requires WellFormed(d)
    ensures WellFormed(MergePullRequest(d, number).0)
  {
    var i := PrIndex(d.prs, number);
    if i < |d.prs| {
      UpsertAllKeepsWellFormed(d, d.prs[i].base, FilesAt(d, d.prs[i].head));
    }
  }

  lemma ApplyKeepsWellFormed(d: Doc, op: DocOp)
    requires WellFormed(d) && IsListing(op)
    ensures WellFormed(Apply(d, op))
  {
    match op
    case AddBranchOp(name, from) => AddBranchKeepsWellFormed(d, name, from);
    case UpsertOp(name, path, content) => UpsertFileKeepsWellFormed(d, name, path, content);
    case ReplaceTreeOp(name, files) => SetFilesKeepsWellFormed(d, name, files);
    case MergePrOp(number) => MergeKeepsWellFormed(d, number);
    case _ =>
  }

  /** Over every sequence of document operations, names and paths stay distinct. */
  lemma {:induction false} RunKeepsWellFormed(d: Doc, ops: seq<DocOp>)
    requires WellFormed(d)
    requires forall i :: 0 <= i < |ops| ==> IsListing(ops[i])
    ensures WellFormed(Run(d, ops))
    decreases |ops|
  {
    if ops != [] {
      ApplyKeepsWellFormed(d, ops[0]);
      RunKeepsWellFormed(Apply(d, ops[0]), ops[1..]);
    }
  }

  // --------------------------------------------------- what the operations write

  /**
    A branch is added exactly under a valid name that is not taken. It then stands
    last and reads as the named source at that moment, or as empty without one;
    otherwise nothing changes.
   */
  lemma AddBranchExact(d: Doc, name: string, from: Option<string>)
    ensures var (r, ok) := AddBranch(d, name, from);
      && (ok <==> IsValidBranchName(name) && forall i :: 0 <= i < |d.branches| ==> d.branches[i].name != name)
      && (!ok ==> r == d)
      && (ok ==>
            && r == d.(branches := r.branches) && |r.branches| == |d.branches| + 1
            && r.branches[..|d.branches|] == d.branches && r.branches[|d.branches|].name == name
            && FilesAt(r, name) == if from == None || from == Some("") then [] else FilesAt(d, from.value))
  {
    var (r, ok) := AddBranch(d, name, from);
    if ok {
      assert forall i :: 0 <= i < |d.branches| ==> r.branches[i] == d.branches[i];
      assert forall i :: 0 <= i < |d.branches| ==> d.branches[i].name != name;
      assert r.branches[|d.branches|].name == name && BranchIndex(r.branches, name) >= |d.branches|;
    }
  }

  /** Closing or merging writes the given state into the first request of that number, and into nothing else. */
  lemma SetPrStateExact(d: Doc, number: int, state: PrState)
    ensures var (r, ok) := SetPrState(d, number, state);
      && (ok <==> exists i :: 0 <= i < |d.prs| && d.prs[i].number == number)
      && (!ok ==> r == d)
      && (ok ==>
            && r == d.(prs := r.prs) && |r.prs| == |d.prs|
            && forall i :: 0 <= i < |d.prs| ==>
                 r.prs[i] == if d.prs[i].number == number && (forall j :: 0 <= j < i ==> d.prs[j].number != number)
                             then d.prs[i].(state := state) else d.prs[i])
  {
  }

  /** The two ways a request is settled by number. */
  lemma CloseWrites(d: Doc, number: int, merged: bool)
    requires PrIndex(d.prs, number) < |d.prs|
    ensures Apply(d, ClosePrOp(number, merged)).prs[PrIndex(d.prs, number)].state == if merged then Merged else Closed
  {
  }

  /** The name rule by positions: what git would refuse or read as something else than a name. */
  lemma ValidNameExact(name: string)
    ensures IsValidBranchName(name) <==>
      && 1 <= |name| <= 200 && name != "@"
      && name[0] != '-' && name[0] != '.' && name[0] != '/'
      && name[|name| - 1] != '.' && name[|name| - 1] != '/'
      && !(|name| >= 5 && name[|name| - 5..] == ".lock")
      && (forall i :: 0 <= i < |name| ==>
            && ' ' < name[i] && name[i] != '\U{7f}' && name[i] != '~' && name[i] != '^' && name[i] != ':'
            && name[i] != '?' && name[i] != '*' && name[i] != '[' && name[i] != ']' && name[i] != '\\')
      && (forall i, j :: 0 <= i && j == i + 1 && j < |name| ==>
            && !(name[i] == '.' && name[j] == '.') && !(name[i] == '/' && name[j] == '/')
            && !(name[i] == '@' && name[j] == '{'))
  {
    PairIncluded(name, '.', '.');
    PairIncluded(name, '/', '/');
    PairIncluded(name, '@', '{');
    if |name| > 0 {
      assert name[|name| - 1..] == [name[|name| - 1]];
    }
  }

  lemma PairIncluded(s: string, a: char, b: char)
    ensures Includes(s, [a, b]) <==> exists i, j :: 0 <= i && j == i + 1 && j < |s| && s[i] == a && s[j] == b
  {
    if i :| 0 <= i <= |s| && StartsWith(s[i..], [a, b]) {
      assert s[i] == s[i..][..2][0] && s[i + 1] == s[i..][..2][1];
      assert i + 1 < |s|;
    }
    if i, j :| 0 <= i && j == i + 1 && j < |s| && s[i] == a && s[j] == b {
      assert s[i..][..2] == [a, b];
    }
  }
}
