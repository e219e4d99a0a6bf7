/**
  The gitlem document on the heap: branches and files are objects that the
  operations edit in place. `NoSharing` is the aliasing invariant; under it every
  method refines the value-level operation of the same name in GitlemDoc.
 */
module GitlemStore {
  import opened Common
  import D = GitlemDoc

  class FileCell {
    const path: string
    var content: string

    constructor (path: string, content: string)
      ensures this.path == path && this.content == content
    {
      this.path, this.content := path, content;
    }
  }

  class BranchCell {
    const name: string
    var files: seq<FileCell>

    constructor (name: string, files: seq<FileCell>)
      ensures this.name == name && this.files == files
    {
      this.name, this.files := name, files;
    }
  }

  class PrCell {
    const number: int
    const title: string
    const body: string
    const head: string
    const base: string
    var state: D.PrState

    constructor (number: int, title: string, body: string, head: string, base: string)
      ensures View() == D.PullRequest(number, title, body, head, base, D.Open)
    {
      this.number, this.title, this.body, this.head, this.base := number, title, body, head, base;
      this.state := D.Open;
    }

    ghost function View(): D.PullRequest
      reads this
    {
      D.PullRequest(number, title, body, head, base, state)
    }
  }

  ghost function FilesView(fs: seq<FileCell>): (r: seq<D.File>)
    reads fs
    ensures |r| == |fs|
    ensures forall k :: 0 <= k < |fs| ==> r[k] == D.File(fs[k].path, fs[k].content)
  {
    seq(|fs|, k requires 0 <= k < |fs| reads fs => D.File(fs[k].path, fs[k].content))
  }

  ghost function FileCells(bs: seq<BranchCell>): set<FileCell>
    reads bs
  {
    set i, k | 0 <= i < |bs| && 0 <= k < |bs[i].files| :: bs[i].files[k]
  }

  ghost function BranchesView(bs: seq<BranchCell>): (r: seq<D.Branch>)
    reads bs, FileCells(bs)
    ensures |r| == |bs|
    ensures forall i :: 0 <= i < |bs| ==> r[i] == D.Branch(bs[i].name, FilesView(bs[i].files))
  {
    seq(|bs|, i requires 0 <= i < |bs| reads bs, FileCells(bs) => D.Branch(bs[i].name, FilesView(bs[i].files)))
  }

  ghost function PrsView(ps: seq<PrCell>): (r: seq<D.PullRequest>)
    reads ps
    ensures |r| == |ps|
    ensures forall i :: 0 <= i < |ps| ==> r[i] == ps[i].View()
  {
    seq(|ps|, i requires 0 <= i < |ps| reads ps => ps[i].View())
  }

  ghost predicate Apart(xs: seq<FileCell>, ys: seq<FileCell>) {
    forall k, l :: 0 <= k < |xs| && 0 <= l < |ys| ==> xs[k] != ys[l]
  }

  /** No branch object occurs twice, and no file object is reachable in two ways. */
  ghost predicate NoSharing(bs: seq<BranchCell>)
    reads bs
  {
    && Distinct(bs)
    && (forall i :: 0 <= i < |bs| ==> Distinct(bs[i].files))
    && (forall i, j :: 0 <= i < |bs| && 0 <= j < |bs| && i != j ==> Apart(bs[i].files, bs[j].files))
  }

  lemma AppendDistinct<T>(xs: seq<T>, x: T)
    requires Distinct(xs) && x !in xs
    ensures Distinct(xs + [x])
  {
  }

  lemma AppendKeepsNoSharing(bs: seq<BranchCell>, b: BranchCell)
    requires NoSharing(bs) && b !in bs && Distinct(b.files)
    requires forall i :: 0 <= i < |bs| ==> Apart(bs[i].files, b.files) && Apart(b.files, bs[i].files)
    ensures NoSharing(bs + [b])
  {
  }

  /** `files.map((file) => ({ ...file }))`: new objects with the same text. */
  method CloneFiles(fs: seq<FileCell>) returns (r: seq<FileCell>, ghost cells: set<object>)
    ensures Distinct(r) && Owned(r, cells) && fresh(cells)
    ensures FilesView(r) == old(FilesView(fs))
  {
    r, cells := [], {};
    for k := 0 to |fs|
      invariant |r| == k && Distinct(r) && Owned(r, cells) && fresh(cells)
      invariant forall j :: 0 <= j < k ==> r[j].path == fs[j].path && r[j].content == fs[j].content
    {
      var copy := new FileCell(fs[k].path, fs[k].content);
      AppendDistinct(r, copy);
      r, cells := r + [copy], cells + {copy};
    }
  }

  /** Only branch `b` reads differently, so the view changes at `b` alone. */
  lemma ViewAfterEdit(bs: seq<BranchCell>, before: seq<D.Branch>, b: nat, fs: seq<D.File>)
    requires b < |bs| == |before|
    requires FilesView(bs[b].files) == fs
    requires forall j :: 0 <= j < |bs| && j != b ==> before[j] == D.Branch(bs[j].name, FilesView(bs[j].files))
    ensures BranchesView(bs) == before[b := D.Branch(bs[b].name, fs)]
  {
  }

  ghost predicate Owned(fs: seq<FileCell>, repr: set<object>) {
    forall k :: 0 <= k < |fs| ==> fs[k] in repr
  }

  method FindFile(fs: seq<FileCell>, path: string) returns (k: nat)
    ensures k == D.FileIndex(FilesView(fs), path)
    ensures k <= |fs|
  {
    k := 0;
    while k < |fs| && fs[k].path != path
      invariant 0 <= k <= |fs|
      invariant forall j :: 0 <= j < k ==> fs[j].path != path
    {
      k := k + 1;
    }
  }

  lemma OpenedView(prs: seq<PrCell>, pr: PrCell)
    requires Distinct(prs) && pr !in prs
    ensures var all := D.DropOldest(prs + [pr]);
      && Distinct(all) && |all| > 0 && all[|all| - 1] == pr
      && (forall i :: 0 <= i < |all| ==> all[i] in prs || all[i] == pr)
      && PrsView(all) == D.DropOldest(PrsView(prs) + [pr.View()])
  {
    AppendDistinct(prs, pr);
  }

  /** Where the merge loop stands after `k` rounds: the rest of the head list still reads as at the start. */
  ghost predicate Progress(before: D.Doc, d: D.Doc, h: nat, base: string, files: seq<D.File>, k: nat) {
    && h < |d.branches| && k <= |files| == |d.branches[h].files|
    && d.branches[h].files[k..] == files[k..]
    && d == D.UpsertAll(before, base, files[..k])
  }

  lemma ProgressStep(before: D.Doc, d: D.Doc, h: nat, base: string, files: seq<D.File>, k: nat)
    requires Progress(before, d, h, base, files, k) && k < |files|
    ensures d.branches[h].files[k] == files[k]
    ensures Progress(before, D.UpsertFile(d, base, files[k].path, files[k].content), h, base, files, k + 1)
  {
    var fs := d.branches[h].files;
    assert fs[k..][0] == files[k..][0];
    assert fs[k..][1..] == fs[k + 1..] && files[k..][1..] == files[k + 1..];
    D.UpsertKeepsLaterFiles(d, h, k, base, files[k].content);
    assert files[..k + 1][..k] == files[..k];
  }

  class RepoDoc {
    var branches: seq<BranchCell>
    var prs: seq<PrCell>
    var ciRuns: seq<D.CiRun>
    var nextPrNumber: int
    var nextRunId: int
    /** Every branch, file and pull request object the document may edit. */
    ghost var Repr: set<object>

    ghost predicate Valid()
      reads this, Repr
    {
      && this !in Repr
      && (forall i :: 0 <= i < |branches| ==> branches[i] in Repr && Owned(branches[i].files, Repr))
      && (forall i :: 0 <= i < |prs| ==> prs[i] in Repr)
      && NoSharing(branches) && Distinct(prs)
    }

    ghost function View(): D.Doc
      reads this, Repr
      requires Valid()
    {
      D.Doc(BranchesView(branches), PrsView(prs), ciRuns, nextPrNumber, nextRunId)
    }

    constructor ()
      ensures Valid() && fresh(Repr) && View() == D.EmptyDoc()
    {
      branches, prs, ciRuns, nextPrNumber, nextRunId := [], [], [], 1, 1;
      Repr := {};
    }

    method FindBranch(name: string) returns (i: nat)
      requires Valid()
      ensures i == D.BranchIndex(View().branches, name)
      ensures i <= |branches|
    {
      i := 0;
      while i < |branches| && branches[i].name != name
        invariant 0 <= i <= |branches|
        invariant forall j :: 0 <= j < i ==> branches[j].name != name
      {
        i := i + 1;
      }
    }

    method ReadFile(name: string, path: string) returns (r: Option<string>)
      requires Valid()
      ensures r == D.ReadFile(View(), name, path)
    {
      var i := FindBranch(name);
      if i == |branches| { return None; }
      var k := FindFile(branches[i].files, path);
      r := if k < |branches[i].files| then Some(branches[i].files[k].content) else None;
    }

    method AppendBranch(name: string, files: seq<FileCell>, ghost cells: set<object>)
      requires Valid() && Distinct(files) && Owned(files, cells)
      requires cells !! Repr && this !in cells
      modifies this`branches, this`Repr
      ensures Valid()
      ensures fresh(Repr - old(Repr) - cells)
      ensures old(branches) <= branches && |branches| == |old(branches)| + 1
      ensures View() == old(View()).(branches := old(View()).branches + [D.Branch(name, old(FilesView(files)))])
    {
      var created := new BranchCell(name, files);
      forall i | 0 <= i < |branches|
        ensures Apart(branches[i].files, files) && Apart(files, branches[i].files)
      {
        assert Owned(branches[i].files, Repr);
      }
      AppendKeepsNoSharing(branches, created);
      branches := branches + [created];
      Repr := Repr + {created} + cells;
    }

    method EnsureBranch(name: string) returns (i: nat)
      requires Valid()
      modifies this`branches, this`Repr
      ensures Valid() && fresh(Repr - old(Repr))
      ensures old(branches) <= branches
      ensures i == D.BranchIndex(old(View()).branches, name) < |branches|
      ensures View() == old(View()).(branches := D.EnsureBranch(old(View()).branches, name))
    {
      i := FindBranch(name);
      if i == |branches| {
        AppendBranch(name, [], {});
      }
    }

    method CopyOf(from: Option<string>) returns (copies: seq<FileCell>, ghost cells: set<object>)
      requires Valid()
      ensures Distinct(copies) && Owned(copies, cells) && fresh(cells)
      ensures FilesView(copies) ==
              if from.Some? && from.value != "" then D.FilesAt(View(), from.value) else []
    {
      copies, cells := [], {};
      if from.Some? && from.value != "" {
        var s := FindBranch(from.value);
        if s < |branches| {
          copies, cells := CloneFiles(branches[s].files);
        }
      }
    }

    method AddBranch(name: string, from: Option<string>) returns (ok: bool)
      requires Valid()
      modifies this`branches, this`Repr
      ensures Valid() && fresh(Repr - old(Repr))
      ensures (View(), ok) == D.AddBranch(old(View()), name, from)
    {
      if !D.IsValidBranchName(name) { return false; }
      var i := FindBranch(name);
      if i < |branches| { return false; }
      AppendCopy(name, from);
      ok := true;
    }

    method AppendCopy(name: string, from: Option<string>)
      requires Valid()
      modifies this`branches, this`Repr
      ensures Valid() && fresh(Repr - old(Repr))
      ensures View() == old(View()).(branches := old(View()).branches + [D.Branch(name,
                          if from.Some? && from.value != "" then D.FilesAt(old(View()), from.value) else [])])
    {
      var copies, cells := CopyOf(from);
      AppendBranch(name, copies, cells);
    }

    /** Put `files` in place of one branch's file list; every other branch still reads the same. */
    method SetFiles(b: nat, files: seq<FileCell>, ghost cells: set<object>)
      requires Valid() && b < |branches| && Distinct(files)
      requires forall k :: 0 <= k < |files| ==> files[k] in branches[b].files || files[k] in cells
      requires cells !! Repr && this !in cells
      modifies branches[b], this`Repr
      ensures Valid()
      ensures Repr == old(Repr) + cells
      ensures View() == old(View()).(branches := old(View()).branches[b :=
                          D.Branch(old(View()).branches[b].name, old(FilesView(files)))])
    {
      ghost var before := BranchesView(branches);
      forall j | 0 <= j < |branches| && j != b
        ensures Apart(branches[j].files, files) && Apart(files, branches[j].files)
      {
        assert Apart(branches[j].files, branches[b].files) && Owned(branches[j].files, Repr);
      }
      branches[b].files := files;
      Repr := Repr + cells;
      assert forall j :: 0 <= j < |branches| && j != b ==> branches[j].files == old(branches[j].files);
      assert NoSharing(branches);
      ViewAfterEdit(branches, before, b, FilesView(files));
    }

    method WriteContent(b: nat, k: nat, content: string)
      requires Valid() && b < |branches| && k < |branches[b].files|
      modifies branches[b].files[k]
      ensures Valid()
      ensures View() == old(View()).(branches := old(View()).branches[b := D.Branch(old(View()).branches[b].name,
                old(View()).branches[b].files[k := D.File(old(View()).branches[b].files[k].path, content)])])
    {
      ghost var before, fs := BranchesView(branches), FilesView(branches[b].files);
      branches[b].files[k].content := content;
      forall j | 0 <= j < |branches| && j != b
        ensures FilesView(branches[j].files) == old(FilesView(branches[j].files))
      {
        assert Apart(branches[j].files, branches[b].files);
      }
      ViewAfterEdit(branches, before, b, fs[k := D.File(fs[k].path, content)]);
    }

    method UpsertFile(name: string, path: string, content: string)
      requires Valid()
      modifies this`branches, this`Repr, Repr
      ensures Valid() && fresh(Repr - old(Repr))
      ensures old(branches) <= branches
      ensures View() == D.UpsertFile(old(View()), name, path, content)
    {
      ghost var before := View();
      var b := EnsureBranch(name);
      ghost var fs := D.FilesAt(before, name);
      D.SetFilesAfterEnsure(before, name, D.UpsertInto(fs, path, content));
      UpsertInBranch(b, path, content);
    }

    method UpsertInBranch(b: nat, path: string, content: string)
      requires Valid() && b < |branches|
      modifies this`Repr, branches[b], branches[b].files
      ensures Valid() && fresh(Repr - old(Repr))
      ensures View() == old(View()).(branches := old(View()).branches[b := D.Branch(old(View()).branches[b].name,
                          D.UpsertInto(old(View()).branches[b].files, path, content))])
    {
      var k := FindFile(branches[b].files, path);
      if k < |branches[b].files| {
        WriteContent(b, k, content);
      } else {
        var created := new FileCell(path, content);
        AppendDistinct(branches[b].files, created);
        assert FilesView(branches[b].files + [created]) == FilesView(branches[b].files) + [D.File(path, content)];
        SetFiles(b, branches[b].files + [created], {created});
      }
    }

    method ReplaceBranchTree(name: string, files: seq<FileCell>)
      requires Valid()
      modifies this`branches, this`Repr, Repr
      ensures Valid() && fresh(Repr - old(Repr))
      ensures View() == D.ReplaceBranchTree(old(View()), name, old(FilesView(files)))
    {
      var copies, cells := CloneFiles(files);
      StoreTree(name, copies, cells);
    }

    method StoreTree(name: string, files: seq<FileCell>, ghost cells: set<object>)
      requires Valid() && Distinct(files) && Owned(files, cells) && cells !! Repr && this !in cells
      modifies this`branches, this`Repr, Repr
      ensures Valid() && fresh(Repr - old(Repr) - cells)
      ensures View() == D.ReplaceBranchTree(old(View()), name, old(FilesView(files)))
    {
      ghost var before := View();
      var b := EnsureBranch(name);
      D.SetFilesAfterEnsure(before, name, FilesView(files));
      SetFiles(b, files, cells);
    }

    method OpenPullRequest(title: string, body: string, head: string, base: string) returns (pr: PrCell)
      requires Valid()
      modifies this`prs, this`nextPrNumber, this`Repr
      ensures Valid() && fresh(Repr - old(Repr))
      ensures View() == D.OpenPullRequest(old(View()), title, body, head, base)
      ensures |prs| > 0 && pr == prs[|prs| - 1]
    {
      pr := new PrCell(nextPrNumber, title, body, head, base);
      var all := D.DropOldest(prs + [pr]);
      OpenedView(prs, pr);
      StoreOpened(all, pr);
    }

    method StoreOpened(all: seq<PrCell>, ghost pr: PrCell)
      requires Valid() && Distinct(all)
      requires forall i :: 0 <= i < |all| ==> all[i] in prs || all[i] == pr
      modifies this`prs, this`nextPrNumber, this`Repr
      ensures Valid() && prs == all && Repr == old(Repr) + {pr}
      ensures View() == old(View()).(nextPrNumber := old(nextPrNumber) + 1, prs := old(PrsView(all)))
    {
      prs := all;
      nextPrNumber := nextPrNumber + 1;
      Repr := Repr + {pr};
    }

    method FindPr(number: int) returns (i: nat)
      requires Valid()
      ensures i == D.PrIndex(View().prs, number)
      ensures i <= |prs|
    {
      i := 0;
      while i < |prs| && prs[i].number != number
        invariant 0 <= i <= |prs|
        invariant forall j :: 0 <= j < i ==> prs[j].number != number
      {
        i := i + 1;
      }
    }

    method ClosePullRequest(number: int, merged: bool) returns (ok: bool)
      requires Valid()
      modifies prs
      ensures Valid()
      ensures (View(), ok) == D.SetPrState(old(View()), number, if merged then D.Merged else D.Closed)
    {
      var i := FindPr(number);
      if i == |prs| { return false; }
      WriteState(i, if merged then D.Merged else D.Closed);
      ok := true;
    }

    method WriteState(i: nat, state: D.PrState)
      requires Valid() && i < |prs|
      modifies prs[i]
      ensures Valid()
      ensures View() == old(View()).(prs := old(View()).prs[i := old(View()).prs[i].(state := state)])
    {
      prs[i].state := state;
      assert PrsView(prs) == old(PrsView(prs))[i := prs[i].View()];
      assert forall j :: 0 <= j < |branches| ==> FilesView(branches[j].files) == old(FilesView(branches[j].files));
      assert BranchesView(branches) == old(BranchesView(branches));
    }

    /** One round of the merge loop: file `k` of branch `h`, as it reads now, onto `base`. */
    method UpsertFrom(h: nat, k: nat, base: string)
      requires Valid() && h < |branches| && k < |branches[h].files|
      modifies this`branches, this`Repr, Repr
      ensures Valid() && fresh(Repr - old(Repr))
      ensures old(branches) <= branches
      ensures View() == D.UpsertFile(old(View()), base, old(View()).branches[h].files[k].path,
                                     old(View()).branches[h].files[k].content)
    {
      UpsertFile(base, branches[h].files[k].path, branches[h].files[k].content);
    }

    /** The merge loop: reads the live head list while the base list is being edited. */
    method UpsertAllFrom(h: nat, base: string)
      requires Valid() && h < |branches|
      modifies this`branches, this`Repr, Repr
      ensures Valid() && fresh(Repr - old(Repr))
      ensures View() == D.UpsertAll(old(View()), base, old(View()).branches[h].files)
    {
      ghost var before, files := View(), View().branches[h].files;
      assert files[..0] == [];
      var k := 0;
      while k < |branches[h].files|
        invariant Valid() && fresh(Repr - old(Repr)) && h < |branches|
        invariant Progress(before, View(), h, base, files, k)
        decreases |files| - k
      {
        ProgressStep(before, View(), h, base, files, k);
        UpsertFrom(h, k, base);
        k := k + 1;
      }
      assert files[..k] == files;
    }

    method ApplyHead(head: string, base: string)
      requires Valid()
      modifies this`branches, this`Repr, Repr
      ensures Valid() && fresh(Repr - old(Repr))
      ensures View() == D.UpsertAll(old(View()), base, D.FilesAt(old(View()), head))
    {
      var h := FindBranch(head);
      if h < |branches| {
        UpsertAllFrom(h, base);
      }
    }

    method MergePullRequest(number: int) returns (ok: bool)
      requires Valid()
      modifies this`branches, this`Repr, Repr
      ensures Valid() && fresh(Repr - old(Repr))
      ensures (View(), ok) == D.MergePullRequest(old(View()), number)
    {
      ghost var before := View();
      var i := FindPr(number);
      if i == |prs| { return false; }
      D.UpsertAllKeepsPrs(before, prs[i].base, D.FilesAt(before, prs[i].head));
      ApplyHead(prs[i].head, prs[i].base);
      ok := ClosePullRequest(number, true);
    }

    method StartCiRun(name: string)
      requires Valid()
      modifies this`ciRuns, this`nextRunId
      ensures Valid()
      ensures View() == D.StartCiRun(old(View()), name)
    {
      var i := FindBranch(name);
      RecordRun(name, i < |branches| && |branches[i].files| > 0);
    }

    method RecordRun(name: string, success: bool)
      requires Valid()
      modifies this`ciRuns, this`nextRunId
      ensures Valid()
      ensures View() == D.RecordRun(old(View()), name, success)
    {
      ciRuns := [D.CiRun(nextRunId, name, if success then D.Success else D.Failed)] + ciRuns;
      nextRunId := nextRunId + 1;
      if |ciRuns| > D.MAX_HISTORY {
        ciRuns := ciRuns[..D.MAX_HISTORY];
      }
    }
  }
}
