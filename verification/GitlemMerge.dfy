/** What a merge does to the path-to-content maps, and the file-level diff of a pull request. */
module GitlemMerge {
  import opened Common
  import opened GitlemDoc

  datatype ChangeKind = Added | Modified

  datatype Change = Change(path: string, kind: ChangeKind, headLines: nat, baseLines: nat)

  function CountNewlines(s: string): nat {
    if s == "" then 0 else (if s[0] == '\n' then 1 else 0) + CountNewlines(s[1..])
  }

  function LineCount(content: string): nat {
    if content == "" then 0 else 1 + CountNewlines(content)
  }

  function Entry(f: File, base: map<string, string>): Change {
    Change(f.path,
           if f.path in base then Modified else Added,
           LineCount(f.content),
           LineCount(if f.path in base then base[f.path] else ""))
  }

  predicate Differs(f: File, base: map<string, string>) {
    f.path !in base || base[f.path] != f.content
  }

  function ChangesOf(head: seq<File>, base: map<string, string>): seq<Change> {
    if head == [] then []
    else (if Differs(head[0], base) then [Entry(head[0], base)] else []) + ChangesOf(head[1..], base)
  }

  /** The comparison of the locale: whether one path may stand before another. */
  type PathOrder = (string, string) -> bool

  function Insert(c: Change, cs: seq<Change>, order: PathOrder): seq<Change> {
    if cs == [] || order(c.path, cs[0].path) then [c] + cs else [cs[0]] + Insert(c, cs[1..], order)
  }

  function SortByPath(cs: seq<Change>, order: PathOrder): seq<Change> {
    if cs == [] then [] else Insert(cs[0], SortByPath(cs[1..], order), order)
  }

  function PullRequestChanges(d: Doc, number: int, order: PathOrder): Option<seq<Change>> {
    var i := PrIndex(d.prs, number);
    if i < |d.prs| then Some(SortByPath(ChangesOf(FilesAt(d, d.prs[i].head), TreeAt(d, d.prs[i].base)), order))
    else None
  }

  // ---------------------------------------------------------------- the trees

  lemma {:induction false} UpsertIntoTree(fs: seq<File>, path: string, content: string)
    ensures Tree(UpsertInto(fs, path, content)) == Tree(fs)[path := content]
  {
    var r := UpsertInto(fs, path, content);
    if fs != [] {
      if fs[0].path == path {
        assert r[1..] == fs[1..];
      } else {
        UpsertIntoTree(fs[1..], path, content);
        assert r[1..] == UpsertInto(fs[1..], path, content);
      }
    }
  }

  lemma SetFilesReads(d: Doc, name: string, files: seq<File>, other: string)
    ensures FilesAt(d.(branches := SetFiles(d.branches, name, files)), other) ==
            if other == name then files else FilesAt(d, other)
  {
    var bs := d.branches;
    var r := SetFiles(bs, name, files);
    var k := BranchIndex(bs, name);
    assert r[k] == Branch(name, files);
    assert forall j :: 0 <= j < |bs| && j != k ==> r[j] == bs[j];
    if other != name {
      var i := BranchIndex(bs, other);
      if i < |bs| {
        assert r[i] == bs[i];
      }
    }
  }

  lemma UpsertFileReads(d: Doc, name: string, path: string, content: string, other: string)
    ensures other != name ==> FilesAt(UpsertFile(d, name, path, content), other) == FilesAt(d, other)
    ensures TreeAt(UpsertFile(d, name, path, content), name) == TreeAt(d, name)[path := content]
  {
    var fs := UpsertInto(FilesAt(d, name), path, content);
    SetFilesReads(d, name, fs, other);
    SetFilesReads(d, name, fs, name);
    UpsertIntoTree(FilesAt(d, name), path, content);
  }

  lemma AppendTree(init: seq<File>, last: File)
    requires DistinctPaths(init + [last])
    ensures DistinctPaths(init)
    ensures Tree(init + [last]) == Tree(init)[last.path := last.content]
  {
    var all := init + [last];
    assert forall k :: 0 <= k < |init| ==> all[k] == init[k];
    assert all[|init|] == last;
    assert UpsertInto(init, last.path, last.content) == all;
    UpsertIntoTree(init, last.path, last.content);
  }

  lemma UpdateOverride<K, V>(a: map<K, V>, b: map<K, V>, k: K, v: V)
    ensures (a + b)[k := v] == a + b[k := v]
  {
  }

  /** Upserting a listing reads as the old tree overridden by the listing, on that branch alone. */
  lemma {:induction false} UpsertAllReads(d: Doc, name: string, files: seq<File>, other: string)
    requires DistinctPaths(files)
    ensures other != name ==> FilesAt(UpsertAll(d, name, files), other) == FilesAt(d, other)
    ensures TreeAt(UpsertAll(d, name, files), name) == TreeAt(d, name) + Tree(files)
    decreases |files|
  {
    if files != [] {
      var init, last := files[..|files| - 1], files[|files| - 1];
      var mid := UpsertAll(d, name, init);
      assert files == init + [last];
      AppendTree(init, last);
      UpsertAllReads(d, name, init, other);
      UpsertFileReads(mid, name, last.path, last.content, other);
      UpdateOverride(TreeAt(d, name), Tree(init), last.path, last.content);
    }
  }

  // ------------------------------------------------------------- main results

  /**
    Merging makes the base read as itself overridden by the head, touches no
    other branch, and changes nothing about pull requests except this one's state.
   */
  lemma MergeOverridesBase(d: Doc, number: int, other: string)
    requires WellFormed(d)
    ensures MergePullRequest(d, number).1 == (PrIndex(d.prs, number) < |d.prs|)
    ensures !MergePullRequest(d, number).1 ==> MergePullRequest(d, number).0 == d
    ensures MergePullRequest(d, number).1 ==>
      var pr := d.prs[PrIndex(d.prs, number)];
      var r := MergePullRequest(d, number).0;
      && TreeAt(r, pr.base) == TreeAt(d, pr.base) + TreeAt(d, pr.head)
      && (other != pr.base ==> FilesAt(r, other) == FilesAt(d, other))
      && r.prs == d.prs[PrIndex(d.prs, number) := pr.(state := Merged)]
  {
    var i := PrIndex(d.prs, number);
    if i < |d.prs| {
      var pr := d.prs[i];
      UpsertAllReads(d, pr.base, FilesAt(d, pr.head), other);
      UpsertAllKeepsPrs(d, pr.base, FilesAt(d, pr.head));
    }
  }

  lemma {:induction false} ChangesOfLists(head: seq<File>, base: map<string, string>)
    requires DistinctPaths(head)
    ensures forall k :: 0 <= k < |head| && Differs(head[k], base) ==> Entry(head[k], base) in ChangesOf(head, base)
    ensures forall c :: c in ChangesOf(head, base) ==>
              exists k :: 0 <= k < |head| && Differs(head[k], base) && c == Entry(head[k], base)
    ensures DistinctChanges(ChangesOf(head, base))
  {
    if head != [] {
      var rest := head[1..];
      var cs, tail := ChangesOf(head, base), ChangesOf(rest, base);
      assert DistinctPaths(rest);
      ChangesOfLists(rest, base);
      assert forall k :: 0 <= k < |rest| ==> rest[k] == head[k + 1];
      forall c | c in cs
        ensures exists k :: 0 <= k < |head| && Differs(head[k], base) && c == Entry(head[k], base)
      {
        if c in tail {
          var k :| 0 <= k < |rest| && Differs(rest[k], base) && c == Entry(rest[k], base);
          assert head[k + 1] == rest[k];
        } else {
          assert c == Entry(head[0], base);
        }
      }
      forall k | 0 <= k < |tail|
        ensures tail[k].path != head[0].path
      {
        assert tail[k] in tail;
      }
      forall k | 0 <= k < |head| && Differs(head[k], base)
        ensures Entry(head[k], base) in cs
      {
        if k > 0 { assert rest[k - 1] == head[k]; }
      }
    }
  }

  ghost predicate DistinctChanges(cs: seq<Change>) {
    forall i, j :: 0 <= i < j < |cs| ==> cs[i].path != cs[j].path
  }

  predicate Lists(cs: seq<Change>, p: string) {
    exists k | 0 <= k < |cs| :: cs[k].path == p
  }

  lemma ChangesOfTree(head: seq<File>, base: map<string, string>, p: string)
    requires DistinctPaths(head)
    ensures Lists(ChangesOf(head, base), p) <==>
            p in Tree(head) && (p !in base || base[p] != Tree(head)[p])
  {
    var cs := ChangesOf(head, base);
    ChangesOfLists(head, base);
    if Lists(cs, p) {
      var k :| 0 <= k < |cs| && cs[k].path == p;
      assert cs[k] in cs;
      var j :| 0 <= j < |head| && Differs(head[j], base) && cs[k] == Entry(head[j], base);
      InTree(head, j);
    }
    if p in Tree(head) && (p !in base || base[p] != Tree(head)[p]) {
      var j := FileIndex(head, p);
      FirstEntryIsTree(head, p);
      assert Differs(head[j], base);
      assert Entry(head[j], base) in cs;
    }
  }

  lemma InTree(fs: seq<File>, j: nat)
    requires DistinctPaths(fs) && j < |fs|
    ensures fs[j].path in Tree(fs) && Tree(fs)[fs[j].path] == fs[j].content
  {
    assert FileIndex(fs, fs[j].path) == j;
    FirstEntryIsTree(fs, fs[j].path);
  }

  /**
    The listed paths are exactly those at which merging would change the base,
    each listed once and in the locale's order, marked added exactly when the
    base has no such path; so the list is empty exactly when the merge keeps the
    base's map.
   */
  lemma ChangesAreTheDifference(d: Doc, number: int, order: PathOrder)
    requires WellFormed(d)
    requires PrIndex(d.prs, number) < |d.prs|
    ensures var pr := d.prs[PrIndex(d.prs, number)];
      var cs := PullRequestChanges(d, number, order).value;
      var before, after := TreeAt(d, pr.base), TreeAt(MergePullRequest(d, number).0, pr.base);
      && (forall p :: Lists(cs, p) <==> p in after && (p !in before || before[p] != after[p]))
      && (forall k :: 0 <= k < |cs| ==> (cs[k].kind == Added <==> cs[k].path !in before))
      && DistinctChanges(cs)
      && (cs == [] <==> after == before)
      && (IsOrder(order) ==> SortedByPath(cs, order))
      && (forall k :: 0 <= k < |cs| ==> CountsLines(cs[k], before, after))
  {
    var pr := d.prs[PrIndex(d.prs, number)];
    var head, base := FilesAt(d, pr.head), TreeAt(d, pr.base);
    MergeOverridesBase(d, number, pr.base);
    DifferenceOf(head, base, base + Tree(head));
    LinesOf(head, base);
    SortKeepsList(ChangesOf(head, base), order);
    if IsOrder(order) { SortSorts(ChangesOf(head, base), order); }
    var all, cs := ChangesOf(head, base), SortByPath(ChangesOf(head, base), order);
    forall k | 0 <= k < |cs|
      ensures (cs[k].kind == Added <==> cs[k].path !in base) && CountsLines(cs[k], base, base + Tree(head))
    {
      assert cs[k] in all;
    }
    SameMembersList(all, cs);
  }

  /** The entry's line counts are those of the merged and of the present content, none for a missing file. */
  predicate CountsLines(c: Change, before: map<string, string>, after: map<string, string>) {
    && c.path in after && c.headLines == LineCount(after[c.path])
    && c.baseLines == if c.path in before then LineCount(before[c.path]) else 0
  }

  ghost predicate IsOrder(order: PathOrder) {
    && (forall a, b :: order(a, b) || order(b, a))
    && (forall a, b, c :: order(a, b) && order(b, c) ==> order(a, c))
  }

  ghost predicate SortedByPath(cs: seq<Change>, order: PathOrder) {
    forall i, j :: 0 <= i < j < |cs| ==> order(cs[i].path, cs[j].path)
  }

  lemma {:induction false} InsertKeeps(c: Change, cs: seq<Change>, order: PathOrder)
    ensures var r := Insert(c, cs, order);
      && |r| == |cs| + 1 && (forall x :: x in r <==> x in cs || x == c)
      && (DistinctChanges(cs) && (forall x :: x in cs ==> x.path != c.path) ==> DistinctChanges(r))
  {
    if cs != [] && !order(c.path, cs[0].path) {
      var rest := Insert(c, cs[1..], order);
      InsertKeeps(c, cs[1..], order);
      assert cs == [cs[0]] + cs[1..];
      if DistinctChanges(cs) && forall x :: x in cs ==> x.path != c.path {
        forall k | 0 <= k < |rest|
          ensures rest[k].path != cs[0].path
        {
          assert rest[k] in rest;
        }
      }
    }
  }

  /** Sorting keeps the entries, their number and their distinctness. */
  lemma {:induction false} SortKeepsList(cs: seq<Change>, order: PathOrder)
    ensures var r := SortByPath(cs, order);
      && |r| == |cs| && (forall x :: x in r <==> x in cs)
      && (DistinctChanges(cs) ==> DistinctChanges(r))
  {
    if cs != [] {
      SortKeepsList(cs[1..], order);
      InsertKeeps(cs[0], SortByPath(cs[1..], order), order);
      assert cs == [cs[0]] + cs[1..];
    }
  }

  lemma {:induction false} InsertSorts(c: Change, cs: seq<Change>, order: PathOrder)
    requires IsOrder(order) && SortedByPath(cs, order)
    ensures SortedByPath(Insert(c, cs, order), order)
  {
    if cs != [] {
      if order(c.path, cs[0].path) {
        assert forall k :: 0 <= k < |cs| ==> order(c.path, cs[k].path);
      } else {
        var rest := Insert(c, cs[1..], order);
        InsertSorts(c, cs[1..], order);
        InsertKeeps(c, cs[1..], order);
        forall k | 0 <= k < |rest|
          ensures order(cs[0].path, rest[k].path)
        {
          assert rest[k] in rest;
        }
      }
    }
  }

  lemma {:induction false} SortSorts(cs: seq<Change>, order: PathOrder)
    requires IsOrder(order)
    ensures SortedByPath(SortByPath(cs, order), order)
  {
    if cs != [] {
      SortSorts(cs[1..], order);
      InsertSorts(cs[0], SortByPath(cs[1..], order), order);
    }
  }

  lemma SameMembersList(a: seq<Change>, b: seq<Change>)
    requires forall x :: x in a <==> x in b
    ensures forall p :: Lists(a, p) <==> Lists(b, p)
  {
    forall p
      ensures Lists(a, p) <==> Lists(b, p)
    {
      if k :| 0 <= k < |a| && a[k].path == p { assert a[k] in b; }
      if k :| 0 <= k < |b| && b[k].path == p { assert b[k] in a; }
    }
  }

  lemma LinesOf(head: seq<File>, base: map<string, string>)
    requires DistinctPaths(head)
    ensures forall c :: c in ChangesOf(head, base) ==> CountsLines(c, base, base + Tree(head))
  {
    ChangesOfLists(head, base);
    forall c | c in ChangesOf(head, base)
      ensures CountsLines(c, base, base + Tree(head))
    {
      var j :| 0 <= j < |head| && Differs(head[j], base) && c == Entry(head[j], base);
      InTree(head, j);
    }
  }

  lemma DifferenceOf(head: seq<File>, base: map<string, string>, after: map<string, string>)
    requires DistinctPaths(head)
    requires after == base + Tree(head)
    ensures var cs := ChangesOf(head, base);
      && (forall p :: Lists(cs, p) <==> p in after && (p !in base || base[p] != after[p]))
      && (forall k :: 0 <= k < |cs| ==> (cs[k].kind == Added <==> cs[k].path !in base))
      && DistinctChanges(cs)
      && (cs == [] <==> after == base)
  {
    var cs := ChangesOf(head, base);
    forall p
      ensures Lists(cs, p) <==> p in after && (p !in base || base[p] != after[p])
    {
      ChangesOfTree(head, base, p);
    }
    ChangesOfLists(head, base);
    forall k | 0 <= k < |cs|
      ensures cs[k].kind == Added <==> cs[k].path !in base
    {
      assert cs[k] in cs;
    }
    if cs == [] {
      forall p | p in after
        ensures p in base && base[p] == after[p]
      {
        assert !Lists(cs, p);
      }
      assert after == base;
    } else {
      assert Lists(cs, cs[0].path);
    }
  }

  lemma CoveredHasNoChanges(d: Doc, k: nat, order: PathOrder)
    requires WellFormed(d) && k < |d.prs| && PrIndex(d.prs, d.prs[k].number) == k
    requires TreeAt(d, d.prs[k].base) + TreeAt(d, d.prs[k].head) == TreeAt(d, d.prs[k].base)
    ensures PullRequestChanges(d, d.prs[k].number, order) == Some([])
  {
    DifferenceOf(FilesAt(d, d.prs[k].head), TreeAt(d, d.prs[k].base), TreeAt(d, d.prs[k].base));
  }

  lemma OverrideTwice<K, V>(a: map<K, V>, b: map<K, V>)
    ensures (a + b) + b == a + b && (a + b) + (a + b) == a + b
  {
  }

  lemma MergeCoversBase(d: Doc, number: int)
    requires WellFormed(d) && PrIndex(d.prs, number) < |d.prs|
    ensures var pr := d.prs[PrIndex(d.prs, number)];
      var r := MergePullRequest(d, number).0;
      TreeAt(r, pr.base) + TreeAt(r, pr.head) == TreeAt(r, pr.base)
  {
    var pr := d.prs[PrIndex(d.prs, number)];
    MergeOverridesBase(d, number, pr.head);
    OverrideTwice(TreeAt(d, pr.base), TreeAt(d, pr.head));
  }

  /** Asking for the changes right after a merge gives the empty list. */
  lemma NoChangesAfterMerge(d: Doc, number: int, order: PathOrder)
    requires WellFormed(d) && PrIndex(d.prs, number) < |d.prs|
    ensures PullRequestChanges(MergePullRequest(d, number).0, number, order) == Some([])
  {
    var k := PrIndex(d.prs, number);
    MergeKeepsWellFormed(d, number);
    MergeCoversBase(d, number);
    assert MergePullRequest(d, number).0.prs == d.prs[k := d.prs[k].(state := Merged)] by {
      MergeOverridesBase(d, number, "");
    }
    SetStateKeepsIndex(d.prs, number, Merged);
    CoveredHasNoChanges(MergePullRequest(d, number).0, k, order);
  }

  lemma SetStateKeepsIndex(prs: seq<PullRequest>, number: int, state: PrState)
    requires PrIndex(prs, number) < |prs|
    ensures var k := PrIndex(prs, number);
      PrIndex(prs[k := prs[k].(state := state)], number) == k
  {
    var k := PrIndex(prs, number);
    var r := prs[k := prs[k].(state := state)];
    assert forall j :: 0 <= j < |prs| ==> r[j].number == prs[j].number;
  }

  /** The one branch an operation may write, if any. */
  function Target(d: Doc, op: DocOp): Option<string> {
    match op
    case AddBranchOp(name, _) => if HasBranch(d, name) then None else Some(name)
    case UpsertOp(name, _, _) => Some(name)
    case ReplaceTreeOp(name, _) => Some(name)
    case MergePrOp(number) =>
      if PrIndex(d.prs, number) < |d.prs| then Some(d.prs[PrIndex(d.prs, number)].base) else None
    case _ => None
  }

  lemma AddBranchReads(d: Doc, name: string, from: Option<string>, other: string)
    requires other != name
    ensures FilesAt(AddBranch(d, name, from).0, other) == FilesAt(d, other)
  {
    var r := AddBranch(d, name, from).0.branches;
    assert forall j :: 0 <= j < |d.branches| ==> r[j] == d.branches[j];
  }

  /** What the writing operations put into their target branch. */
  lemma ApplyWritesTarget(d: Doc, op: DocOp)
    ensures op.UpsertOp? ==> TreeAt(Apply(d, op), op.name) == TreeAt(d, op.name)[op.path := op.content]
    ensures op.ReplaceTreeOp? ==> FilesAt(Apply(d, op), op.name) == op.files
    ensures op.AddBranchOp? && IsValidBranchName(op.name) && !HasBranch(d, op.name) ==>
      FilesAt(Apply(d, op), op.name) == if op.from == None || op.from == Some("") then [] else FilesAt(d, op.from.value)
    ensures op.MergePrOp? && WellFormed(d) && PrIndex(d.prs, op.number) < |d.prs| ==>
      var k := PrIndex(d.prs, op.number);
      && TreeAt(Apply(d, op), d.prs[k].base) == TreeAt(d, d.prs[k].base) + TreeAt(d, d.prs[k].head)
      && Apply(d, op).prs == d.prs[k := d.prs[k].(state := Merged)]
  {
    match op
    case UpsertOp(name, path, content) => UpsertFileReads(d, name, path, content, name);
    case ReplaceTreeOp(name, files) => SetFilesReads(d, name, files, name);
    case AddBranchOp(name, from) => AddBranchExact(d, name, from);
    case MergePrOp(number) => if WellFormed(d) { MergeOverridesBase(d, number, ""); }
    case _ =>
  }

  /** No operation changes what is read from a branch other than its target. */
  lemma ApplyIsIsolated(d: Doc, op: DocOp, other: string)
    requires WellFormed(d)
    requires Target(d, op) != Some(other)
    ensures FilesAt(Apply(d, op), other) == FilesAt(d, other)
  {
    match op
    case AddBranchOp(name, from) =>
      if other != name { AddBranchReads(d, name, from, other); }
    case UpsertOp(name, path, content) => UpsertFileReads(d, name, path, content, other);
    case ReplaceTreeOp(name, files) => SetFilesReads(d, name, files, other);
    case MergePrOp(number) => MergeOverridesBase(d, number, other);
    case _ =>
  }

  /** A non-empty text has one line more than it has newlines; the empty text has none. */
  lemma {:induction false} LineCountExact(s: string)
    ensures LineCount(s) == if s == "" then 0 else 1 + |set i | 0 <= i < |s| && s[i] == '\n'|
  {
    NewlinesExact(s, 0);
    assert s[0..] == s;
  }

  lemma {:induction false} NewlinesExact(s: string, from: nat)
    requires from <= |s|
    ensures CountNewlines(s[from..]) == |set i | from <= i < |s| && s[i] == '\n'|
    decreases |s| - from
  {
    var here := set i | from <= i < |s| && s[i] == '\n';
    if from < |s| {
      var later := set i | from + 1 <= i < |s| && s[i] == '\n';
      NewlinesExact(s, from + 1);
      assert s[from..][1..] == s[from + 1..];
      assert here == if s[from] == '\n' then {from} + later else later;
    } else {
      assert here == {};
    }
  }
}
