/**
  Materialising a gitlem document into git refs: every branch is committed on a
  scaffold ref "doc-<name>", the default branch is copied to its real name, and
  the other scaffolds are renamed. The main result says exactly for which
  branch names and file paths this ends with the document's branches.
 */
module GitlemClone {
  import opened Common
  import opened Git
  import opened GitlemDoc
  import GitlemMerge

  function Scaffold(name: string): string {
    "doc-" + name
  }

  /**
    Where the path library puts a stored path: below the work dir, outside it
    (such a file is skipped), or nowhere a file can be written.
   */
  datatype Place = At(path: string) | Outside | Unwritable

  type Resolver = string -> Place

  function WriteTree(files: seq<File>, resolve: Resolver): Option<Git.Tree>
    decreases |files|
  {
    if files == [] then Some(map[])
    else
      var last := files[|files| - 1];
      var done := WriteTree(files[..|files| - 1], resolve);
      if done.None? then None
      else
        match resolve(last.path)
        case Outside => done
        case Unwritable => None
        case At(path) => WriteFile(done.value, path, last.content)
  }

  function CommitBranch(g: Repo, b: Branch, resolve: Resolver): Option<Repo> {
    var orphan := CheckoutOrphan(g, Scaffold(b.name));
    var tree := WriteTree(b.files, resolve);
    if orphan.None? || tree.None? then None else Commit(orphan.value.(work := tree.value))
  }

  function CommitAll(bs: seq<Branch>, k: nat, defaultBranch: string, resolve: Resolver): Option<Repo>
    requires k <= |bs|
  {
    if k == 0 then Init(defaultBranch)
    else
      var g := CommitAll(bs, k - 1, defaultBranch, resolve);
      if g.None? then None else CommitBranch(g.value, bs[k - 1], resolve)
  }

  /** The branch whose snapshot becomes the default: the one of that name, else the first. */
  function TargetName(bs: seq<Branch>, defaultBranch: string): string
    requires bs != []
  {
    if BranchIndex(bs, defaultBranch) < |bs| then defaultBranch else bs[0].name
  }

  function InstallDefault(g: Repo, target: string, defaultBranch: string): Option<Repo> {
    var g1 := Checkout(g, Scaffold(target));
    var g2 := if g1.None? then None else CheckoutReset(g1.value, defaultBranch);
    if g2.None? then None else DeleteBranch(g2.value, Scaffold(target))
  }

  /** Installing is skipped when the target's name is the empty text. */
  function Install(g: Repo, target: string, defaultBranch: string): Option<Repo> {
    if target == "" then Some(g) else InstallDefault(g, target, defaultBranch)
  }

  function RenameRound(g: Option<Repo>, name: string, target: string): Option<Repo> {
    if g.None? || name == target then g else RenameBranch(g.value, Scaffold(name), name)
  }

  function RenameAll(g: Repo, bs: seq<Branch>, target: string, k: nat): Option<Repo>
    requires k <= |bs|
  {
    if k == 0 then Some(g) else RenameRound(RenameAll(g, bs, target, k - 1), bs[k - 1].name, target)
  }

  function Materialize(bs: seq<Branch>, defaultBranch: string, resolve: Resolver): Option<Repo> {
    var g := CommitAll(bs, |bs|, defaultBranch, resolve);
    if bs == [] || g.None? then g
    else
      var target := TargetName(bs, defaultBranch);
      var installed := Install(g.value, target, defaultBranch);
      if installed.None? then None else RenameAll(installed.value, bs, target, |bs|)
  }

  method CommitBranches(bs: seq<Branch>, defaultBranch: string, resolve: Resolver) returns (r: Option<Repo>)
    ensures r == CommitAll(bs, |bs|, defaultBranch, resolve)
  {
    r := Init(defaultBranch);
    for k := 0 to |bs|
      invariant r == CommitAll(bs, k, defaultBranch, resolve)
    {
      if r.Some? { r := CommitBranch(r.value, bs[k], resolve); }
    }
  }

  method RenameScaffolds(g: Repo, bs: seq<Branch>, target: string) returns (r: Option<Repo>)
    ensures r == RenameAll(g, bs, target, |bs|)
  {
    r := Some(g);
    for k := 0 to |bs|
      invariant r == RenameAll(g, bs, target, k)
    {
      if r.Some? && bs[k].name != target { r := RenameBranch(r.value, Scaffold(bs[k].name), bs[k].name); }
    }
  }

  /** The source's sequence: a loop of commits, the default, a loop of renames. */
  method MaterializeDoc(bs: seq<Branch>, defaultBranch: string, resolve: Resolver) returns (r: Option<Repo>)
    ensures r == Materialize(bs, defaultBranch, resolve)
  {
    r := CommitBranches(bs, defaultBranch, resolve);
    if bs == [] || r.None? { return; }
    var target := TargetName(bs, defaultBranch);
    if target != "" { r := InstallDefault(r.value, target, defaultBranch); }
    if r.Some? { r := RenameScaffolds(r.value, bs, target); }
  }

  // ------------------------------------------------------------ vocabulary

  /** Every path is already in resolved form and none is a directory of another. */
  ghost predicate PlainFiles(fs: seq<File>, resolve: Resolver) {
    && (forall i :: 0 <= i < |fs| ==> resolve(fs[i].path) == At(fs[i].path))
    && (forall i, j :: 0 <= i < |fs| && 0 <= j < |fs| ==> !Under(fs[i].path, fs[j].path))
  }

  ghost predicate PlainBranches(bs: seq<Branch>, resolve: Resolver) {
    forall i :: 0 <= i < |bs| ==> PlainFiles(bs[i].files, resolve)
  }

  /** A resolved path resolves to itself. */
  ghost predicate Resolves(resolve: Resolver) {
    forall p :: resolve(p).At? ==> resolve(resolve(p).path) == resolve(p)
  }

  /** The refs are the document's branches, no more and no less, with their trees. */
  ghost predicate Mirrors(refs: map<string, Git.Tree>, bs: seq<Branch>) {
    && (forall i :: 0 <= i < |bs| ==> bs[i].name in refs && refs[bs[i].name] == GitlemDoc.Tree(bs[i].files))
    && (forall r :: r in refs ==> exists i :: 0 <= i < |bs| && bs[i].name == r)
  }

  /** The tree that gets committed for a branch (empty when writing it fails). */
  function Written(b: Branch, resolve: Resolver): Git.Tree {
    var t := WriteTree(b.files, resolve);
    if t.Some? then t.value else map[]
  }

  /** The files of the first `k` branches can be written. */
  ghost predicate Writable(bs: seq<Branch>, k: nat, resolve: Resolver)
    requires k <= |bs|
  {
    k == 0 || (Writable(bs, k - 1, resolve) && WriteTree(bs[k - 1].files, resolve).Some?)
  }

  lemma {:induction false} WritableAt(bs: seq<Branch>, k: nat, resolve: Resolver, i: nat)
    requires i < k <= |bs| && Writable(bs, k, resolve)
    ensures WriteTree(bs[i].files, resolve) == Some(Written(bs[i], resolve))
  {
    if i < k - 1 { WritableAt(bs, k - 1, resolve, i); }
  }

  lemma {:induction false} AllWritable(bs: seq<Branch>, k: nat, resolve: Resolver)
    requires k <= |bs| && forall i :: 0 <= i < |bs| ==> WriteTree(bs[i].files, resolve).Some?
    ensures Writable(bs, k, resolve)
  {
    if k > 0 { AllWritable(bs, k - 1, resolve); }
  }

  ghost predicate NextApart(bs: seq<Branch>, k: nat)
    requires k < |bs|
  {
    forall i :: 0 <= i < k ==> !Clash(bs[i].name, bs[k].name)
  }

  /** No two of the first `k` names are equal or nested. */
  ghost predicate NamesApart(bs: seq<Branch>, k: nat)
    requires k <= |bs|
  {
    k == 0 || (NamesApart(bs, k - 1) && NextApart(bs, k - 1))
  }

  lemma {:induction false} ApartPair(bs: seq<Branch>, k: nat, i: nat, j: nat)
    requires i < j < k <= |bs| && NamesApart(bs, k)
    ensures !Clash(bs[i].name, bs[j].name)
  {
    if j < k - 1 { ApartPair(bs, k - 1, i, j); }
  }

  /** The default name keeps clear of every scaffold that is still there when it is created. */
  ghost predicate DefaultClear(bs: seq<Branch>, defaultBranch: string) {
    forall i :: 0 <= i < |bs| && bs[i].name != defaultBranch ==> !Clash(defaultBranch, Scaffold(bs[i].name))
  }

  ghost predicate NextClear(bs: seq<Branch>, defaultBranch: string, k: nat)
    requires k < |bs|
  {
    bs[k].name != defaultBranch ==>
      && bs[k].name != ""
      && forall j :: k < j < |bs| && bs[j].name != defaultBranch ==> !Clash(bs[k].name, Scaffold(bs[j].name))
  }

  /**
    No two names clash, the default clashes with no other scaffold, and each of
    the first `k` names is not empty and clashes with no scaffold of a branch
    listed after it.
   */
  ghost predicate ClearFor(bs: seq<Branch>, d: string, k: nat)
    requires k <= |bs|
  {
    if k == 0 then NamesApart(bs, |bs|) && DefaultClear(bs, d)
    else ClearFor(bs, d, k - 1) && NextClear(bs, d, k - 1)
  }

  lemma {:induction false} ClearParts(bs: seq<Branch>, d: string, k: nat)
    requires k <= |bs| && ClearFor(bs, d, k)
    ensures NamesApart(bs, |bs|) && DefaultClear(bs, d)
  {
    if k > 0 { ClearParts(bs, d, k - 1); }
  }

  lemma {:induction false} ClearPair(bs: seq<Branch>, d: string, k: nat, i: nat, j: nat)
    requires i < k <= |bs| && i < j < |bs| && ClearFor(bs, d, k)
    requires bs[i].name != d && bs[j].name != d
    ensures !Clash(bs[i].name, Scaffold(bs[j].name))
  {
    if i < k - 1 { ClearPair(bs, d, k - 1, i, j); }
  }

  ghost predicate Clean(bs: seq<Branch>, d: string) {
    d != "" && BranchIndex(bs, d) < |bs| && ClearFor(bs, d, |bs|)
  }

  lemma ScaffoldClash(a: string, b: string)
    ensures Under(Scaffold(a), Scaffold(b)) <==> Under(a, b)
    ensures Scaffold(a) == Scaffold(b) <==> a == b
  {
    var x, y := Scaffold(a) + "/", Scaffold(b);
    assert x == "doc-" + (a + "/");
    assert x[4..] == a + "/" && y[4..] == b && x[..4] == y[..4] == "doc-";
    if Under(Scaffold(a), Scaffold(b)) {
      assert b[..|a| + 1] == y[..|x|][4..];
    }
    if Under(a, b) {
      assert y[..|x|] == "doc-" + b[..|a| + 1];
    }
  }

  // --------------------------------------------------------------- phase one

  lemma {:induction false} TreePaths(fs: seq<File>, p: string)
    ensures p in GitlemDoc.Tree(fs) <==> exists i :: 0 <= i < |fs| && fs[i].path == p
  {
    FirstEntryIsTree(fs, p);
  }

  lemma NextFileFits(fs: seq<File>, k: nat, resolve: Resolver)
    requires PlainFiles(fs, resolve) && k < |fs|
    ensures forall q :: q in GitlemDoc.Tree(fs[..k]) ==> !Under(q, fs[k].path) && !Under(fs[k].path, q)
  {
    forall q | q in GitlemDoc.Tree(fs[..k])
      ensures !Under(q, fs[k].path) && !Under(fs[k].path, q)
    {
      TreePaths(fs[..k], q);
      var i :| 0 <= i < |fs[..k]| && fs[..k][i].path == q;
      assert fs[i].path == q;
    }
  }

  lemma PlainPrefix(fs: seq<File>, k: nat, resolve: Resolver)
    requires DistinctPaths(fs) && PlainFiles(fs, resolve) && k < |fs|
    ensures DistinctPaths(fs[..k]) && PlainFiles(fs[..k], resolve)
    ensures fs[k].path !in GitlemDoc.Tree(fs[..k])
  {
    TreePaths(fs[..k], fs[k].path);
    assert forall i :: 0 <= i < k ==> fs[..k][i] == fs[i];
  }

  lemma {:induction false} WriteTreeIsTree(fs: seq<File>, resolve: Resolver)
    requires DistinctPaths(fs) && PlainFiles(fs, resolve)
    ensures WriteTree(fs, resolve) == Some(GitlemDoc.Tree(fs))
    decreases |fs|
  {
    if fs != [] {
      var k := |fs| - 1;
      PlainPrefix(fs, k, resolve);
      WriteTreeIsTree(fs[..k], resolve);
      NextFileFits(fs, k, resolve);
      GitlemMerge.AppendTree(fs[..k], fs[k]);
      WriteTreeSnoc(fs[..k], fs[k], resolve);
      assert fs == fs[..k] + [fs[k]];
    }
  }

  /** Whatever gets written sits at resolved paths, none of them a directory of another. */
  lemma {:induction false} WrittenPaths(fs: seq<File>, resolve: Resolver, t: Git.Tree)
    requires WriteTree(fs, resolve) == Some(t)
    ensures forall q :: q in t ==> exists i :: 0 <= i < |fs| && resolve(fs[i].path) == At(q)
    ensures forall q, r :: q in t && r in t ==> !Under(q, r)
    decreases |fs|
  {
    if fs != [] {
      var init, last := fs[..|fs| - 1], fs[|fs| - 1];
      var before := WriteTree(init, resolve).value;
      WrittenPaths(init, resolve, before);
      forall q | q in t
        ensures exists i :: 0 <= i < |fs| && resolve(fs[i].path) == At(q)
      {
        if q in before {
          var i :| 0 <= i < |init| && resolve(init[i].path) == At(q);
          assert resolve(fs[i].path) == At(q);
        } else {
          assert resolve(fs[|fs| - 1].path) == At(q);
        }
      }
      if resolve(last.path).At? {
        NotUnderItself(resolve(last.path).path);
      }
    }
  }

  /** A file whose path leaves the work dir makes no difference to what is written, wherever it is listed. */
  lemma {:induction false} OutsideIsSkipped(a: seq<File>, f: File, b: seq<File>, resolve: Resolver)
    requires resolve(f.path) == Outside
    ensures WriteTree(a + [f] + b, resolve) == WriteTree(a + b, resolve)
    decreases |b|
  {
    if b == [] {
      assert (a + [f] + b)[..|a|] == a && a + b == a && a + [f] + b == a + [f];
    } else {
      var init, last := b[..|b| - 1], b[|b| - 1];
      assert a + [f] + b == (a + [f] + init) + [last] && a + b == (a + init) + [last];
      WriteTreeSnoc(a + [f] + init, last, resolve);
      WriteTreeSnoc(a + init, last, resolve);
      OutsideIsSkipped(a, f, init, resolve);
    }
  }

  /** A file that cannot be written fails the whole branch. */
  lemma {:induction false} UnwritableFails(a: seq<File>, f: File, b: seq<File>, resolve: Resolver)
    requires resolve(f.path) == Unwritable
    ensures WriteTree(a + [f] + b, resolve) == None
    decreases |b|
  {
    if b == [] {
      assert a + [f] + b == a + [f];
      WriteTreeSnoc(a, f, resolve);
    } else {
      var init, last := b[..|b| - 1], b[|b| - 1];
      assert a + [f] + b == (a + [f] + init) + [last];
      WriteTreeSnoc(a + [f] + init, last, resolve);
      UnwritableFails(a, f, init, resolve);
    }
  }

  lemma WriteTreeSnoc(fs: seq<File>, last: File, resolve: Resolver)
    ensures var done := WriteTree(fs, resolve);
      WriteTree(fs + [last], resolve) ==
        if done.None? then None
        else
          match resolve(last.path)
          case Outside => done
          case Unwritable => None
          case At(path) => WriteFile(done.value, path, last.content)
  {
    assert (fs + [last])[..|fs + [last]| - 1] == fs;
  }

  lemma NotUnderItself(p: string)
    ensures !Under(p, p)
  {
  }

  /** A branch's files are written as they read exactly when all its paths are plain. */
  lemma WriteTreeExact(fs: seq<File>, resolve: Resolver)
    requires DistinctPaths(fs) && Resolves(resolve)
    ensures WriteTree(fs, resolve) == Some(GitlemDoc.Tree(fs)) <==> PlainFiles(fs, resolve)
  {
    if PlainFiles(fs, resolve) {
      WriteTreeIsTree(fs, resolve);
    } else if WriteTree(fs, resolve) == Some(GitlemDoc.Tree(fs)) {
      WrittenPaths(fs, resolve, GitlemDoc.Tree(fs));
      forall i | 0 <= i < |fs|
        ensures fs[i].path in GitlemDoc.Tree(fs) && resolve(fs[i].path) == At(fs[i].path)
      {
        TreePaths(fs, fs[i].path);
        var j :| 0 <= j < |fs| && resolve(fs[j].path) == At(fs[i].path);
      }
      assert false;
    }
  }

  /** The first `k` scaffolds with their trees. */
  function Scaffolds(bs: seq<Branch>, k: nat, resolve: Resolver): map<string, Git.Tree>
    requires k <= |bs|
  {
    if k == 0 then map[] else Scaffolds(bs, k - 1, resolve)[Scaffold(bs[k - 1].name) := Written(bs[k - 1], resolve)]
  }

  lemma ScaffoldsHold(bs: seq<Branch>, k: nat, resolve: Resolver)
    requires k <= |bs|
    ensures forall r :: r in Scaffolds(bs, k, resolve) <==> exists i :: 0 <= i < k && r == Scaffold(bs[i].name)
  {
  }

  lemma {:induction false} ScaffoldTree(bs: seq<Branch>, k: nat, i: nat, resolve: Resolver)
    requires i < k <= |bs| && NamesApart(bs, k)
    ensures Scaffold(bs[i].name) in Scaffolds(bs, k, resolve)
    ensures Scaffolds(bs, k, resolve)[Scaffold(bs[i].name)] == Written(bs[i], resolve)
  {
    if i < k - 1 {
      ScaffoldTree(bs, k - 1, i, resolve);
      ApartPair(bs, k, i, k - 1);
      ScaffoldClash(bs[i].name, bs[k - 1].name);
    }
  }

  lemma ScaffoldFree(bs: seq<Branch>, k: nat, resolve: Resolver)
    requires k < |bs|
    ensures var refs, name := Scaffolds(bs, k, resolve), Scaffold(bs[k].name);
      (name in refs || Blocked(refs, name)) <==> !NextApart(bs, k)
  {
    var name := bs[k].name;
    ScaffoldsHold(bs, k, resolve);
    forall i | 0 <= i < k
      ensures Scaffold(bs[i].name) in Scaffolds(bs, k, resolve)
      ensures Under(Scaffold(bs[i].name), Scaffold(name)) <==> Under(bs[i].name, name)
      ensures Under(Scaffold(name), Scaffold(bs[i].name)) <==> Under(name, bs[i].name)
      ensures Scaffold(bs[i].name) == Scaffold(name) <==> bs[i].name == name
    {
      ScaffoldClash(bs[i].name, name);
      ScaffoldClash(name, bs[i].name);
    }
    if !NextApart(bs, k) {
      var i :| 0 <= i < k && Clash(bs[i].name, name);
      assert Scaffold(bs[i].name) in Scaffolds(bs, k, resolve);
    }
  }

  lemma CommitBranchStep(g: Repo, bs: seq<Branch>, k: nat, resolve: Resolver)
    requires k < |bs| && g.refs == Scaffolds(bs, k, resolve)
    ensures var r := CommitBranch(g, bs[k], resolve);
      && (r.Some? <==> NextApart(bs, k) && WriteTree(bs[k].files, resolve).Some?)
      && (r.Some? ==> r.value.refs == Scaffolds(bs, k + 1, resolve))
  {
    ScaffoldFree(bs, k, resolve);
  }

  /**
    The commits go through exactly when the default has a name, no two names
    clash and all files can be written, and then leave one scaffold a branch.
   */
  lemma {:induction false} CommitAllExact(bs: seq<Branch>, k: nat, defaultBranch: string, resolve: Resolver)
    requires k <= |bs|
    ensures CommittedTo(CommitAll(bs, k, defaultBranch, resolve), bs, k, defaultBranch, resolve)
  {
    if k > 0 {
      CommitAllExact(bs, k - 1, defaultBranch, resolve);
      NextCommit(CommitAll(bs, k - 1, defaultBranch, resolve), bs, k - 1, defaultBranch, resolve);
    }
  }

  /** After `k` commits: done exactly so far, with one scaffold a branch. */
  ghost predicate CommittedTo(g: Option<Repo>, bs: seq<Branch>, k: nat, d: string, resolve: Resolver)
    requires k <= |bs|
  {
    && (g.Some? <==> d != "" && NamesApart(bs, k) && Writable(bs, k, resolve))
    && (g.Some? ==> g.value.refs == Scaffolds(bs, k, resolve))
  }

  lemma NextCommit(g: Option<Repo>, bs: seq<Branch>, k: nat, d: string, resolve: Resolver)
    requires k < |bs| && CommittedTo(g, bs, k, d, resolve)
    ensures CommittedTo(if g.None? then None else CommitBranch(g.value, bs[k], resolve), bs, k + 1, d, resolve)
  {
    if g.Some? {
      CommitBranchStep(g.value, bs, k, resolve);
    }
  }

  // --------------------------------------------------- installing the default

  lemma Periodic(d: string, m: nat)
    requires Under(d, Scaffold(d)) && m <= |d|
    ensures Scaffold(d)[m] in "doc-"
  {
    var s := Scaffold(d);
    assert s[..|d| + 1] == d + "/";
    if m >= 4 {
      Periodic(d, m - 4);
      assert s[m] == d[m - 4] == (d + "/")[m - 4] == s[m - 4];
    } else {
      assert s[m] == "doc-"[m];
    }
  }

  /** A name never clashes with its own scaffold. */
  lemma OwnScaffoldClear(d: string)
    ensures !Clash(d, Scaffold(d))
  {
    if Under(d, Scaffold(d)) {
      assert Scaffold(d)[..|d| + 1] == d + "/";
      assert Scaffold(d)[|d|] == (d + "/")[|d|];
      Periodic(d, |d|);
      assert false;
    }
  }

  lemma InstallKeys(g: Repo, bs: seq<Branch>, target: string, d: string, resolve: Resolver)
    requires g.refs == Scaffolds(bs, |bs|, resolve)
    ensures var r := InstallDefault(g, target, d);
      r.Some? ==> r.value.refs.Keys == g.refs.Keys + {d} - {Scaffold(target)}
  {
  }

  // ------------------------------------------------------------- the renames

  /** The ref that holds branch `i` after `k` rounds of renames. */
  function RefName(bs: seq<Branch>, d: string, k: nat, i: nat): string
    requires i < |bs|
  {
    if bs[i].name == d || i < k then bs[i].name else Scaffold(bs[i].name)
  }

  /** Where the first `m` branches are after `k` rounds of renames. */
  function Layout(bs: seq<Branch>, d: string, k: nat, m: nat, resolve: Resolver): map<string, Git.Tree>
    requires m <= |bs|
  {
    if m == 0 then map[]
    else Layout(bs, d, k, m - 1, resolve)[RefName(bs, d, k, m - 1) := Written(bs[m - 1], resolve)]
  }

  lemma RefNamesDiffer(bs: seq<Branch>, d: string, k: nat, i: nat, j: nat)
    requires i < j < |bs| && k <= |bs| && ClearFor(bs, d, k)
    ensures RefName(bs, d, k, i) != RefName(bs, d, k, j)
  {
    ClearParts(bs, d, k);
    ApartPair(bs, |bs|, i, j);
    ScaffoldClash(bs[i].name, bs[j].name);
    if bs[i].name != d && bs[j].name != d && i < k <= j {
      ClearPair(bs, d, k, i, j);
    }
  }

  ghost predicate DistinctRefs(bs: seq<Branch>, d: string, k: nat) {
    forall i, j :: 0 <= i < j < |bs| ==> RefName(bs, d, k, i) != RefName(bs, d, k, j)
  }

  lemma ClearRefsAreDistinct(bs: seq<Branch>, d: string, k: nat)
    requires k <= |bs| && ClearFor(bs, d, k)
    ensures DistinctRefs(bs, d, k)
  {
    forall i, j | 0 <= i < j < |bs|
      ensures RefName(bs, d, k, i) != RefName(bs, d, k, j)
    {
      RefNamesDiffer(bs, d, k, i, j);
    }
  }

  lemma {:induction false} LayoutMember(bs: seq<Branch>, d: string, k: nat, m: nat, q: string, resolve: Resolver)
    returns (i: nat)
    requires m <= |bs| && q in Layout(bs, d, k, m, resolve)
    ensures i < m && q == RefName(bs, d, k, i)
  {
    if q == RefName(bs, d, k, m - 1) {
      i := m - 1;
    } else {
      i := LayoutMember(bs, d, k, m - 1, q, resolve);
    }
  }

  lemma {:induction false} LayoutHas(bs: seq<Branch>, d: string, k: nat, m: nat, i: nat, resolve: Resolver)
    requires i < m <= |bs| && DistinctRefs(bs, d, k)
    ensures RefName(bs, d, k, i) in Layout(bs, d, k, m, resolve)
    ensures Layout(bs, d, k, m, resolve)[RefName(bs, d, k, i)] == Written(bs[i], resolve)
  {
    if i < m - 1 {
      LayoutHas(bs, d, k, m - 1, i, resolve);
    }
  }

  lemma {:induction false} LayoutMisses(bs: seq<Branch>, d: string, k: nat, m: nat, j: nat, resolve: Resolver)
    requires m <= j < |bs| && DistinctRefs(bs, d, k)
    ensures RefName(bs, d, k, j) !in Layout(bs, d, k, m, resolve)
  {
    if m > 0 { LayoutMisses(bs, d, k, m - 1, j, resolve); }
  }

  lemma MoveKey<V>(a: map<string, V>, from: string, to: string, t: V, x: string, v: V)
    requires x != from && x != to
    ensures (a - {from})[to := t][x := v] == (a[x := v] - {from})[to := t]
  {
  }

  lemma ReplaceKey<V>(a: map<string, V>, from: string, to: string, t: V)
    requires from !in a
    ensures (a[from := t] - {from})[to := t] == a[to := t]
  {
  }

  /** Replacing the entry of branch `k` by its real name is the next layout. */
  lemma {:induction false} LayoutRename(bs: seq<Branch>, d: string, k: nat, m: nat, resolve: Resolver)
    requires k < m <= |bs| && bs[k].name != d
    requires DistinctRefs(bs, d, k) && DistinctRefs(bs, d, k + 1)
    ensures Layout(bs, d, k + 1, m, resolve) ==
            (Layout(bs, d, k, m, resolve) - {Scaffold(bs[k].name)})[bs[k].name := Written(bs[k], resolve)]
    decreases m
  {
    var from, to, t := Scaffold(bs[k].name), bs[k].name, Written(bs[k], resolve);
    if m == k + 1 {
      LayoutSame(bs, d, k, k, resolve);
      LayoutMisses(bs, d, k, k, k, resolve);
      ReplaceKey(Layout(bs, d, k, k, resolve), from, to, t);
    } else {
      LayoutRename(bs, d, k, m - 1, resolve);
      assert RefName(bs, d, k, k) == from && RefName(bs, d, k + 1, k) == to;
      assert RefName(bs, d, k, m - 1) == RefName(bs, d, k + 1, m - 1);
      MoveKey(Layout(bs, d, k, m - 1, resolve), from, to, t, RefName(bs, d, k, m - 1), Written(bs[m - 1], resolve));
    }
  }

  lemma {:induction false} LayoutSame(bs: seq<Branch>, d: string, k: nat, m: nat, resolve: Resolver)
    requires m <= |bs| && (m <= k || (k < |bs| && bs[k].name == d))
    ensures Layout(bs, d, k + 1, m, resolve) == Layout(bs, d, k, m, resolve)
  {
    if m > 0 {
      LayoutSame(bs, d, k, m - 1, resolve);
    }
  }

  lemma RenameGuard(bs: seq<Branch>, d: string, k: nat, resolve: Resolver)
    requires k < |bs| && bs[k].name != d && ClearFor(bs, d, k)
    ensures var rest := Layout(bs, d, k, |bs|, resolve) - {Scaffold(bs[k].name)};
      (bs[k].name == "" || bs[k].name in rest || Blocked(rest, bs[k].name)) <==> !NextClear(bs, d, k)
  {
    var from, to := Scaffold(bs[k].name), bs[k].name;
    var rest := Layout(bs, d, k, |bs|, resolve) - {from};
    ClearParts(bs, d, k);
    if NextClear(bs, d, k) {
      forall q | q in rest
        ensures !Clash(q, to)
      {
        var i := LayoutMember(bs, d, k, |bs|, q, resolve);
        if i != k {
          ApartPair(bs, |bs|, if i < k then i else k, if i < k then k else i);
        }
      }
    } else if to != "" {
      var j :| k < j < |bs| && bs[j].name != d && Clash(to, Scaffold(bs[j].name));
      ApartPair(bs, |bs|, k, j);
      ScaffoldClash(bs[k].name, bs[j].name);
      ClearRefsAreDistinct(bs, d, k);
      LayoutHas(bs, d, k, |bs|, j, resolve);
      assert Scaffold(bs[j].name) in rest;
    }
  }

  lemma NextLayout(bs: seq<Branch>, d: string, k: nat, resolve: Resolver)
    requires k < |bs| && bs[k].name != d && ClearFor(bs, d, k)
    ensures var from, tree, now := Scaffold(bs[k].name), Written(bs[k], resolve), Layout(bs, d, k, |bs|, resolve);
      && from in now && now[from] == tree
      && (NextClear(bs, d, k) ==> Layout(bs, d, k + 1, |bs|, resolve) == (now - {from})[bs[k].name := tree])
  {
    ClearRefsAreDistinct(bs, d, k);
    LayoutHas(bs, d, k, |bs|, k, resolve);
    if NextClear(bs, d, k) {
      ClearRefsAreDistinct(bs, d, k + 1);
      LayoutRename(bs, d, k, |bs|, resolve);
    }
  }

  lemma RenameStep(g: Repo, bs: seq<Branch>, d: string, k: nat, resolve: Resolver)
    requires k < |bs| && bs[k].name != d && ClearFor(bs, d, k)
    requires g.refs == Layout(bs, d, k, |bs|, resolve)
    ensures var r := RenameBranch(g, Scaffold(bs[k].name), bs[k].name);
      (r.Some? <==> NextClear(bs, d, k)) && (r.Some? ==> r.value.refs == Layout(bs, d, k + 1, |bs|, resolve))
  {
    NextLayout(bs, d, k, resolve);
    RenameGuard(bs, d, k, resolve);
  }

  /** After `k` rounds the renames still go exactly when the names are clear so far, and the refs are known. */
  ghost predicate RenamedTo(r: Option<Repo>, bs: seq<Branch>, d: string, k: nat, resolve: Resolver)
    requires k <= |bs|
  {
    (r.Some? <==> ClearFor(bs, d, k)) && (r.Some? ==> r.value.refs == Layout(bs, d, k, |bs|, resolve))
  }

  /** One round of the rename loop, the default branch being skipped. */
  lemma RoundExact(g: Option<Repo>, bs: seq<Branch>, d: string, k: nat, resolve: Resolver)
    requires k < |bs| && RenamedTo(g, bs, d, k, resolve)
    ensures RenamedTo(RenameRound(g, bs[k].name, d), bs, d, k + 1, resolve)
  {
    if g.Some? {
      if bs[k].name == d {
        LayoutSame(bs, d, k, |bs|, resolve);
      } else {
        RenameStep(g.value, bs, d, k, resolve);
      }
    }
  }

  lemma {:induction false} RenameAllExact(g: Repo, bs: seq<Branch>, d: string, k: nat, resolve: Resolver)
    requires k <= |bs| && RenamedTo(Some(g), bs, d, 0, resolve)
    ensures RenamedTo(RenameAll(g, bs, d, k), bs, d, k, resolve)
  {
    if k > 0 {
      RenameAllExact(g, bs, d, k - 1, resolve);
      RoundExact(RenameAll(g, bs, d, k - 1), bs, d, k - 1, resolve);
    }
  }

  /** Neither branch `t`'s name nor its scaffold is used by another branch. */
  ghost predicate AloneAt(bs: seq<Branch>, t: nat)
    requires t < |bs|
  {
    forall i :: 0 <= i < |bs| && i != t ==>
      && bs[i].name != bs[t].name
      && Scaffold(bs[i].name) != bs[t].name && Scaffold(bs[i].name) != Scaffold(bs[t].name)
  }

  lemma ClearIsAlone(bs: seq<Branch>, t: nat)
    requires t < |bs| && ClearFor(bs, bs[t].name, 0)
    ensures AloneAt(bs, t)
  {
    forall i | 0 <= i < |bs| && i != t
      ensures bs[i].name != bs[t].name
      ensures Scaffold(bs[i].name) != bs[t].name && Scaffold(bs[i].name) != Scaffold(bs[t].name)
    {
      ApartPair(bs, |bs|, if i < t then i else t, if i < t then t else i);
      ScaffoldClash(bs[i].name, bs[t].name);
    }
  }

  /** Before branch `t` nothing differs from the scaffolds. */
  lemma {:induction false} LayoutBefore(bs: seq<Branch>, t: nat, m: nat, resolve: Resolver)
    requires m <= t < |bs| && AloneAt(bs, t)
    ensures Layout(bs, bs[t].name, 0, m, resolve) == Scaffolds(bs, m, resolve)
  {
    if m > 0 { LayoutBefore(bs, t, m - 1, resolve); }
  }

  lemma LayoutAtTarget(bs: seq<Branch>, t: nat, resolve: Resolver)
    requires t < |bs| && AloneAt(bs, t)
    ensures Layout(bs, bs[t].name, 0, t + 1, resolve) == Installed(bs, t, t + 1, resolve)
  {
    LayoutBefore(bs, t, t, resolve);
    ScaffoldsMiss(bs, t, t, resolve);
    InstallKey(Scaffolds(bs, t, resolve), Scaffold(bs[t].name), bs[t].name, Written(bs[t], resolve));
  }

  /** The first `m` scaffolds after the default was copied to its name and its scaffold deleted. */
  function Installed(bs: seq<Branch>, t: nat, m: nat, resolve: Resolver): map<string, Git.Tree>
    requires t < |bs| && m <= |bs|
  {
    Scaffolds(bs, m, resolve)[bs[t].name := Written(bs[t], resolve)] - {Scaffold(bs[t].name)}
  }

  lemma InstalledNext(bs: seq<Branch>, t: nat, m: nat, resolve: Resolver)
    requires t < m < |bs| && AloneAt(bs, t)
    requires Layout(bs, bs[t].name, 0, m, resolve) == Installed(bs, t, m, resolve)
    ensures Layout(bs, bs[t].name, 0, m + 1, resolve) == Installed(bs, t, m + 1, resolve)
  {
    assert RefName(bs, bs[t].name, 0, m) == Scaffold(bs[m].name);
    PutKey(Scaffolds(bs, m, resolve), Scaffold(bs[t].name), bs[t].name, Written(bs[t], resolve),
           Scaffold(bs[m].name), Written(bs[m], resolve));
  }

  /** Installing the default on clear names gives the layout before any rename. */
  lemma {:induction false} InstalledLayout(bs: seq<Branch>, t: nat, m: nat, resolve: Resolver)
    requires t < m <= |bs| && AloneAt(bs, t)
    ensures Layout(bs, bs[t].name, 0, m, resolve) == Installed(bs, t, m, resolve)
  {
    if m == t + 1 {
      LayoutAtTarget(bs, t, resolve);
    } else {
      InstalledLayout(bs, t, m - 1, resolve);
      InstalledNext(bs, t, m - 1, resolve);
    }
  }

  lemma {:induction false} ScaffoldsMiss(bs: seq<Branch>, m: nat, t: nat, resolve: Resolver)
    requires m <= t < |bs| && AloneAt(bs, t)
    ensures Scaffold(bs[t].name) !in Scaffolds(bs, m, resolve)
  {
    if m > 0 { ScaffoldsMiss(bs, m - 1, t, resolve); }
  }

  lemma InstallKey<V>(a: map<string, V>, from: string, to: string, t: V)
    requires from !in a && from != to
    ensures a[from := t][to := t] - {from} == a[to := t]
  {
  }

  lemma PutKey<V>(a: map<string, V>, from: string, to: string, t: V, x: string, v: V)
    requires x != from && x != to
    ensures (a[to := t] - {from})[x := v] == a[x := v][to := t] - {from}
  {
  }

  lemma DefaultNotBlocked(bs: seq<Branch>, d: string, resolve: Resolver)
    requires DefaultClear(bs, d)
    ensures !Blocked(Scaffolds(bs, |bs|, resolve), d)
  {
    ScaffoldsHold(bs, |bs|, resolve);
    OwnScaffoldClear(d);
    forall q | q in Scaffolds(bs, |bs|, resolve)
      ensures !Under(q, d) && !Under(d, q)
    {
      var i :| 0 <= i < |bs| && q == Scaffold(bs[i].name);
      assert !Clash(d, Scaffold(bs[i].name));
    }
  }

  lemma InstallExact(g: Repo, bs: seq<Branch>, t: nat, resolve: Resolver)
    requires t < |bs| && bs[t].name != "" && ClearFor(bs, bs[t].name, 0) && g.refs == Scaffolds(bs, |bs|, resolve)
    ensures var r := InstallDefault(g, bs[t].name, bs[t].name);
      r.Some? && r.value.refs == Layout(bs, bs[t].name, 0, |bs|, resolve)
  {
    var d := bs[t].name;
    ScaffoldTree(bs, |bs|, t, resolve);
    DefaultNotBlocked(bs, d, resolve);
    ClearIsAlone(bs, t);
    InstalledLayout(bs, t, |bs|, resolve);
  }

  // --------------------------------------------------------- names that get lost

  /** Whatever the renames do, the target's own name appears only if it was there before. */
  lemma {:induction false} RenamesLoseTarget(g: Repo, bs: seq<Branch>, target: string, keep: set<string>, k: nat)
    requires k <= |bs|
    requires forall q :: q in g.refs ==> q in keep || IsOtherScaffold(bs, target, 0, q)
    ensures var r := RenameAll(g, bs, target, k);
      r.Some? ==> forall q :: q in r.value.refs ==>
        q in keep || IsOtherScaffold(bs, target, k, q) || IsOtherName(bs, target, q)
  {
    if k > 0 {
      RenamesLoseTarget(g, bs, target, keep, k - 1);
      var r, next := RenameAll(g, bs, target, k - 1), RenameAll(g, bs, target, k);
      if next.Some? {
        forall q | q in next.value.refs
          ensures q in keep || IsOtherScaffold(bs, target, k, q) || IsOtherName(bs, target, q)
        {
          if q in r.value.refs && IsOtherScaffold(bs, target, k - 1, q) {
            var i :| k - 1 <= i < |bs| && bs[i].name != target && q == Scaffold(bs[i].name);
          }
        }
      }
    }
  }

  ghost predicate IsOtherScaffold(bs: seq<Branch>, target: string, from: nat, q: string) {
    exists i :: from <= i < |bs| && bs[i].name != target && q == Scaffold(bs[i].name)
  }

  ghost predicate IsOtherName(bs: seq<Branch>, target: string, q: string) {
    exists i :: 0 <= i < |bs| && bs[i].name != target && q == bs[i].name
  }

  /** The target's name never shows up again, unless it was among the names kept aside. */
  lemma TargetStaysLost(g: Repo, bs: seq<Branch>, target: string, keep: set<string>)
    requires target !in keep
    requires forall q :: q in g.refs ==> q in keep || IsOtherScaffold(bs, target, 0, q)
    ensures var r := RenameAll(g, bs, target, |bs|); r.Some? ==> target !in r.value.refs
  {
    RenamesLoseTarget(g, bs, target, keep, |bs|);
  }

  lemma InstallLeaves(g: Repo, bs: seq<Branch>, target: string, d: string, resolve: Resolver)
    requires g.refs == Scaffolds(bs, |bs|, resolve)
    ensures var r := InstallDefault(g, target, d);
      r.Some? ==> forall q :: q in r.value.refs ==> q == d || IsOtherScaffold(bs, target, 0, q)
  {
    var r := InstallDefault(g, target, d);
    if r.Some? {
      ScaffoldsHold(bs, |bs|, resolve);
      InstallKeys(g, bs, target, d, resolve);
      forall q | q in r.value.refs && q != d
        ensures IsOtherScaffold(bs, target, 0, q)
      {
        var i :| 0 <= i < |bs| && q == Scaffold(bs[i].name);
      }
    }
  }

  /** A document without its default branch loses the name of its first branch, or keeps only its scaffold. */
  lemma NoDefaultLosesFirst(g: Repo, bs: seq<Branch>, d: string, resolve: Resolver)
    requires bs != [] && g.refs == Scaffolds(bs, |bs|, resolve) && bs[0].name != d
    ensures var r := Install(g, bs[0].name, d);
      r.Some? ==> (RenameAll(r.value, bs, bs[0].name, |bs|).Some? ==>
                   bs[0].name !in RenameAll(r.value, bs, bs[0].name, |bs|).value.refs)
  {
    var first := bs[0].name;
    var r := Install(g, first, d);
    if first == "" {
      ScaffoldsHold(bs, |bs|, resolve);
      assert forall q :: q in g.refs ==> q in {Scaffold("")} || IsOtherScaffold(bs, "", 0, q);
      TargetStaysLost(g, bs, "", {Scaffold("")});
    } else if r.Some? {
      InstallLeaves(g, bs, first, d, resolve);
      TargetStaysLost(r.value, bs, first, {d});
    }
  }

  lemma FirstIsLost(bs: seq<Branch>, d: string, resolve: Resolver)
    requires bs != [] && BranchIndex(bs, d) == |bs|
    ensures var r := Materialize(bs, d, resolve); r.Some? ==> bs[0].name !in r.value.refs
  {
    CommitAllExact(bs, |bs|, d, resolve);
    var g := CommitAll(bs, |bs|, d, resolve);
    if g.Some? { NoDefaultLosesFirst(g.value, bs, d, resolve); }
  }

  /** A default name that clashes with another's scaffold is refused, or overwrites it and is renamed away. */
  lemma ClashingDefaultIsLost(g: Repo, bs: seq<Branch>, d: string, resolve: Resolver)
    requires g.refs == Scaffolds(bs, |bs|, resolve) && !DefaultClear(bs, d)
    ensures var r := InstallDefault(g, d, d);
      r.Some? ==> (RenameAll(r.value, bs, d, |bs|).Some? ==> d !in RenameAll(r.value, bs, d, |bs|).value.refs)
  {
    var r := InstallDefault(g, d, d);
    if r.Some? {
      ScaffoldsHold(bs, |bs|, resolve);
      var i :| 0 <= i < |bs| && bs[i].name != d && Clash(d, Scaffold(bs[i].name));
      assert Scaffold(bs[i].name) in g.refs;
      assert d == Scaffold(bs[i].name);
      assert IsOtherScaffold(bs, d, 0, d);
      InstallLeaves(g, bs, d, d, resolve);
      TargetStaysLost(r.value, bs, d, {});
    }
  }

  /** Every branch name is among the refs. */
  ghost predicate NamesPresent(r: Option<Repo>, bs: seq<Branch>) {
    r.Some? && forall i :: 0 <= i < |bs| ==> bs[i].name in r.value.refs
  }

  /** The refs are the branch names, each with the tree that was written for it. */
  ghost predicate HoldsWritten(refs: map<string, Git.Tree>, bs: seq<Branch>, resolve: Resolver) {
    && (forall i :: 0 <= i < |bs| ==> bs[i].name in refs && refs[bs[i].name] == Written(bs[i], resolve))
    && (forall r :: r in refs ==> exists i :: 0 <= i < |bs| && bs[i].name == r)
  }

  lemma FullLayout(bs: seq<Branch>, d: string, resolve: Resolver)
    requires ClearFor(bs, d, |bs|)
    ensures HoldsWritten(Layout(bs, d, |bs|, |bs|, resolve), bs, resolve)
  {
    ClearRefsAreDistinct(bs, d, |bs|);
    var refs := Layout(bs, d, |bs|, |bs|, resolve);
    forall i | 0 <= i < |bs|
      ensures bs[i].name in refs && refs[bs[i].name] == Written(bs[i], resolve)
    {
      LayoutHas(bs, d, |bs|, |bs|, i, resolve);
    }
    forall q | q in refs
      ensures exists i :: 0 <= i < |bs| && bs[i].name == q
    {
      var i := LayoutMember(bs, d, |bs|, |bs|, q, resolve);
      assert bs[i].name == q;
    }
  }

  /** The refs advertised to a clone are exactly the document's branches. */
  ghost predicate Faithful(r: Option<Repo>, bs: seq<Branch>) {
    r.Some? && Mirrors(r.value.refs, bs)
  }

  lemma WithDefaultExact(g: Repo, bs: seq<Branch>, d: string, resolve: Resolver)
    requires d != "" && BranchIndex(bs, d) < |bs| && NamesApart(bs, |bs|) && g.refs == Scaffolds(bs, |bs|, resolve)
    ensures var installed := InstallDefault(g, d, d);
      var r := if installed.None? then None else RenameAll(installed.value, bs, d, |bs|);
      && (NamesPresent(r, bs) <==> ClearFor(bs, d, |bs|))
      && (ClearFor(bs, d, |bs|) ==> HoldsWritten(r.value.refs, bs, resolve))
  {
    var t := BranchIndex(bs, d);
    if ClearFor(bs, d, |bs|) {
      ClearParts(bs, d, |bs|);
      FullLayout(bs, d, resolve);
    }
    if !DefaultClear(bs, d) {
      ClashingDefaultIsLost(g, bs, d, resolve);
      assert bs[t].name == d;
    } else {
      InstallExact(g, bs, t, resolve);
      RenameAllExact(InstallDefault(g, d, d).value, bs, d, |bs|, resolve);
    }
  }

  /**
    Every branch name ends up among the refs exactly when the names are clean and
    the files can be written; then no other ref is left, and each holds what was
    written for its branch.
   */
  lemma NamesExact(bs: seq<Branch>, d: string, resolve: Resolver)
    requires bs != []
    ensures var r := Materialize(bs, d, resolve);
      && (NamesPresent(r, bs) <==> Clean(bs, d) && Writable(bs, |bs|, resolve))
      && (NamesPresent(r, bs) ==> HoldsWritten(r.value.refs, bs, resolve))
  {
    CommitAllExact(bs, |bs|, d, resolve);
    var g := CommitAll(bs, |bs|, d, resolve);
    if ClearFor(bs, d, |bs|) { ClearParts(bs, d, |bs|); }
    if BranchIndex(bs, d) == |bs| {
      FirstIsLost(bs, d, resolve);
    } else if g.Some? {
      WithDefaultExact(g.value, bs, d, resolve);
    }
  }

  /**
    Materialising ends with exactly the document's branch names and trees if and
    only if the default has a name and the document is empty, or: it holds its
    default branch, no name is empty, equals or nests in another, the default clashes with no other scaffold, no
    name clashes with the scaffold of a branch listed after it, and every path
    is in resolved form and no directory of another.
   */
  lemma MaterializeExact(bs: seq<Branch>, d: string, resolve: Resolver)
    requires Resolves(resolve) && forall i :: 0 <= i < |bs| ==> DistinctPaths(bs[i].files)
    ensures Faithful(Materialize(bs, d, resolve), bs) <==>
            (bs == [] && d != "") || (bs != [] && Clean(bs, d) && PlainBranches(bs, resolve))
  {
    if bs != [] {
      FaithfulMeans(bs, d, resolve);
      forall i | 0 <= i < |bs|
        ensures WrittenAsRead(bs[i], resolve) <==> PlainFiles(bs[i].files, resolve)
      {
        WriteTreeExact(bs[i].files, resolve);
      }
    }
  }

  ghost predicate WrittenAsRead(b: Branch, resolve: Resolver) {
    WriteTree(b.files, resolve) == Some(GitlemDoc.Tree(b.files))
  }

  lemma FaithfulMeans(bs: seq<Branch>, d: string, resolve: Resolver)
    requires bs != []
    ensures Faithful(Materialize(bs, d, resolve), bs) <==>
            Clean(bs, d) && forall i :: 0 <= i < |bs| ==> WrittenAsRead(bs[i], resolve)
  {
    NamesExact(bs, d, resolve);
    if Faithful(Materialize(bs, d, resolve), bs) {
      forall i | 0 <= i < |bs|
        ensures WrittenAsRead(bs[i], resolve)
      {
        WritableAt(bs, |bs|, resolve, i);
      }
    }
    if forall i :: 0 <= i < |bs| ==> WrittenAsRead(bs[i], resolve) {
      AllWritable(bs, |bs|, resolve);
    }
  }

  lemma FirstCharsApart(a: string, b: string)
    requires |a| > 0 && |b| > 0 && a[0] != b[0]
    ensures !Clash(a, b)
  {
  }

  /** Names kept apart from each other and from plain scaffolds can still be refused: a nested one. */
  lemma NestedScaffoldIsRefused(resolve: Resolver)
    ensures var bs := [Branch("main", []), Branch("doc-x/y", []), Branch("x", [])];
      NamesApart(bs, 3) && !Faithful(Materialize(bs, "main", resolve), bs)
  {
    var bs := [Branch("main", []), Branch("doc-x/y", []), Branch("x", [])];
    assert Clash("doc-x/y", Scaffold("x")) by { assert "doc-x/y"[..6] == Scaffold("x") + "/"; }
    assert bs[1].name == "doc-x/y" != "main" && bs[2].name == "x" != "main";
    assert Clash(bs[1].name, Scaffold(bs[2].name));
    assert !NextClear(bs, "main", 1);
    assert !ClearFor(bs, "main", 2) && !ClearFor(bs, "main", 3);
    NamesExact(bs, "main", resolve);
    FirstCharsApart("main", "doc-x/y");
    FirstCharsApart("main", "x");
    FirstCharsApart("doc-x/y", "x");
    assert NextApart(bs, 1) && NextApart(bs, 2) && NamesApart(bs, 1) && NamesApart(bs, 2);
  }
}
