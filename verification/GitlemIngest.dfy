/**
  Reading pushed refs back into the document, and the round trip: materialise,
  then ingest. `order` is the sequence in which git lists the refs and
  `listings` the sequence in which it lists each tree.
 */
module GitlemIngest {
  import opened Common
  import opened Git
  import opened GitlemDoc
  import opened GitlemClone
  import GitlemMerge

  const MAX_FILES_PER_BRANCH: nat := 500
  const MAX_FILE_CHARS: nat := 200_000
  const BINARY_PROBE: nat := 8192

  predicate IsBinary(content: string) {
    exists i | 0 <= i < |content| && i < BINARY_PROBE :: content[i] == '\0'
  }

  predicate Ingestible(content: string) {
    !IsBinary(content) && |content| <= MAX_FILE_CHARS
  }

  /** The first `k` listed entries, binary and oversized ones left out. */
  function Collected(tree: Git.Tree, entries: seq<string>, k: nat): seq<File>
    requires k <= |entries| && forall p :: p in entries ==> p in tree
  {
    if k == 0 then []
    else
      var p := entries[k - 1];
      Collected(tree, entries, k - 1) + (if Ingestible(tree[p]) then [File(p, tree[p])] else [])
  }

  function Capped(entries: seq<string>): nat {
    if |entries| > MAX_FILES_PER_BRANCH then MAX_FILES_PER_BRANCH else |entries|
  }

  /** One branch's blob tree as document files; every entry is either kept or counted as skipped. */
  method CollectBranchTree(tree: Git.Tree, entries: seq<string>) returns (files: seq<File>, skipped: nat)
    requires forall p :: p in entries ==> p in tree
    ensures files == Collected(tree, entries, Capped(entries))
    ensures |files| + skipped == |entries|
  {
    files, skipped := [], 0;
    var n := Capped(entries);
    for k := 0 to n
      invariant files == Collected(tree, entries, k)
      invariant |files| + skipped == k
    {
      var content := tree[entries[k]];
      if IsBinary(content) || |content| > MAX_FILE_CHARS {
        skipped := skipped + 1;
      } else {
        files := files + [File(entries[k], content)];
      }
    }
    skipped := skipped + (|entries| - n);
  }

  /** A listing names every key once. */
  ghost predicate Lists<V>(entries: seq<string>, m: map<string, V>) {
    Distinct(entries) && forall p :: p in entries <==> p in m
  }

  ghost predicate ListsAll(listings: map<string, seq<string>>, refs: map<string, Git.Tree>) {
    forall r :: r in refs ==> r in listings && Lists(listings[r], refs[r])
  }

  function IngestRef(d: Doc, name: string, tree: Git.Tree, entries: seq<string>): Doc
    requires forall p :: p in entries ==> p in tree
  {
    ReplaceBranchTree(d, name, Collected(tree, entries, Capped(entries)))
  }

  function IngestAll(d: Doc, refs: map<string, Git.Tree>, order: seq<string>,
                     listings: map<string, seq<string>>, k: nat): Doc
    requires k <= |order| && (forall r :: r in order ==> r in refs) && ListsAll(listings, refs)
  {
    if k == 0 then d
    else
      var r := order[k - 1];
      IngestRef(IngestAll(d, refs, order, listings, k - 1), r, refs[r], listings[r])
  }

  /** Listed entries of the first `k` refs that are not stored. */
  function SkippedIn(refs: map<string, Git.Tree>, order: seq<string>, listings: map<string, seq<string>>, k: nat): int
    requires k <= |order| && (forall r :: r in order ==> r in refs) && ListsAll(listings, refs)
  {
    if k == 0 then 0
    else SkippedIn(refs, order, listings, k - 1) + |listings[order[k - 1]]| - |Stored(refs, listings, order[k - 1])|
  }

  /** The ingest loops: first collect every tree, then store them all. */
  method IngestPushedRefs(d: Doc, refs: map<string, Git.Tree>, order: seq<string>,
                          listings: map<string, seq<string>>)
    returns (r: Doc, branches: nat, skipped: nat)
    requires (forall q :: q in order ==> q in refs) && ListsAll(listings, refs)
    ensures r == IngestAll(d, refs, order, listings, |order|)
    ensures branches == |order| && skipped == SkippedIn(refs, order, listings, |order|)
  {
    var trees: seq<(string, seq<File>)> := [];
    skipped := 0;
    for k := 0 to |order|
      invariant |trees| == k && skipped == SkippedIn(refs, order, listings, k)
      invariant forall i :: 0 <= i < k ==>
        trees[i] == (order[i], Stored(refs, listings, order[i]))
    {
      var files, n := CollectBranchTree(refs[order[k]], listings[order[k]]);
      skipped := skipped + n;
      trees := trees + [(order[k], files)];
    }
    r := d;
    for k := 0 to |trees|
      invariant r == IngestAll(d, refs, order, listings, k)
    {
      r := ReplaceBranchTree(r, trees[k].0, trees[k].1);
    }
    branches := |trees|;
  }

  // ------------------------------------------------------------ one branch

  /** The tree survives ingestion: few enough files, all text, none oversized. */
  ghost predicate WithinCaps(tree: Git.Tree) {
    |tree| <= 500 && forall p :: p in tree ==> IsShortText(tree[p])
  }

  /** At most 200 000 characters and no NUL among the first 8192. */
  predicate IsShortText(content: string) {
    |content| <= 200_000 && forall i :: 0 <= i < |content| && i < 8192 ==> content[i] != '\0'
  }

  lemma IngestibleExact(content: string)
    ensures Ingestible(content) <==> IsShortText(content)
  {
  }

  lemma {:induction false} ListingSize<V>(entries: seq<string>, m: map<string, V>)
    requires Lists(entries, m)
    ensures |entries| == |m|
    decreases |entries|
  {
    if entries == [] {
      assert m.Keys == {};
      assert |m.Keys| == 0;
    } else {
      var p, rest := entries[0], entries[1..];
      assert p in entries;
      var smaller := m - {p};
      assert forall i :: 0 <= i < |rest| ==> rest[i] == entries[i + 1];
      forall q
        ensures q in rest <==> q in smaller
      {
        if q in entries && q != p {
          var i :| 0 <= i < |entries| && entries[i] == q;
          assert rest[i - 1] == q;
        }
      }
      ListingSize(rest, smaller);
      assert m.Keys == smaller.Keys + {p};
      assert |m.Keys| == |smaller.Keys| + 1;
    }
  }

  lemma {:induction false} CollectedPaths(tree: Git.Tree, entries: seq<string>, k: nat)
    requires k <= |entries| && Distinct(entries) && forall p :: p in entries ==> p in tree
    ensures var fs := Collected(tree, entries, k);
      DistinctPaths(fs) && forall i :: 0 <= i < |fs| ==> fs[i].path in entries[..k]
  {
    if k > 0 {
      CollectedPaths(tree, entries, k - 1);
      var init := Collected(tree, entries, k - 1);
      assert entries[..k] == entries[..k - 1] + [entries[k - 1]];
      assert entries[k - 1] !in entries[..k - 1];
      assert forall i :: 0 <= i < |init| ==> init[i].path in entries[..k - 1] && init[i].path != entries[k - 1];
    }
  }

  /** A path reads back exactly when it was listed in time and is ingestible. */
  lemma {:induction false} CollectedReads(tree: Git.Tree, entries: seq<string>, k: nat, p: string)
    requires k <= |entries| && Distinct(entries) && forall q :: q in entries ==> q in tree
    ensures var got := GitlemDoc.Tree(Collected(tree, entries, k));
      && (p in got <==> p in entries[..k] && Ingestible(tree[p]))
      && (p in got ==> got[p] == tree[p])
  {
    if k > 0 {
      CollectedReads(tree, entries, k - 1, p);
      var q, init := entries[k - 1], Collected(tree, entries, k - 1);
      assert entries[..k] == entries[..k - 1] + [q];
      if Ingestible(tree[q]) {
        CollectedPaths(tree, entries, k);
        assert Collected(tree, entries, k) == init + [File(q, tree[q])];
        GitlemMerge.AppendTree(init, File(q, tree[q]));
      } else {
        assert Collected(tree, entries, k) == init;
      }
    }
  }

  /** Collecting a listed tree gives the same map exactly when the tree is within the caps. */
  lemma CollectKeepsTree(tree: Git.Tree, entries: seq<string>)
    requires Lists(entries, tree)
    ensures GitlemDoc.Tree(Collected(tree, entries, Capped(entries))) == tree <==> WithinCaps(tree)
  {
    var n := Capped(entries);
    ListingSize(entries, tree);
    var got := GitlemDoc.Tree(Collected(tree, entries, n));
    forall p | p in tree
      ensures Ingestible(tree[p]) <==> IsShortText(tree[p])
    {
      IngestibleExact(tree[p]);
    }
    if WithinCaps(tree) {
      assert entries[..n] == entries;
      forall p
        ensures p in got <==> p in tree
        ensures p in got ==> got[p] == tree[p]
      {
        CollectedReads(tree, entries, n, p);
      }
      assert got == tree;
    } else if |tree| > MAX_FILES_PER_BRANCH {
      assert entries[n] in entries && entries[n] !in entries[..n];
      CollectedReads(tree, entries, n, entries[n]);
    } else {
      var p :| p in tree && !Ingestible(tree[p]);
      CollectedReads(tree, entries, n, p);
    }
  }

  // ----------------------------------------------------------- whole document

  /** The files stored for a ref. */
  function Stored(refs: map<string, Git.Tree>, listings: map<string, seq<string>>, r: string): seq<File>
    requires r in refs && ListsAll(listings, refs)
  {
    Collected(refs[r], listings[r], Capped(listings[r]))
  }

  /** Same branch names in the same places, and nothing but branches differs. */
  ghost predicate SameSkeleton(a: Doc, b: Doc) {
    && a == b.(branches := a.branches)
    && |a.branches| == |b.branches|
    && forall i :: 0 <= i < |a.branches| ==> a.branches[i].name == b.branches[i].name
  }

  lemma StoreKeepsSkeleton(d: Doc, mid: Doc, name: string, files: seq<File>)
    requires SameSkeleton(mid, d) && HasBranch(d, name)
    ensures SameSkeleton(ReplaceBranchTree(mid, name, files), d)
  {
  }

  lemma {:induction false} IngestKeepsSkeleton(d: Doc, refs: map<string, Git.Tree>, order: seq<string>,
                                               listings: map<string, seq<string>>, k: nat)
    requires k <= |order|
    requires (forall r :: r in order ==> r in refs) && ListsAll(listings, refs)
    requires forall r :: r in refs ==> HasBranch(d, r)
    ensures SameSkeleton(IngestAll(d, refs, order, listings, k), d)
  {
    if k > 0 {
      IngestKeepsSkeleton(d, refs, order, listings, k - 1);
      var last := order[k - 1];
      assert last in refs;
      StoreKeepsSkeleton(d, IngestAll(d, refs, order, listings, k - 1), last, Stored(refs, listings, last));
    }
  }

  lemma IngestRefReads(d: Doc, ref: string, tree: Git.Tree, entries: seq<string>, name: string)
    requires forall p :: p in entries ==> p in tree
    ensures FilesAt(IngestRef(d, ref, tree, entries), name) ==
            if name == ref then Collected(tree, entries, Capped(entries)) else FilesAt(d, name)
  {
    GitlemMerge.SetFilesReads(d, ref, Collected(tree, entries, Capped(entries)), name);
  }

  /** After the first `k` refs, exactly those branches hold what was collected for them. */
  lemma {:induction false} IngestReads(d: Doc, refs: map<string, Git.Tree>, order: seq<string>,
                                       listings: map<string, seq<string>>, k: nat, name: string)
    requires k <= |order|
    requires (forall r :: r in order ==> r in refs) && ListsAll(listings, refs)
    ensures FilesAt(IngestAll(d, refs, order, listings, k), name) ==
            if name in order[..k] then Stored(refs, listings, name) else FilesAt(d, name)
  {
    if k > 0 {
      IngestReads(d, refs, order, listings, k - 1, name);
      var mid, last := IngestAll(d, refs, order, listings, k - 1), order[k - 1];
      assert order[..k] == order[..k - 1] + [last];
      IngestRefReads(mid, last, refs[last], listings[last], name);
      assert name in order[..k] <==> name in order[..k - 1] || name == last;
    }
  }

  lemma ReadsOwnFiles(d: Doc, i: nat)
    requires DistinctNames(d.branches) && i < |d.branches|
    ensures FilesAt(d, d.branches[i].name) == d.branches[i].files
  {
  }

  /**
    Materialise, clone, push nothing and ingest: names, order, pull requests,
    runs and counters are as before, and a branch reads the same exactly when
    its tree is within the caps.
   */
  lemma RoundTrip(d: Doc, defaultBranch: string, resolve: Resolver,
                  order: seq<string>, listings: map<string, seq<string>>)
    requires WellFormed(d) && Resolves(resolve)
    requires defaultBranch != ""
    requires d.branches == [] || (Clean(d.branches, defaultBranch) && PlainBranches(d.branches, resolve))
    requires var g := Materialize(d.branches, defaultBranch, resolve);
      g.Some? ==> Lists(order, g.value.refs) && ListsAll(listings, g.value.refs)
    ensures var g := Materialize(d.branches, defaultBranch, resolve);
      && g.Some?
      && (forall r :: r in order ==> r in g.value.refs) && ListsAll(listings, g.value.refs)
      && var r := IngestAll(d, g.value.refs, order, listings, |order|);
      && SameSkeleton(r, d)
      && forall i :: 0 <= i < |d.branches| ==>
           (GitlemDoc.Tree(r.branches[i].files) == GitlemDoc.Tree(d.branches[i].files)
            <==> WithinCaps(GitlemDoc.Tree(d.branches[i].files)))
  {
    MaterializeExact(d.branches, defaultBranch, resolve);
    var refs := Materialize(d.branches, defaultBranch, resolve).value.refs;
    forall q | q in refs
      ensures HasBranch(d, q)
    {
      var i :| 0 <= i < |d.branches| && d.branches[i].name == q;
      assert BranchIndex(d.branches, q) <= i;
    }
    IngestKeepsSkeleton(d, refs, order, listings, |order|);
    assert order[..|order|] == order;
    var r := IngestAll(d, refs, order, listings, |order|);
    forall i | 0 <= i < |d.branches|
      ensures GitlemDoc.Tree(r.branches[i].files) == GitlemDoc.Tree(d.branches[i].files)
              <==> WithinCaps(GitlemDoc.Tree(d.branches[i].files))
    {
      var name := d.branches[i].name;
      assert name in refs && name in order && refs[name] == GitlemDoc.Tree(d.branches[i].files);
      IngestReads(d, refs, order, listings, |order|, name);
      ReadsOwnFiles(r, i);
      CollectKeepsTree(refs[name], listings[name]);
    }
  }

  // -------------------------------------------------- clones that are not faithful

  lemma StoreNames(d: Doc, name: string, files: seq<File>)
    ensures var r := ReplaceBranchTree(d, name, files);
      && r == d.(branches := r.branches) && |d.branches| <= |r.branches|
      && (forall i :: 0 <= i < |d.branches| ==> r.branches[i].name == d.branches[i].name)
      && (forall n :: HasBranch(r, n) <==> HasBranch(d, n) || n == name)
  {
    var r := ReplaceBranchTree(d, name, files);
    forall n
      ensures HasBranch(r, n) <==> HasBranch(d, n) || n == name
    {
      var i, k := BranchIndex(d.branches, n), BranchIndex(r.branches, n);
      if i < |d.branches| { assert r.branches[i].name == n; }
      if n == name { assert r.branches[BranchIndex(d.branches, name)].name == name; }
    }
  }

  /** Whatever the refs are, ingest removes and moves no branch, and adds exactly the refs it did not know. */
  lemma {:induction false} IngestOnlyAdds(d: Doc, refs: map<string, Git.Tree>, order: seq<string>,
                                          listings: map<string, seq<string>>, k: nat)
    requires k <= |order|
    requires (forall r :: r in order ==> r in refs) && ListsAll(listings, refs)
    ensures var r := IngestAll(d, refs, order, listings, k);
      && r == d.(branches := r.branches) && |d.branches| <= |r.branches|
      && (forall i :: 0 <= i < |d.branches| ==> r.branches[i].name == d.branches[i].name)
      && (forall n :: HasBranch(r, n) <==> HasBranch(d, n) || n in order[..k])
  {
    if k > 0 {
      IngestOnlyAdds(d, refs, order, listings, k - 1);
      var last := order[k - 1];
      StoreNames(IngestAll(d, refs, order, listings, k - 1), last, Stored(refs, listings, last));
      assert order[..k] == order[..k - 1] + [last];
    }
  }

  /**
    A clone that lost branches costs the document nothing there: for any names and
    any paths, what was not advertised reads as before. Without its default branch
    a document that materialises keeps its first branch that way.
   */
  lemma LostBranchesSurvive(d: Doc, defaultBranch: string, resolve: Resolver,
                            order: seq<string>, listings: map<string, seq<string>>, name: string)
    requires var g := Materialize(d.branches, defaultBranch, resolve);
      g.Some? && Lists(order, g.value.refs) && ListsAll(listings, g.value.refs)
    ensures var refs := Materialize(d.branches, defaultBranch, resolve).value.refs;
      (forall r :: r in order ==> r in refs) &&
      var r := IngestAll(d, refs, order, listings, |order|);
      && (name !in refs ==> FilesAt(r, name) == FilesAt(d, name) && (HasBranch(r, name) <==> HasBranch(d, name)))
      && (name in refs ==> HasBranch(r, name) && FilesAt(r, name) == Stored(refs, listings, name))
      && (d.branches != [] && !HasBranch(d, defaultBranch) ==>
            FilesAt(r, d.branches[0].name) == FilesAt(d, d.branches[0].name))
  {
    var refs := Materialize(d.branches, defaultBranch, resolve).value.refs;
    assert order[..|order|] == order;
    IngestOnlyAdds(d, refs, order, listings, |order|);
    IngestReads(d, refs, order, listings, |order|, name);
    if d.branches != [] && !HasBranch(d, defaultBranch) {
      FirstIsLost(d.branches, defaultBranch, resolve);
      IngestReads(d, refs, order, listings, |order|, d.branches[0].name);
    }
  }
}
