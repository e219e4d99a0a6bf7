/**
  The part of git the gitlem host drives: branch refs as a map from name to
  tree, one checked-out name and a work tree. A command that git would refuse
  yields None.
 */
module Git {
  import opened Common

  type Tree = map<string, string>

  datatype Repo = Repo(refs: map<string, Tree>, head: string, work: Tree)

  /** `b` lies below `a` in the directory sense, so the two cannot both be plain files (or refs). */
  predicate Under(a: string, b: string) {
    StartsWith(b, a + "/")
  }

  predicate Clash(a: string, b: string) {
    a == b || Under(a, b) || Under(b, a)
  }

  /** Some ref is a directory of `name` or the reverse. */
  predicate Blocked(refs: map<string, Tree>, name: string) {
    exists r | r in refs :: Under(r, name) || Under(name, r)
  }

  /** `git init -b name`: the empty text is no branch name, here and below. */
  function Init(defaultBranch: string): Option<Repo> {
    if defaultBranch == "" then None else Some(Repo(map[], defaultBranch, map[]))
  }

  /** `git checkout --orphan name`: refuses an existing branch. */
  function CheckoutOrphan(g: Repo, name: string): Option<Repo> {
    if name in g.refs then None else Some(g.(head := name))
  }

  /** Write one file below the work dir: refused when a file is where a directory must be, or the reverse. */
  function WriteFile(work: Tree, path: string, content: string): Option<Tree> {
    if exists q | q in work :: Under(q, path) || Under(path, q) then None else Some(work[path := content])
  }

  /** `git add -A` and `git commit --allow-empty`: the checked-out name now holds the work tree. */
  function Commit(g: Repo): Option<Repo> {
    if Blocked(g.refs, g.head) then None
    else Some(g.(refs := g.refs[g.head := g.work]))
  }

  function Checkout(g: Repo, name: string): Option<Repo> {
    if name in g.refs then Some(g.(head := name, work := g.refs[name])) else None
  }

  /** `git checkout -B name`: create or reset `name` at the current commit and switch to it. */
  function CheckoutReset(g: Repo, name: string): Option<Repo> {
    if name == "" || g.head !in g.refs || Blocked(g.refs, name) then None
    else Some(g.(refs := g.refs[name := g.refs[g.head]], head := name))
  }

  function DeleteBranch(g: Repo, name: string): Option<Repo> {
    if name !in g.refs || name == g.head then None else Some(g.(refs := g.refs - {name}))
  }

  /** `git branch -m from to`: refuses an existing or clashing target. */
  function RenameBranch(g: Repo, from: string, to: string): Option<Repo> {
    if to == "" || from !in g.refs || (to in g.refs && to != from) || Blocked(g.refs - {from}, to) then None
    else Some(g.(refs := (g.refs - {from})[to := g.refs[from]], head := if g.head == from then to else g.head))
  }

  /** Committing right after a checkout changes no ref. */
  lemma CheckedOutIsClean(g: Repo, name: string)
    requires Checkout(g, name).Some?
    ensures var after := Commit(Checkout(g, name).value);
      after.Some? ==> after.value.refs == g.refs && after.value.head == name
  {
  }
}
