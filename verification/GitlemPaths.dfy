/**
  Where a stored path ends up below the work dir, by path segments: joining and
  normalising, the escape guard, and what cannot be written. Gives GitlemClone's
  resolver and says exactly which paths it leaves alone.
 */
module GitlemPaths {
  import opened Common
  import opened Git
  import opened GitlemDoc
  import opened GitlemClone

  /** The segments between slashes; there is always at least one. */
  function Split(path: string): (r: seq<string>)
    ensures |r| > 0
  {
    if path == "" then [""]
    else
      var rest := Split(path[1..]);
      if path[0] == '/' then [""] + rest else [[path[0]] + rest[0]] + rest[1..]
  }

  function Join(segs: seq<string>): string {
    if segs == [] then "" else if |segs| == 1 then segs[0] else segs[0] + "/" + Join(segs[1..])
  }

  /** Normalising, one segment: empty and "." change nothing, ".." goes up and stops at the root. */
  function Enter(at: seq<string>, s: string): seq<string> {
    if s == "" || s == "." then at
    else if s == ".." then (if at == [] then [] else at[..|at| - 1])
    else at + [s]
  }

  function Walk(at: seq<string>, segs: seq<string>): seq<string>
    decreases |segs|
  {
    if segs == [] then at else Walk(Enter(at, segs[0]), segs[1..])
  }

  /** The guard skips whatever is relative by a text that starts with two dots, inside the work dir or not. */
  function Resolve(work: seq<string>, path: string): Place {
    var target := Walk(work, Split(path));
    if !(work <= target) then Outside
    else
      var rel := target[|work|..];
      if rel == [] then Unwritable
      else if StartsWith(rel[0], "..") then Outside
      else if EndsWith(path, "/") || '\0' in Join(rel) then Unwritable
      else At(Join(rel))
  }

  function ResolverIn(work: seq<string>): Resolver {
    (path: string) => Resolve(work, path)
  }

  predicate PlainSegment(s: string) {
    s != "" && s != "." && s != ".." && '/' !in s
  }

  predicate PlainSegments(segs: seq<string>) {
    forall i :: 0 <= i < |segs| ==> PlainSegment(segs[i])
  }

  /** A relative path in normal form whose first segment does not start with two dots. */
  predicate PlainPath(path: string) {
    PlainSegments(Split(path)) && !StartsWith(Split(path)[0], "..") && '\0' !in path
  }

  // ------------------------------------------------------------ split and join

  lemma {:induction false} JoinSplit(path: string)
    ensures Join(Split(path)) == path
  {
    if path != "" {
      var rest := Split(path[1..]);
      JoinSplit(path[1..]);
      if path[0] == '/' {
        assert ([""] + rest)[1..] == rest;
        assert path == "" + "/" + path[1..];
      } else {
        var segs := [[path[0]] + rest[0]] + rest[1..];
        assert segs[1..] == rest[1..];
        assert path == [path[0]] + path[1..];
        if |rest| > 1 {
          assert Join(segs) == [path[0]] + rest[0] + "/" + Join(rest[1..]);
          assert [path[0]] + rest[0] + "/" + Join(rest[1..]) == [path[0]] + (rest[0] + "/" + Join(rest[1..]));
        }
      }
    }
  }

  lemma {:induction false} SplitFirst(s: string, rest: string)
    requires '/' !in s
    ensures Split(s + "/" + rest) == [s] + Split(rest)
    decreases |s|
  {
    if s == "" {
      assert ("" + "/" + rest)[1..] == rest;
    } else {
      SplitFirst(s[1..], rest);
      assert (s + "/" + rest)[1..] == s[1..] + "/" + rest;
      assert [s[0]] + s[1..] == s;
      assert ([s[1..]] + Split(rest))[1..] == Split(rest);
    }
  }

  lemma {:induction false} SplitOne(s: string)
    requires '/' !in s
    ensures Split(s) == [s]
  {
    if s != "" {
      SplitOne(s[1..]);
      assert [s[0]] + s[1..] == s;
    }
  }

  lemma {:induction false} SplitJoin(segs: seq<string>)
    requires segs != [] && PlainSegments(segs)
    ensures Split(Join(segs)) == segs
    decreases |segs|
  {
    if |segs| == 1 {
      SplitOne(segs[0]);
    } else {
      SplitFirst(segs[0], Join(segs[1..]));
      SplitJoin(segs[1..]);
    }
  }

  lemma {:induction false} NoSlashes(path: string)
    ensures forall i :: 0 <= i < |Split(path)| ==> '/' !in Split(path)[i]
  {
    if path != "" { NoSlashes(path[1..]); }
  }

  lemma {:induction false} TrailingSlash(path: string)
    requires EndsWith(path, "/")
    ensures Split(path)[|Split(path)| - 1] == ""
    decreases |path|
  {
    assert path[|path| - 1] == path[|path| - 1..][0] == '/';
    if |path| > 1 {
      assert path[1..][|path| - 2..] == "/";
      TrailingSlash(path[1..]);
      var rest := Split(path[1..]);
      if path[0] != '/' && |rest| == 1 {
        JoinSplit(path[1..]);
        assert false;
      }
    }
  }

  // ----------------------------------------------------------------- walking

  lemma {:induction false} WalkPlain(at: seq<string>, segs: seq<string>)
    requires PlainSegments(segs)
    ensures Walk(at, segs) == at + segs
    decreases |segs|
  {
    if segs != [] {
      WalkPlain(at + [segs[0]], segs[1..]);
      assert at + [segs[0]] + segs[1..] == at + segs;
    }
  }

  lemma {:induction false} WalkStaysPlain(at: seq<string>, segs: seq<string>)
    requires PlainSegments(at) && forall i :: 0 <= i < |segs| ==> '/' !in segs[i]
    ensures PlainSegments(Walk(at, segs))
    decreases |segs|
  {
    if segs != [] {
      WalkStaysPlain(Enter(at, segs[0]), segs[1..]);
    }
  }

  /** Walking a longer path is walking its parts. */
  lemma {:induction false} WalkAppend(at: seq<string>, a: seq<string>, b: seq<string>)
    ensures Walk(at, a + b) == Walk(Walk(at, a), b)
    decreases |a|
  {
    if a == [] {
      assert a + b == b;
    } else {
      assert (a + b)[1..] == a[1..] + b;
      WalkAppend(Enter(at, a[0]), a[1..], b);
    }
  }

  lemma WalkOne(at: seq<string>, s: string, rest: seq<string>)
    ensures Walk(at, [s] + rest) == Walk(Enter(at, s), rest)
  {
    assert ([s] + rest)[1..] == rest;
  }

  // ------------------------------------------------------------ main results

  /**
    A path that climbs out of the work dir is outside, unless it comes straight
    back in by the work dir's own name.
   */
  lemma ClimbingOutIsOutside(work: seq<string>, path: string)
    requires work != [] && PlainSegments(Split(path))
    ensures Resolve(work, ".." + "/" + path) == Outside || Split(path)[0] == work[|work| - 1]
    ensures Resolve(work, "..") == Outside
  {
    var up, segs := work[..|work| - 1], Split(path);
    SplitFirst("..", path);
    WalkOne(work, "..", segs);
    WalkPlain(up, segs);
    if work <= up + segs {
      assert (up + segs)[..|work|][|work| - 1] == work[|work| - 1];
    }
    SplitOne("..");
    WalkOne(work, "..", []);
    assert [".."] + [] == [".."] && |up| < |work|;
  }

  lemma SameWalkSamePlace(work: seq<string>, a: string, b: string)
    requires Walk(work, Split(a)) == Walk(work, Split(b)) && (EndsWith(a, "/") <==> EndsWith(b, "/"))
    ensures Resolve(work, a) == Resolve(work, b)
  {
  }

  lemma EndOfSuffix(a: string, b: string)
    requires b != ""
    ensures EndsWith(a + b, "/") <==> EndsWith(b, "/")
  {
    assert (a + b)[|a + b| - 1..] == [b[|b| - 1]] && b[|b| - 1..] == [b[|b| - 1]];
  }

  lemma {:induction false} StandingStill(at: seq<string>, segs: seq<string>)
    requires forall i :: 0 <= i < |segs| ==> segs[i] == "" || segs[i] == "."
    ensures Walk(at, segs) == at
    decreases |segs|
  {
    if segs != [] { StandingStill(at, segs[1..]); }
  }

  lemma {:induction false} SplitSlash(path: string)
    ensures Split(path + "/") == Split(path) + [""]
  {
    if path != "" {
      SplitSlash(path[1..]);
      assert (path + "/")[1..] == path[1..] + "/";
      var rest := Split(path[1..]);
      assert (rest + [""])[1..] == rest[1..] + [""];
    } else {
      assert "" + "/" == "/" && "/"[1..] == "";
    }
  }

  /** What names a directory cannot be written: the work dir itself, and any path inside it with a slash at the end. */
  lemma DirectoriesAreRefused(work: seq<string>, path: string)
    ensures (forall i :: 0 <= i < |Split(path)| ==> Split(path)[i] == "" || Split(path)[i] == ".") ==>
      Resolve(work, path) == Unwritable
    ensures PlainSegments(Split(path)) && !StartsWith(Split(path)[0], "..") ==> Resolve(work, path + "/") == Unwritable
  {
    var segs := Split(path);
    if forall i :: 0 <= i < |segs| ==> segs[i] == "" || segs[i] == "." {
      StandingStill(work, segs);
    }
    if PlainSegments(segs) && !StartsWith(segs[0], "..") {
      SplitSlash(path);
      WalkAppend(work, segs, [""]);
      WalkPlain(work, segs);
      StandingStill(work + segs, [""]);
      assert (path + "/")[|path|..] == "/" && (work + segs)[|work|..] == segs;
    }
  }

  /** Going down and up again, staying, and doubled slashes make no difference to where a file is put. */
  lemma DetoursCancel(work: seq<string>, path: string, s: string)
    requires PlainSegment(s) && path != ""
    ensures Resolve(work, s + "/" + (".." + "/" + path)) == Resolve(work, path)
    ensures Resolve(work, "." + "/" + path) == Resolve(work, path)
    ensures Resolve(work, "" + "/" + path) == Resolve(work, path)
  {
    DownAndUp(work, path, s);
    Staying(work, path, ".");
    Staying(work, path, "");
  }

  lemma DownAndUp(work: seq<string>, path: string, s: string)
    requires PlainSegment(s) && path != ""
    ensures Resolve(work, s + "/" + (".." + "/" + path)) == Resolve(work, path)
  {
    var segs := Split(path);
    SplitFirst("..", path);
    SplitFirst(s, ".." + "/" + path);
    WalkOne(work, s, [".."] + segs);
    WalkOne(work + [s], "..", segs);
    assert (work + [s])[..|work|] == work;
    EndOfSuffix(".." + "/", path);
    EndOfSuffix(s + "/", ".." + "/" + path);
    SameWalkSamePlace(work, s + "/" + (".." + "/" + path), path);
  }

  lemma Staying(work: seq<string>, path: string, s: string)
    requires (s == "." || s == "") && path != ""
    ensures Resolve(work, s + "/" + path) == Resolve(work, path)
  {
    SplitFirst(s, path);
    WalkOne(work, s, Split(path));
    EndOfSuffix(s + "/", path);
    SameWalkSamePlace(work, s + "/" + path, path);
  }

  /** Wherever a path is put, that place is a plain path. */
  lemma ResolvedIsPlain(work: seq<string>, path: string)
    requires PlainSegments(work) && Resolve(work, path).At?
    ensures PlainPath(Resolve(work, path).path)
  {
    NoSlashes(path);
    WalkStaysPlain(work, Split(path));
    var rel := Walk(work, Split(path))[|work|..];
    assert PlainSegments(rel);
    SplitJoin(rel);
  }

  /** A path is left where it is exactly when it is plain. */
  lemma ResolveExact(work: seq<string>, path: string)
    requires PlainSegments(work)
    ensures Resolve(work, path) == At(path) <==> PlainPath(path)
  {
    if Resolve(work, path) == At(path) {
      ResolvedIsPlain(work, path);
    }
    if PlainPath(path) {
      var segs := Split(path);
      WalkPlain(work, segs);
      assert (work + segs)[|work|..] == segs;
      JoinSplit(path);
      assert PlainSegment(segs[|segs| - 1]);
      if EndsWith(path, "/") {
        TrailingSlash(path);
        assert false;
      }
    }
  }

  /** So a resolved path resolves to itself, which is all GitlemClone needs. */
  lemma ResolverIsIdempotent(work: seq<string>)
    requires PlainSegments(work)
    ensures Resolves(ResolverIn(work))
  {
    forall p | Resolve(work, p).At?
      ensures Resolve(work, Resolve(work, p).path) == Resolve(work, p)
    {
      ResolvedIsPlain(work, p);
      ResolveExact(work, Resolve(work, p).path);
    }
  }

  /** The guard drops a file inside the work dir when its first segment merely starts with two dots. */
  lemma DotDotNamesAreSkipped(work: seq<string>, path: string)
    requires PlainSegments(Split(path)) && StartsWith(Split(path)[0], "..")
    ensures work <= Walk(work, Split(path)) && Resolve(work, path) == Outside
  {
    WalkPlain(work, Split(path));
    assert (work + Split(path))[|work|..] == Split(path);
  }

  ghost predicate PlainPaths(bs: seq<Branch>) {
    forall i :: 0 <= i < |bs| ==>
      && (forall k :: 0 <= k < |bs[i].files| ==> PlainPath(bs[i].files[k].path))
      && (forall k, l :: 0 <= k < |bs[i].files| && 0 <= l < |bs[i].files| ==>
            !Under(bs[i].files[k].path, bs[i].files[l].path))
  }

  /** With the real path rules: exactly the documents with clean names and plain, unnested paths are materialised. */
  lemma MaterializeExactOnDisk(bs: seq<Branch>, d: string, work: seq<string>)
    requires PlainSegments(work) && forall i :: 0 <= i < |bs| ==> DistinctPaths(bs[i].files)
    ensures Faithful(Materialize(bs, d, ResolverIn(work)), bs) <==>
            (bs == [] && d != "") || (bs != [] && Clean(bs, d) && PlainPaths(bs))
  {
    var resolve := ResolverIn(work);
    ResolverIsIdempotent(work);
    MaterializeExact(bs, d, resolve);
    forall i | 0 <= i < |bs|
      ensures forall k :: 0 <= k < |bs[i].files| ==>
        (resolve(bs[i].files[k].path) == At(bs[i].files[k].path) <==> PlainPath(bs[i].files[k].path))
    {
      forall k | 0 <= k < |bs[i].files|
        ensures resolve(bs[i].files[k].path) == At(bs[i].files[k].path) <==> PlainPath(bs[i].files[k].path)
      {
        ResolveExact(work, bs[i].files[k].path);
      }
    }
  }
}
