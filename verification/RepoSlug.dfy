/**
  The repository slug, twice: the one-pass loop of the desktop agent and the
  rewrite pipeline of the command-line agent. Both work on the host and path
  text; upper-case letters are the ASCII ones.
 */
module RepoSlug {
  import opened Common

  const MAX_LENGTH: nat := 48

  predicate IsSlugChar(c: char) {
    'a' <= c <= 'z' || '0' <= c <= '9'
  }

  function Lower(c: char): char {
    if 'A' <= c <= 'Z' then c - 'A' + 'a' else c
  }

  function LowerAll(s: string): (r: string)
    ensures |r| == |s| && forall i :: 0 <= i < |s| ==> r[i] == Lower(s[i])
  {
    seq(|s|, i requires 0 <= i < |s| => Lower(s[i]))
  }

  function TrimStart(s: string): string {
    if s != [] && s[0] == '-' then TrimStart(s[1..]) else s
  }

  function TrimEnd(s: string): string {
    if s != [] && s[|s| - 1] == '-' then TrimEnd(s[..|s| - 1]) else s
  }

  function Take(s: string, n: nat): string {
    if |s| <= n then s else s[..n]
  }

  // ------------------------------------------------------------ one-pass form

  function StripGitSuffix(text: string): string {
    var n := |text|;
    if n >= 4 && LowerAll(text)[n - 4..] == ".git" then text[..n - 4] else text
  }

  /** What the loop appends for the rest of the text, given whether the last thing seen was a dash. */
  function OnePass(s: string, afterDash: bool): string {
    if s == [] then []
    else if IsSlugChar(s[0]) then [s[0]] + OnePass(s[1..], false)
    else if afterDash then OnePass(s[1..], true)
    else ['-'] + OnePass(s[1..], true)
  }

  function OnePassSlug(text: string): string {
    TrimEnd(Take(OnePass(LowerAll(StripGitSuffix(text)), true), MAX_LENGTH))
  }

  method Slug(text: string) returns (slug: string)
    ensures slug == OnePassSlug(text)
  {
    var trimmed := LowerAll(StripGitSuffix(text));
    var out := "";
    var lastWasDash := true;
    for i := 0 to |trimmed|
      invariant out + OnePass(trimmed[i..], lastWasDash) == OnePass(trimmed, true)
    {
      assert trimmed[i..][1..] == trimmed[i + 1..];
      Glue(out, [if IsSlugChar(trimmed[i]) then trimmed[i] else '-'],
           OnePass(trimmed[i + 1..], !IsSlugChar(trimmed[i])));
      if IsSlugChar(trimmed[i]) {
        out := out + [trimmed[i]];
        lastWasDash := false;
      } else if !lastWasDash {
        out := out + ['-'];
        lastWasDash := true;
      }
    }
    assert out == OnePass(trimmed, true);
    slug := TrimEnd(Take(out, MAX_LENGTH));
  }

  // ------------------------------------------------------------ pipeline form

  /** `/\.git$/i` */
  function DropGitMatch(text: string): string {
    var n := |text|;
    if n >= 4 && text[n - 4] == '.' && text[n - 3] in "gG" && text[n - 2] in "iI" && text[n - 1] in "tT"
    then text[..n - 4] else text
  }

  /** Length of the leading run that `/[^a-z0-9]+/` matches. */
  function RunLength(s: string): (n: nat)
    ensures n <= |s|
  {
    if s == [] || IsSlugChar(s[0]) then 0 else 1 + RunLength(s[1..])
  }

  /** Every maximal run of other characters becomes one dash. */
  function ReplaceRuns(s: string): string
    decreases |s|
  {
    if s == [] then []
    else if IsSlugChar(s[0]) then [s[0]] + ReplaceRuns(s[1..])
    else ['-'] + ReplaceRuns(s[RunLength(s)..])
  }

  function PipelineSlug(text: string): string {
    var dashed := ReplaceRuns(LowerAll(DropGitMatch(text)));
    TrimEnd(Take(TrimEnd(TrimStart(dashed)), MAX_LENGTH))
  }

  function OrRepo(slug: string): string {
    if slug == "" then "repo" else slug
  }

  function SlugifyOnePass(text: string): string {
    OrRepo(OnePassSlug(text))
  }

  function SlugifyPipeline(text: string): string {
    OrRepo(PipelineSlug(text))
  }

  // ---------------------------------------------------------------- agreement

  lemma StripsAgree(text: string)
    ensures StripGitSuffix(text) == DropGitMatch(text)
  {
    var n := |text|;
    if n >= 4 {
      var tail := LowerAll(text)[n - 4..];
      assert tail == [Lower(text[n - 4]), Lower(text[n - 3]), Lower(text[n - 2]), Lower(text[n - 1])];
      assert tail == ".git" <==> tail[0] == '.' && tail[1] == 'g' && tail[2] == 'i' && tail[3] == 't';
      LowerIs(text[n - 4], '.');
      LowerIs(text[n - 3], 'g');
      LowerIs(text[n - 2], 'i');
      LowerIs(text[n - 1], 't');
    }
  }

  lemma LowerIs(c: char, l: char)
    requires l == '.' || l == 'g' || l == 'i' || l == 't'
    ensures Lower(c) == l <==> c == l || (l == 'g' && c == 'G') || (l == 'i' && c == 'I') || (l == 't' && c == 'T')
  {
  }

  lemma {:induction false} SkipRun(s: string)
    ensures OnePass(s, true) == OnePass(s[RunLength(s)..], false)
  {
    if s != [] && !IsSlugChar(s[0]) {
      SkipRun(s[1..]);
      assert s[1..][RunLength(s[1..])..] == s[RunLength(s)..];
    } else {
      assert s[0..] == s;
    }
  }

  lemma {:induction false} RunsAreOnePass(s: string)
    ensures ReplaceRuns(s) == OnePass(s, false)
    decreases |s|
  {
    if s != [] {
      if IsSlugChar(s[0]) {
        RunsAreOnePass(s[1..]);
      } else {
        RunsAreOnePass(s[RunLength(s)..]);
        SkipRun(s[1..]);
        assert s[1..][RunLength(s[1..])..] == s[RunLength(s)..];
      }
    }
  }

  lemma {:induction false} NoLeadingDash(s: string)
    ensures OnePass(s, true) != [] ==> OnePass(s, true)[0] != '-'
  {
    if s != [] && !IsSlugChar(s[0]) { NoLeadingDash(s[1..]); }
  }

  /** Starting as if after a dash is the same as trimming the leading dash. */
  lemma TrimStartIsAfterDash(s: string)
    ensures TrimStart(OnePass(s, false)) == OnePass(s, true)
  {
  }

  /** Trimming before cutting makes no difference when the cut is trimmed as well. */
  lemma {:induction false} TrimThenCut(s: string, n: nat)
    ensures TrimEnd(Take(TrimEnd(s), n)) == TrimEnd(Take(s, n))
    decreases |s|
  {
    if s != [] && s[|s| - 1] == '-' {
      var init := s[..|s| - 1];
      TrimThenCut(init, n);
      if |s| <= n {
        assert TrimEnd(Take(s, n)) == TrimEnd(init);
      } else {
        assert Take(s, n) == Take(init, n);
      }
    }
  }

  /** Both forms give the same slug for every text. */
  lemma SlugsAgree(text: string)
    ensures SlugifyOnePass(text) == SlugifyPipeline(text)
  {
    StripsAgree(text);
    var s := LowerAll(StripGitSuffix(text));
    RunsAreOnePass(s);
    TrimStartIsAfterDash(s);
    TrimThenCut(OnePass(s, true), MAX_LENGTH);
  }

  // -------------------------------------------------------------------- shape

  /** Slug characters and single dashes only. */
  ghost predicate Tidy(s: string) {
    && (forall i :: 0 <= i < |s| ==> IsSlugChar(s[i]) || s[i] == '-')
    && (forall i, j :: 0 <= i && j == i + 1 && j < |s| ==> s[i] != '-' || s[j] != '-')
  }

  ghost predicate SlugShape(s: string) {
    Tidy(s) && |s| <= MAX_LENGTH && (s != [] ==> s[0] != '-' && s[|s| - 1] != '-')
  }

  lemma {:induction false} OnePassTidy(s: string, afterDash: bool)
    ensures Tidy(OnePass(s, afterDash))
  {
    if s != [] {
      var now := IsSlugChar(s[0]);
      OnePassTidy(s[1..], !now);
      var rest := OnePass(s[1..], !now);
      if now || !afterDash {
        var head := if now then s[0] else '-';
        var whole := [head] + rest;
        NoLeadingDash(s[1..]);
        assert OnePass(s, afterDash) == whole;
        assert forall i :: 0 < i < |whole| ==> whole[i] == rest[i - 1];
      }
    }
  }

  lemma {:induction false} TrimEndShape(s: string)
    requires Tidy(s) && (s != [] ==> s[0] != '-')
    ensures var r := TrimEnd(s);
      Tidy(r) && |r| <= |s| && (r != [] ==> r[0] != '-' && r[|r| - 1] != '-')
    decreases |s|
  {
  }

  /** Only a-z, 0-9 and single inner dashes, at most 48 of them. */
  lemma SlugHasShape(text: string)
    ensures SlugShape(SlugifyOnePass(text)) && SlugifyOnePass(text) != ""
  {
    var s := LowerAll(StripGitSuffix(text));
    OnePassTidy(s, true);
    NoLeadingDash(s);
    TrimEndShape(Take(OnePass(s, true), MAX_LENGTH));
  }

  lemma {:induction false} OnePassKeepsTidy(s: string, afterDash: bool)
    requires Tidy(s) && (afterDash && s != [] ==> s[0] != '-')
    ensures OnePass(s, afterDash) == s
  {
    if s != [] {
      OnePassKeepsTidy(s[1..], !IsSlugChar(s[0]));
    }
  }

  /** A slug is its own slug. */
  lemma SlugIsFixedPoint(text: string)
    ensures SlugifyOnePass(SlugifyOnePass(text)) == SlugifyOnePass(text)
  {
    var r := SlugifyOnePass(text);
    SlugHasShape(text);
    assert LowerAll(r) == r;
    assert StripGitSuffix(r) == r by {
      if |r| >= 4 { assert r[|r| - 4..][0] == r[|r| - 4] != '.'; }
    }
    OnePassKeepsTidy(r, true);
  }

  // -------------------------------------------------------------- what is kept

  function AlnumOf(c: char): string {
    if 'a' <= c <= 'z' || '0' <= c <= '9' then [c]
    else if 'A' <= c <= 'Z' then [(c as int + 32) as char]
    else []
  }

  /** The ASCII letters and digits of a text in order, letters in lower case. */
  function Alnum(s: string): string {
    if s == [] then [] else AlnumOf(s[0]) + Alnum(s[1..])
  }

  lemma AlnumCons(c: char, s: string)
    ensures Alnum([c] + s) == AlnumOf(c) + Alnum(s)
  {
    assert ([c] + s)[1..] == s;
  }

  lemma {:induction false} AlnumAppend(a: string, b: string)
    ensures Alnum(a + b) == Alnum(a) + Alnum(b)
  {
    if a == [] {
      assert a + b == b;
    } else {
      AlnumAppend(a[1..], b);
      assert a + b == [a[0]] + (a[1..] + b);
      AlnumCons(a[0], a[1..] + b);
      Glue(AlnumOf(a[0]), Alnum(a[1..]), Alnum(b));
    }
  }

  lemma TrailingDash(s: string)
    ensures Alnum(s + "-") == Alnum(s)
  {
    AlnumAppend(s, "-");
    AlnumCons('-', "");
    assert ['-'] + "" == "-";
  }

  lemma {:induction false} OnePassKeeps(s: string, afterDash: bool)
    ensures Alnum(OnePass(LowerAll(s), afterDash)) == Alnum(s)
  {
    if s != [] {
      var c := LowerAll(s)[0];
      assert LowerAll(s)[1..] == LowerAll(s[1..]);
      OnePassKeeps(s[1..], !IsSlugChar(c));
      var rest := OnePass(LowerAll(s[1..]), !IsSlugChar(c));
      if IsSlugChar(c) || !afterDash {
        assert ([if IsSlugChar(c) then c else '-'] + rest)[1..] == rest;
      }
    }
  }

  lemma {:induction false} TrimEndKeeps(s: string)
    ensures TrimEnd(s) <= s && Alnum(TrimEnd(s)) == Alnum(s)
    decreases |s|
  {
    if s != [] && s[|s| - 1] == '-' {
      TrimEndKeeps(s[..|s| - 1]);
      TrailingDash(s[..|s| - 1]);
      assert s == s[..|s| - 1] + "-";
    }
  }

  /**
    No letter or digit is lost: the slug's are a prefix of the text's (without a
    trailing ".git"), and all of them unless 48 characters are reached, which are
    then used up but for a dash at the end. Without any, the slug is "repo".
   */
  lemma SlugKeepsText(text: string)
    ensures var stripped := if EndsInGit(text) then text[..|text| - 4] else text;
      var slug := OnePassSlug(text);
      && Alnum(slug) <= Alnum(stripped)
      && (|slug| < 47 ==> Alnum(slug) == Alnum(stripped))
      && (Alnum(stripped) == "" <==> slug == "")
      && (Alnum(stripped) == "" ==> SlugifyOnePass(text) == "repo")
      && (Alnum(stripped) != "" ==> SlugifyOnePass(text) == slug)
  {
    StripIs(text);
    var stripped := StripGitSuffix(text);
    var whole := OnePass(LowerAll(stripped), true);
    OnePassKeeps(stripped, true);
    OnePassTidy(LowerAll(stripped), true);
    NoLeadingDash(LowerAll(stripped));
    var cut := Take(whole, MAX_LENGTH);
    AlnumAppend(cut, whole[|cut|..]);
    assert whole == cut + whole[|cut|..];
    TrimEndKeeps(cut);
    TrimsOneDash(cut);
    TrimEndShape(cut);
    if |whole| > 0 {
      assert IsSlugChar(whole[0]) && Alnum(cut) != "";
    }
  }

  lemma TrimsOneDash(s: string)
    requires Tidy(s)
    ensures |TrimEnd(s)| >= |s| - 1
  {
    if s != [] && s[|s| - 1] == '-' && |s| > 1 {
      assert s[..|s| - 1][|s| - 2] == s[|s| - 2];
    }
  }

  predicate EndsInGit(text: string) {
    var n := |text|;
    && n >= 4 && text[n - 4] == '.' && (text[n - 3] == 'g' || text[n - 3] == 'G')
    && (text[n - 2] == 'i' || text[n - 2] == 'I') && (text[n - 1] == 't' || text[n - 1] == 'T')
  }

  lemma StripIs(text: string)
    ensures StripGitSuffix(text) == if EndsInGit(text) then text[..|text| - 4] else text
  {
    StripsAgree(text);
  }
}
