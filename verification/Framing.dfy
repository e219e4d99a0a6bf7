/**
  Incremental framing of a character stream, as the stdio transport (separator
  newline) and the SSE transport (separator blank line) do it.
 */
module Framing {
  import opened Common

  /** `s.indexOf(sep)`: the first occurrence, or -1. */
  function IndexOf(s: string, sep: string): (r: int)
    requires sep != ""
    ensures r == -1 || 0 <= r <= |s| - |sep|
  {
    if StartsWith(s, sep) then 0
    else if s == "" then -1
    else
      var r := IndexOf(s[1..], sep);
      if r < 0 then -1 else r + 1
  }

  /** One-shot splitting: the complete frames of a whole stream, and what is left over. */
  function Frames(s: string, sep: string): seq<string>
    requires sep != ""
    decreases |s|
  {
    var i := IndexOf(s, sep);
    if i < 0 then [] else [s[..i]] + Frames(s[i + |sep|..], sep)
  }

  function Tail(s: string, sep: string): string
    requires sep != ""
    decreases |s|
  {
    var i := IndexOf(s, sep);
    if i < 0 then s else Tail(s[i + |sep|..], sep)
  }

  function Concat(chunks: seq<string>): string {
    if chunks == [] then "" else Concat(chunks[..|chunks| - 1]) + chunks[|chunks| - 1]
  }

  // ------------------------------------------------------------- the transport

  class Framer {
    const sep: string
    var buffer: string
    /** Frames handed on so far, oldest first. */
    var delivered: seq<string>

    constructor (sep: string)
      ensures this.sep == sep && buffer == "" && delivered == []
    {
      this.sep, buffer, delivered := sep, "", [];
    }

    /** The data handler: grow the buffer, then cut off frames while a separator is in it. */
    method OnData(chunk: string)
      requires sep != ""
      modifies this
      ensures delivered == old(delivered) + Frames(old(buffer) + chunk, sep)
      ensures buffer == Tail(old(buffer) + chunk, sep)
    {
      ghost var whole := buffer + chunk;
      buffer := buffer + chunk;
      var idx := IndexOf(buffer, sep);
      while idx >= 0
        invariant idx == IndexOf(buffer, sep)
        invariant delivered + Frames(buffer, sep) == old(delivered) + Frames(whole, sep)
        invariant Tail(buffer, sep) == Tail(whole, sep)
        decreases |buffer|
      {
        Glue(delivered, [buffer[..idx]], Frames(buffer[idx + |sep|..], sep));
        delivered := delivered + [buffer[..idx]];
        buffer := buffer[idx + |sep|..];
        idx := IndexOf(buffer, sep);
      }
    }

    /** For every way of cutting the stream, the frames are those of the whole stream. */
    method Feed(chunks: seq<string>)
      requires sep != "" && buffer == "" && delivered == []
      modifies this
      ensures delivered == Frames(Concat(chunks), sep)
      ensures buffer == Tail(Concat(chunks), sep)
    {
      assert IndexOf("", sep) == -1;
      for k := 0 to |chunks|
        invariant delivered == Frames(Concat(chunks[..k]), sep)
        invariant buffer == Tail(Concat(chunks[..k]), sep)
      {
        OnData(chunks[k]);
        assert chunks[..k + 1][..k] == chunks[..k];
        ChunkedIsWhole(Concat(chunks[..k]), chunks[k], sep);
      }
      assert chunks[..|chunks|] == chunks;
    }
  }

  // ------------------------------------------------------------------- proofs

  lemma Cons(s: string, sep: string)
    requires sep != "" && s != "" && !StartsWith(s, sep)
    ensures IndexOf(s, sep) == if IndexOf(s[1..], sep) < 0 then -1 else IndexOf(s[1..], sep) + 1
  {
  }

  lemma {:induction false} IndexOfPrefix(s: string, t: string, sep: string)
    requires sep != "" && IndexOf(s, sep) >= 0
    ensures IndexOf(s + t, sep) == IndexOf(s, sep)
  {
    assert (s + t)[..|sep|] == s[..|sep|];
    if !StartsWith(s, sep) {
      IndexOfPrefix(s[1..], t, sep);
      assert (s + t)[1..] == s[1..] + t;
      Cons(s + t, sep);
    }
  }

  lemma Shift(c: string, s: string, r: nat, n: nat)
    requires |c| == 1 && r + n <= |s|
    ensures (c + s)[..r + 1] == c + s[..r]
    ensures (c + s)[r + 1 + n..] == s[r + n..]
  {
  }

  /** A found separator cuts the text in three. */
  lemma {:induction false} CutAt(s: string, sep: string)
    requires sep != "" && IndexOf(s, sep) >= 0
    ensures var i := IndexOf(s, sep); s == s[..i] + sep + s[i + |sep|..]
  {
    if StartsWith(s, sep) {
      assert s == s[..|sep|] + s[|sep|..];
    } else {
      CutAt(s[1..], sep);
      var r := IndexOf(s[1..], sep);
      assert s == s[..1] + s[1..];
      Shift(s[..1], s[1..], r, |sep|);
    }
  }

  /** The index is that of the first occurrence, and -1 means there is none. */
  lemma {:induction false} IndexOfIsFirst(s: string, sep: string, j: nat)
    requires sep != "" && j <= |s| && (IndexOf(s, sep) < 0 || j < IndexOf(s, sep))
    ensures !StartsWith(s[j..], sep)
  {
    if j == 0 {
      assert s[0..] == s;
    } else {
      Cons(s, sep);
      IndexOfIsFirst(s[1..], sep, j - 1);
      assert s[1..][j - 1..] == s[j..];
    }
  }

  /** Splitting a text whose first separator follows `first`. */
  lemma FirstFrame(first: string, rest: string, sep: string)
    requires sep != "" && IndexOf(first + sep + rest, sep) == |first|
    ensures Frames(first + sep + rest, sep) == [first] + Frames(rest, sep)
    ensures Tail(first + sep + rest, sep) == Tail(rest, sep)
  {
    var s := first + sep + rest;
    assert s[..|first|] == first && s[|first| + |sep|..] == rest;
  }

  ghost predicate SplitsInChunks(s: string, t: string, sep: string)
    requires sep != ""
  {
    && Frames(s + t, sep) == Frames(s, sep) + Frames(Tail(s, sep) + t, sep)
    && Tail(s + t, sep) == Tail(Tail(s, sep) + t, sep)
  }

  lemma ChunkedFirst(first: string, rest: string, t: string, sep: string)
    requires sep != "" && IndexOf(first + sep + rest, sep) == |first|
    requires SplitsInChunks(rest, t, sep)
    ensures SplitsInChunks(first + sep + rest, t, sep)
  {
    var s := first + sep + rest;
    IndexOfPrefix(s, t, sep);
    GlueFour(first, sep, rest, t);
    FirstFrame(first, rest, sep);
    FirstFrame(first, rest + t, sep);
    Glue([first], Frames(rest, sep), Frames(Tail(rest, sep) + t, sep));
  }

  /** Splitting what arrived so far, then its leftover with the next chunk, is splitting it all at once. */
  lemma {:induction false} ChunkedIsWhole(s: string, t: string, sep: string)
    requires sep != ""
    ensures SplitsInChunks(s, t, sep)
    decreases |s|
  {
    var i := IndexOf(s, sep);
    if i >= 0 {
      var first, rest := s[..i], s[i + |sep|..];
      ChunkedIsWhole(rest, t, sep);
      CutAt(s, sep);
      ChunkedFirst(first, rest, t, sep);
    } else {
      assert Frames(s, sep) == [] && Tail(s, sep) == s;
    }
  }

  lemma GlueFour(a: string, b: string, c: string, d: string)
    ensures a + b + c + d == a + b + (c + d)
  {
  }

  function Join(frames: seq<string>, sep: string): string {
    if frames == [] then "" else frames[0] + sep + Join(frames[1..], sep)
  }

  /** A frame ends at the first separator after it. */
  ghost predicate EndsAtSeparator(frame: string, sep: string)
    requires sep != ""
  {
    IndexOf(frame + sep, sep) == |frame|
  }

  lemma JoinCons(first: string, frames: seq<string>, sep: string, tail: string)
    ensures Join([first] + frames, sep) + tail == first + sep + (Join(frames, sep) + tail)
  {
  }

  /** Nothing is lost: frames and leftover make up the stream again. */
  lemma {:induction false} FramesRejoin(s: string, sep: string)
    requires sep != ""
    ensures Join(Frames(s, sep), sep) + Tail(s, sep) == s
    ensures IndexOf(Tail(s, sep), sep) == -1
    decreases |s|
  {
    var i := IndexOf(s, sep);
    if i >= 0 {
      var rest := s[i + |sep|..];
      FramesRejoin(rest, sep);
      CutAt(s, sep);
      JoinCons(s[..i], Frames(rest, sep), sep, Tail(rest, sep));
    }
  }

  /** Splitting is determined by that: any frames and leftover of this kind are the ones delivered. */
  lemma {:induction false} FramesAreUnique(frames: seq<string>, tail: string, sep: string)
    requires sep != "" && IndexOf(tail, sep) == -1
    requires forall k :: 0 <= k < |frames| ==> EndsAtSeparator(frames[k], sep)
    ensures Frames(Join(frames, sep) + tail, sep) == frames
    ensures Tail(Join(frames, sep) + tail, sep) == tail
    decreases |frames|
  {
    if frames == [] {
      assert Join(frames, sep) + tail == tail;
    } else {
      var first, rest := frames[0], frames[1..];
      var more := Join(rest, sep) + tail;
      FramesAreUnique(rest, tail, sep);
      assert frames == [first] + rest;
      JoinCons(first, rest, sep, tail);
      assert EndsAtSeparator(first, sep);
      IndexOfPrefix(first + sep, more, sep);
      FirstFrame(first, more, sep);
    }
  }
}
