/**
 * Reading time of a blog post: the content is split on runs of whitespace
 * (`split(/\s+/)`), and the number of pieces is divided by 200 words per
 * minute, rounding up.
 */
module ReadingTime {
  import opened Ascii

  /** Words per minute assumed by the estimate. */
  const WordsPerMinute: nat := 200

  /** Drops the leading whitespace of `s`. */
  function SkipSpaces(s: string): (r: string)
    ensures |r| <= |s|
    ensures r == [] || !IsSpace(r[0])
  {
    if s != [] && IsSpace(s[0]) then SkipSpaces(s[1..]) else s
  }

  /** The pieces of `s` between maximal runs of whitespace. As with the
      JavaScript split on a regular expression, an empty string gives one empty
      piece, and leading or trailing whitespace gives an empty first or last piece. */
  function SplitWs(s: string): (r: seq<string>)
    ensures |r| >= 1
    decreases |s|
  {
    if s == [] then [""]
    else if IsSpace(s[0]) then [""] + SplitWs(SkipSpaces(s[1..]))
    else
      var rest := SplitWs(s[1..]);
      [[s[0]] + rest[0]] + rest[1..]
  }

  /** The number of maximal runs of whitespace in `s`, counted by the positions
      where a run starts; `afterSpace` says whether the character before `s` was
      whitespace. */
  function RunStarts(s: string, afterSpace: bool): nat
  {
    if s == [] then 0
    else (if IsSpace(s[0]) && !afterSpace then 1 else 0) + RunStarts(s[1..], IsSpace(s[0]))
  }

  function WhitespaceRuns(s: string): nat
  {
    RunStarts(s, false)
  }

  /** The characters of `s` that are not whitespace, in order. */
  function NonSpace(s: string): string
  {
    if s == [] then []
    else if IsSpace(s[0]) then NonSpace(s[1..])
    else [s[0]] + NonSpace(s[1..])
  }

  function Concat(ps: seq<string>): string
  {
    if ps == [] then [] else ps[0] + Concat(ps[1..])
  }

  predicate SpaceFree(p: string)
  {
    forall i :: 0 <= i < |p| ==> !IsSpace(p[i])
  }

  /** The word count used for the reading time. */
  function WordCount(content: string): (n: nat)
    ensures n >= 1
  {
    |SplitWs(content)|
  }

  /** Minutes to read `content`: the word count divided by 200, rounded up. */
  function ReadTime(content: string): (r: nat)
    ensures r >= 1
    ensures WordsPerMinute * (r - 1) < WordCount(content) <= WordsPerMinute * r
  {
    (WordCount(content) + WordsPerMinute - 1) / WordsPerMinute
  }

  /** Skipping whitespace after whitespace does not start a new run. */
  lemma {:induction false} SkipSpacesRuns(s: string)
    ensures RunStarts(s, true) == RunStarts(SkipSpaces(s), false)
  {
    if s != [] && IsSpace(s[0]) {
      SkipSpacesRuns(s[1..]);
    }
  }

  /** There is one more piece than there are runs of whitespace. */
  lemma {:induction false} PiecesAreRunsPlusOne(s: string)
    ensures |SplitWs(s)| == WhitespaceRuns(s) + 1
    decreases |s|
  {
    if s != [] {
      if IsSpace(s[0]) {
        SkipSpacesRuns(s[1..]);
        PiecesAreRunsPlusOne(SkipSpaces(s[1..]));
      } else {
        PiecesAreRunsPlusOne(s[1..]);
      }
    }
  }

  /** No piece contains whitespace. */
  lemma {:induction false} PiecesAreSpaceFree(s: string)
    ensures forall k :: 0 <= k < |SplitWs(s)| ==> SpaceFree(SplitWs(s)[k])
    decreases |s|
  {
    if s != [] {
      if IsSpace(s[0]) {
        PiecesAreSpaceFree(SkipSpaces(s[1..]));
      } else {
        PiecesAreSpaceFree(s[1..]);
        var rest := SplitWs(s[1..]);
        assert SpaceFree(rest[0]);
        assert SpaceFree([s[0]] + rest[0]);
      }
    }
  }

  lemma {:induction false} SkipSpacesNonSpace(s: string)
    ensures NonSpace(SkipSpaces(s)) == NonSpace(s)
  {
    if s != [] && IsSpace(s[0]) {
      SkipSpacesNonSpace(s[1..]);
    }
  }

  /** Splitting loses exactly the whitespace: the pieces, put back together,
      are the non-whitespace characters of the content in order. */
  lemma {:induction false} PiecesKeepEverythingElse(s: string)
    ensures Concat(SplitWs(s)) == NonSpace(s)
    decreases |s|
  {
    if s != [] {
      if IsSpace(s[0]) {
        PiecesKeepEverythingElse(SkipSpaces(s[1..]));
        SkipSpacesNonSpace(s[1..]);
        assert Concat(SplitWs(s)) == "" + Concat(SplitWs(SkipSpaces(s[1..])));
      } else {
        PiecesKeepEverythingElse(s[1..]);
        var rest := SplitWs(s[1..]);
        assert rest == [rest[0]] + rest[1..];
        assert Concat(rest) == rest[0] + Concat(rest[1..]);
        var r := SplitWs(s);
        assert r[1..] == rest[1..];
        assert Concat(r) == ([s[0]] + rest[0]) + Concat(rest[1..]);
      }
    }
  }

  /** Only the first and the last piece can be empty. */
  lemma {:induction false} InnerPiecesNonEmpty(s: string)
    ensures forall k :: 0 < k < |SplitWs(s)| - 1 ==> SplitWs(s)[k] != []
    decreases |s|
  {
    if s != [] {
      if IsSpace(s[0]) {
        var t := SkipSpaces(s[1..]);
        InnerPiecesNonEmpty(t);
        if t != [] {
          FirstPieceNonEmpty(t);
        }
      } else {
        InnerPiecesNonEmpty(s[1..]);
      }
    }
  }

  /** A non-empty string that does not start with whitespace has a non-empty
      first piece. */
  lemma {:induction false} FirstPieceNonEmpty(s: string)
    requires s != [] && !IsSpace(s[0])
    ensures SplitWs(s)[0] != []
  {
  }

  /** The empty post, and any post without whitespace, take one minute. */
  lemma {:induction false} OneWordOneMinute(content: string)
    requires SpaceFree(content)
    ensures WordCount(content) == 1 && ReadTime(content) == 1
  {
    NoSpaceNoRuns(content);
    PiecesAreRunsPlusOne(content);
  }

  lemma {:induction false} NoSpaceNoRuns(s: string)
    requires SpaceFree(s)
    ensures WhitespaceRuns(s) == 0
  {
    if s != [] {
      assert SpaceFree(s[1..]) by {
        forall i | 0 <= i < |s| - 1 ensures !IsSpace(s[1..][i]) {
          assert s[1..][i] == s[i + 1];
        }
      }
      NoSpaceNoRuns(s[1..]);
      NoSpaceAfterSpace(s[1..]);
    }
  }

  lemma {:induction false} NoSpaceAfterSpace(s: string)
    requires SpaceFree(s)
    ensures RunStarts(s, true) == RunStarts(s, false)
  {
  }
}
