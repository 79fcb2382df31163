/**
 * Slug derivation from a blog title: lower-case the title, replace every
 * maximal run of characters outside `[a-z0-9]` by one hyphen, then remove a
 * leading and a trailing hyphen.
 */
module Slug {
  import opened Ascii

  /** `[a-z0-9]` */
  predicate IsSlugChar(c: char) { IsLower(c) || IsDigit(c) }

  predicate NoDoubleHyphen(s: string)
  {
    forall i :: 0 <= i < |s| - 1 ==> !(s[i] == '-' && s[i + 1] == '-')
  }

  /** A well-formed slug: only `[a-z0-9-]`, no `--`, no hyphen at either end. */
  predicate IsSlug(s: string)
  {
    && (forall i :: 0 <= i < |s| ==> IsSlugChar(s[i]) || s[i] == '-')
    && NoDoubleHyphen(s)
    && (s != [] ==> s[0] != '-' && s[|s| - 1] != '-')
  }

  /** Drops the maximal leading run of characters outside `[a-z0-9]`. */
  function SkipRun(s: string): (r: string)
    ensures |r| <= |s|
    ensures r == [] || IsSlugChar(r[0])
  {
    if s != [] && !IsSlugChar(s[0]) then SkipRun(s[1..]) else s
  }

  /** Unless everything is dropped, the last character survives `SkipRun`. */
  lemma {:induction false} SkipRunKeepsLast(s: string)
    ensures SkipRun(s) != [] ==> SkipRun(s)[|SkipRun(s)| - 1] == s[|s| - 1]
    ensures SkipRun(s) == [] && s != [] ==> !IsSlugChar(s[|s| - 1])
  {
    if s != [] && !IsSlugChar(s[0]) {
      SkipRunKeepsLast(s[1..]);
    }
  }

  /** What `SkipRun` drops is a prefix of separators; what it keeps is the rest. */
  lemma {:induction false} SkipRunSuffix(s: string)
    ensures SkipRun(s) == s[|s| - |SkipRun(s)|..]
    ensures forall i :: 0 <= i < |s| - |SkipRun(s)| ==> !IsSlugChar(s[i])
  {
    if s != [] && !IsSlugChar(s[0]) {
      SkipRunSuffix(s[1..]);
      assert forall i :: 1 <= i < |s| ==> s[i] == s[1..][i - 1];
    }
  }

  /** `.replace(/[^a-z0-9]+/g, '-')` */
  function CollapseRuns(s: string): string
    decreases |s|
  {
    if s == [] then []
    else if IsSlugChar(s[0]) then [s[0]] + CollapseRuns(s[1..])
    else "-" + CollapseRuns(SkipRun(s[1..]))
  }

  /** Collapsing keeps the input empty or non-empty, and starts (ends) with a
      hyphen exactly when the input starts (ends) with a separator. */
  lemma {:induction false} CollapseEnds(s: string)
    ensures CollapseRuns(s) == [] <==> s == []
    ensures s != [] ==> (CollapseRuns(s)[0] == '-' <==> !IsSlugChar(s[0]))
    ensures s != [] ==> (CollapseRuns(s)[|CollapseRuns(s)| - 1] == '-' <==> !IsSlugChar(s[|s| - 1]))
  {
    CollapseFirst(s);
    if s != [] {
      CollapseLast(s);
    }
  }

  /** Collapsing keeps emptiness and whether the first character is a separator. */
  lemma {:induction false} CollapseFirst(s: string)
    ensures CollapseRuns(s) == [] <==> s == []
    ensures s != [] ==> (CollapseRuns(s)[0] == '-' <==> !IsSlugChar(s[0]))
  {
  }

  /** Collapsing keeps whether the last character is a separator. */
  lemma {:induction false} CollapseLast(s: string)
    requires s != []
    ensures CollapseRuns(s)[|CollapseRuns(s)| - 1] == '-' <==> !IsSlugChar(s[|s| - 1])
    decreases |s|
  {
    if IsSlugChar(s[0]) {
      if |s| > 1 {
        var t := s[1..];
        CollapseFirst(t);
        CollapseLast(t);
        LastOfCons(s[0], CollapseRuns(t));
        assert s[|s| - 1] == t[|t| - 1];
      }
    } else {
      var u := SkipRun(s[1..]);
      SkipRunKeepsLast(s[1..]);
      if u != [] {
        CollapseFirst(u);
        CollapseLast(u);
        LastOfCons('-', CollapseRuns(u));
      }
    }
  }

  lemma {:induction false} LastOfCons(c: char, t: string)
    requires t != []
    ensures ([c] + t)[|t|] == t[|t| - 1]
  {
  }

  /** Only `[a-z0-9]` characters and single hyphens. */
  predicate Hyphenated(s: string)
  {
    (forall i :: 0 <= i < |s| ==> IsSlugChar(s[i]) || s[i] == '-') && NoDoubleHyphen(s)
  }

  lemma {:induction false} PrependHyphenated(c: char, t: string)
    requires Hyphenated(t)
    requires IsSlugChar(c) || (c == '-' && (t == [] || t[0] != '-'))
    ensures Hyphenated([c] + t)
  {
    var r := [c] + t;
    assert forall i :: 1 <= i < |r| ==> r[i] == t[i - 1];
  }

  /** Collapsing yields only `[a-z0-9]` characters and single hyphens. */
  lemma {:induction false} CollapseShape(s: string)
    ensures Hyphenated(CollapseRuns(s))
    decreases |s|
  {
    if s != [] {
      if IsSlugChar(s[0]) {
        CollapseShape(s[1..]);
        PrependHyphenated(s[0], CollapseRuns(s[1..]));
      } else {
        var u := SkipRun(s[1..]);
        CollapseShape(u);
        CollapseEnds(u);
        PrependHyphenated('-', CollapseRuns(u));
      }
    }
  }

  /** `.replace(/(^-|-$)+/g, '')` */
  function TrimHyphens(s: string): string
  {
    var a := if s != [] && s[0] == '-' then s[1..] else s;
    if a != [] && a[|a| - 1] == '-' then a[..|a| - 1] else a
  }

  /** Removing the edge hyphens of a hyphen-separated `[a-z0-9]` string leaves a slug. */
  lemma {:induction false} TrimHyphensGivesSlug(s: string)
    requires Hyphenated(s)
    ensures IsSlug(TrimHyphens(s))
  {
    var a := if s != [] && s[0] == '-' then s[1..] else s;
    assert NoDoubleHyphen(a) by {
      forall i | 0 <= i < |a| - 1
        ensures !(a[i] == '-' && a[i + 1] == '-')
      {
        if s != [] && s[0] == '-' {
          assert a[i] == s[i + 1] && a[i + 1] == s[i + 2];
        }
      }
    }
    assert a != [] ==> a[0] != '-' by {
      if a != [] && s != [] && s[0] == '-' {
        assert a[0] == s[1];
      }
    }
    if a != [] && a[|a| - 1] == '-' {
      var b := a[..|a| - 1];
      if b != [] {
        assert b[|b| - 1] == a[|a| - 2];
      }
    }
  }

  /** The slug the pre-save hook derives from a title. */
  function Slugify(title: string): (r: string)
    ensures IsSlug(r)
  {
    var c := CollapseRuns(Lower(title));
    CollapseShape(Lower(title));
    TrimHyphensGivesSlug(c);
    TrimHyphens(c)
  }

  // ---------------------------------------------------------------- idempotence

  /** Collapsing a string already made of `[a-z0-9]` and single hyphens changes nothing. */
  lemma {:induction false} CollapseFixesHyphenated(s: string)
    requires Hyphenated(s)
    ensures CollapseRuns(s) == s
    decreases |s|
  {
    if s != [] {
      var t := s[1..];
      assert forall i :: 0 <= i < |t| ==> t[i] == s[i + 1];
      CollapseFixesHyphenated(t);
      if !IsSlugChar(s[0]) {
        assert t == [] || IsSlugChar(t[0]);
        assert SkipRun(t) == t;
      }
    }
  }

  /** Slugifying a slug returns it unchanged; in particular slugifying twice is the
      same as slugifying once. */
  lemma {:induction false} SlugifyIdempotent(title: string)
    ensures Slugify(Slugify(title)) == Slugify(title)
  {
    SlugIsFixedPoint(Slugify(title));
  }

  lemma {:induction false} SlugIsFixedPoint(s: string)
    requires IsSlug(s)
    ensures Slugify(s) == s
  {
    assert Lower(s) == s;
    CollapseFixesHyphenated(s);
  }

  // ---------------------------------------------------------------- reference definition

  /** Length of the leading run of `[a-z0-9]` characters. */
  function WordLen(s: string): (k: nat)
    ensures k <= |s|
    ensures forall i :: 0 <= i < k ==> IsSlugChar(s[i])
    ensures k < |s| ==> !IsSlugChar(s[k])
  {
    if s != [] && IsSlugChar(s[0]) then 1 + WordLen(s[1..]) else 0
  }

  /** The maximal runs of `[a-z0-9]` characters of `s`, in order. */
  function Words(s: string): seq<string>
    decreases |s|
  {
    var t := SkipRun(s);
    if t == [] then []
    else
      var k := WordLen(t);
      [t[..k]] + Words(t[k..])
  }

  /** The words joined with single hyphens. */
  function JoinWords(ws: seq<string>): string
  {
    if ws == [] then []
    else if |ws| == 1 then ws[0]
    else ws[0] + "-" + JoinWords(ws[1..])
  }

  /** A non-empty run of `[a-z0-9]` characters. */
  predicate IsWord(w: string)
  {
    w != [] && forall i :: 0 <= i < |w| ==> IsSlugChar(w[i])
  }

  /** Every word found is a non-empty run of `[a-z0-9]`. */
  lemma {:induction false} WordsAreWords(s: string)
    ensures forall j :: 0 <= j < |Words(s)| ==> IsWord(Words(s)[j])
    decreases |s|
  {
    var t := SkipRun(s);
    if t != [] {
      var k := WordLen(t);
      WordsAreWords(t[k..]);
      assert IsWord(t[..k]);
    }
  }

  lemma {:induction false} JoinWordsEnds(ws: seq<string>)
    requires forall j :: 0 <= j < |ws| ==> IsWord(ws[j])
    ensures JoinWords(ws) == [] <==> ws == []
    ensures ws != [] ==> IsSlugChar(JoinWords(ws)[0]) && IsSlugChar(JoinWords(ws)[|JoinWords(ws)| - 1])
  {
    if |ws| > 1 {
      JoinWordsEnds(ws[1..]);
    }
  }

  /** Collapsing a word followed by anything keeps the word. */
  lemma {:induction false} CollapseKeepsWord(s: string, k: nat)
    requires k <= |s|
    requires forall i :: 0 <= i < k ==> IsSlugChar(s[i])
    ensures CollapseRuns(s) == s[..k] + CollapseRuns(s[k..])
    decreases k
  {
    if k > 0 {
      CollapseKeepsWord(s[1..], k - 1);
      assert s[1..][..k - 1] == s[1..k];
      assert s[1..][k - 1..] == s[k..];
      assert s[..k] == [s[0]] + s[1..k];
    }
  }

  /** A hyphen for a trailing run of separators, if any. */
  function Trail(s: string): string
  {
    if s != [] && !IsSlugChar(s[|s| - 1]) then "-" else ""
  }

  lemma {:induction false} ConcatAssoc(a: string, b: string, c: string, d: string)
    ensures a + (b + (c + d)) == a + b + c + d
  {
  }

  lemma {:induction false} WordsOfWordStart(s: string)
    requires s != [] && IsSlugChar(s[0])
    ensures Words(s) == [s[..WordLen(s)]] + Words(s[WordLen(s)..])
  {
    assert SkipRun(s) == s;
  }

  lemma {:induction false} WordsOfSeparatorStart(s: string)
    requires s != [] && !IsSlugChar(s[0])
    ensures Words(s) == Words(SkipRun(s[1..]))
  {
    var u := SkipRun(s[1..]);
    assert SkipRun(s) == u;
    assert SkipRun(u) == u;
  }

  /** The step of `CollapseIsJoin` for a word followed by nothing. */
  lemma {:induction false} JoinLoneWord(s: string)
    requires s != [] && IsSlugChar(s[0]) && WordLen(s) == |s|
    ensures CollapseRuns(s) == JoinWords(Words(s)) + Trail(s)
  {
    var k := WordLen(s);
    WordsOfWordStart(s);
    CollapseKeepsWord(s, k);
    assert s[..k] == s;
    assert Words(s) == [s];
    assert CollapseRuns(s) == s;
  }

  /** The step of `CollapseIsJoin` for a word followed by separators only. */
  lemma {:induction false} JoinWordThenSeparators(s: string, w: string)
    requires s != [] && IsSlugChar(s[0]) && WordLen(s) < |s|
    requires w == s[..WordLen(s)] && SkipRun(s[WordLen(s) + 1..]) == []
    ensures CollapseRuns(s) == JoinWords(Words(s)) + Trail(s)
  {
    SplitAfterWord(s);
    assert Words(s) == [w];
    assert JoinWords([w]) == w;
  }

  /** A word followed by separators and the remainder `u` collapses to the word,
      a hyphen, and the collapsed remainder. */
  lemma {:induction false} SplitAfterWordCollapse(s: string, k: nat)
    requires s != [] && IsSlugChar(s[0]) && k == WordLen(s) < |s|
    ensures CollapseRuns(s) == s[..k] + ("-" + CollapseRuns(SkipRun(s[k + 1..])))
  {
    assert s[k..][1..] == s[k + 1..];
    CollapseKeepsWord(s, k);
  }

  /** The words of such a string are the leading word and those of `u`. */
  lemma {:induction false} SplitAfterWordWords(s: string, k: nat)
    requires s != [] && IsSlugChar(s[0]) && k == WordLen(s) < |s|
    ensures Words(s) == [s[..k]] + Words(SkipRun(s[k + 1..]))
  {
    assert s[k..][1..] == s[k + 1..];
    WordsOfWordStart(s);
    WordsOfSeparatorStart(s[k..]);
  }

  /** The last character of such a string is that of `u`, or a separator when `u` is empty. */
  lemma {:induction false} SplitAfterWordLast(s: string, k: nat)
    requires s != [] && IsSlugChar(s[0]) && k == WordLen(s) < |s|
    ensures var u := SkipRun(s[k + 1..]);
      && (u != [] ==> s[|s| - 1] == u[|u| - 1])
      && (u == [] ==> !IsSlugChar(s[|s| - 1]))
  {
    SkipRunKeepsLast(s[k + 1..]);
    if k + 1 == |s| {
      assert !IsSlugChar(s[k]);
    }
  }

  lemma {:induction false} SplitAfterWord(s: string)
    requires s != [] && IsSlugChar(s[0]) && WordLen(s) < |s|
    ensures var u := SkipRun(s[WordLen(s) + 1..]);
      && CollapseRuns(s) == s[..WordLen(s)] + ("-" + CollapseRuns(u))
      && Words(s) == [s[..WordLen(s)]] + Words(u)
      && (u != [] ==> s[|s| - 1] == u[|u| - 1])
      && (u == [] ==> !IsSlugChar(s[|s| - 1]))
  {
    var k := WordLen(s);
    SplitAfterWordCollapse(s, k);
    SplitAfterWordWords(s, k);
    SplitAfterWordLast(s, k);
  }

  lemma {:induction false} JoinCons(w: string, ws: seq<string>)
    requires ws != []
    ensures JoinWords([w] + ws) == w + "-" + JoinWords(ws)
  {
    assert ([w] + ws)[1..] == ws;
  }

  /** The step of `CollapseIsJoin` for a word, separators, and a further word `u`. */
  lemma {:induction false} JoinWordThenMore(s: string, w: string, u: string)
    requires s != [] && IsSlugChar(s[0]) && WordLen(s) < |s|
    requires w == s[..WordLen(s)] && u == SkipRun(s[WordLen(s) + 1..]) && u != []
    requires CollapseRuns(u) == JoinWords(Words(u)) + Trail(u)
    ensures CollapseRuns(s) == JoinWords(Words(s)) + Trail(s)
  {
    var k := WordLen(s);
    SplitAfterWordCollapse(s, k);
    SplitAfterWordWords(s, k);
    TrailAfterWord(s, k, u);
    WordsOfWordStart(u);
    JoinStep(CollapseRuns(s), CollapseRuns(u), w, Words(u), Trail(s), Trail(u), Words(s));
  }

  /** Such a string ends in separators exactly when its non-empty remainder `u` does. */
  lemma {:induction false} TrailAfterWord(s: string, k: nat, u: string)
    requires s != [] && IsSlugChar(s[0]) && k == WordLen(s) < |s|
    requires u == SkipRun(s[k + 1..]) && u != []
    ensures Trail(s) == Trail(u)
  {
    SplitAfterWordLast(s, k);
  }

  /** The sequence algebra of `JoinWordThenMore`, kept apart from the definitions. */
  lemma {:induction false} JoinStep(cs: string, cu: string, w: string, ws: seq<string>,
                                   ts: string, tu: string, wss: seq<string>)
    requires ws != [] && wss == [w] + ws && ts == tu
    requires cs == w + ("-" + cu) && cu == JoinWords(ws) + tu
    ensures cs == JoinWords(wss) + ts
  {
    JoinCons(w, ws);
    ConcatAssoc(w, "-", JoinWords(ws), tu);
  }

  /** On a string that starts with a word (or is empty), collapsing gives the words
      joined by hyphens, plus one hyphen if the string ends in separators. */
  lemma {:induction false} CollapseIsJoin(s: string)
    requires s == [] || IsSlugChar(s[0])
    ensures CollapseRuns(s) == JoinWords(Words(s)) + Trail(s)
    decreases |s|
  {
    if s != [] {
      var k := WordLen(s);
      if k == |s| {
        JoinLoneWord(s);
      } else {
        var u := SkipRun(s[k + 1..]);
        if u == [] {
          JoinWordThenSeparators(s, s[..k]);
        } else {
          CollapseIsJoin(u);
          JoinWordThenMore(s, s[..k], u);
        }
      }
    }
  }

  /** Removing the separator run at the front changes no word. */
  lemma {:induction false} WordsSkipsSeparators(s: string)
    ensures Words(s) == Words(SkipRun(s))
  {
    assert SkipRun(SkipRun(s)) == SkipRun(s);
  }

  /** Trimming removes exactly the optional leading hyphen and the optional
      trailing hyphen around hyphen-joined words. */
  lemma {:induction false} TrimAroundJoin(lead: string, j: string, trail: string)
    requires lead == "" || lead == "-"
    requires trail == "" || trail == "-"
    requires j == [] ==> trail == ""
    requires j != [] ==> IsSlugChar(j[0]) && IsSlugChar(j[|j| - 1])
    ensures TrimHyphens(lead + j + trail) == j
  {
    var c := lead + j + trail;
    var a := if c != [] && c[0] == '-' then c[1..] else c;
    if lead == "-" {
      assert a == j + trail;
    } else {
      assert c == j + trail;
      assert j != [] ==> c[0] == j[0];
      assert a == j + trail;
    }
    if trail == "-" {
      assert a[..|a| - 1] == j;
    } else {
      assert a == j;
    }
  }

  /** A string starting with a separator collapses to a hyphen followed by the
      collapsed remainder after the separator run, and has the remainder's words. */
  lemma {:induction false} SplitAfterSeparators(s: string)
    requires s != [] && !IsSlugChar(s[0])
    ensures var u := SkipRun(s[1..]);
      && CollapseRuns(s) == "-" + CollapseRuns(u)
      && Words(s) == Words(u)
      && Trail(s) == (if u == [] then "-" else Trail(u))
  {
    var t := s[1..];
    var u := SkipRun(t);
    WordsOfSeparatorStart(s);
    SkipRunKeepsLast(t);
    assert t != [] ==> t[|t| - 1] == s[|s| - 1];
  }

  lemma {:induction false} TrimCollapseSeparatorStart(s: string)
    requires s != [] && !IsSlugChar(s[0])
    ensures TrimHyphens(CollapseRuns(s)) == JoinWords(Words(s))
  {
    var u := SkipRun(s[1..]);
    SplitAfterSeparators(s);
    CollapseIsJoin(u);
    WordsAreWords(u);
    var j := JoinWords(Words(u));
    JoinWordsEnds(Words(u));
    if u == [] {
      assert Words(u) == [];
      assert CollapseRuns(s) == "-" + j + "";
      TrimAroundJoin("-", j, "");
    } else {
      WordsOfWordStart(u);
      assert CollapseRuns(s) == "-" + j + Trail(u);
      TrimAroundJoin("-", j, Trail(u));
    }
  }

  lemma {:induction false} TrimCollapseWordStart(s: string)
    requires s == [] || IsSlugChar(s[0])
    ensures TrimHyphens(CollapseRuns(s)) == JoinWords(Words(s))
  {
    CollapseIsJoin(s);
    WordsAreWords(s);
    var j := JoinWords(Words(s));
    JoinWordsEnds(Words(s));
    if s != [] {
      WordsOfWordStart(s);
    }
    assert CollapseRuns(s) == "" + j + Trail(s);
    TrimAroundJoin("", j, Trail(s));
  }

  /** The slug is the maximal `[a-z0-9]` runs of the lower-cased title, joined with
      single hyphens. */
  lemma {:induction false} SlugifyJoinsWords(title: string)
    ensures Slugify(title) == JoinWords(Words(Lower(title)))
  {
    var s := Lower(title);
    if s != [] && !IsSlugChar(s[0]) {
      TrimCollapseSeparatorStart(s);
    } else {
      TrimCollapseWordStart(s);
    }
  }

  /** The slug is empty exactly when the lower-cased title has no `[a-z0-9]`
      character, as for a title of punctuation and blanks only. */
  lemma {:induction false} EmptySlugIffNoWordChar(title: string)
    ensures Slugify(title) == [] <==> forall i :: 0 <= i < |title| ==> !IsSlugChar(ToLower(title[i]))
  {
    var s := Lower(title);
    SlugifyJoinsWords(title);
    WordsAreWords(s);
    JoinWordsEnds(Words(s));
    SkipRunSuffix(s);
    var t := SkipRun(s);
    if t != [] {
      var i := |s| - |t|;
      assert s[i] == t[0];
      assert IsSlugChar(ToLower(title[i]));
    }
  }
}
