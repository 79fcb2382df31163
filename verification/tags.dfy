/**
 * The admin page's tag field. The form holds the tags as one string; on submit
 * it is split at commas, every piece trimmed and the empty pieces dropped, and
 * when a post is opened for editing its tags are joined with ", ".
 */
module Tags {
  import opened Ascii

  /** `s.split(',')`: the pieces between commas, in order. There is always at
      least one piece, and the empty string gives the single piece "". */
  function SplitCommas(s: string): (r: seq<string>)
    ensures |r| >= 1
    ensures forall i :: 0 <= i < |r| ==> ',' !in r[i]
    decreases |s|
  {
    if s == [] then [""]
    else
      var rest := SplitCommas(s[1..]);
      if s[0] == ',' then [""] + rest
      else [[s[0]] + rest[0]] + rest[1..]
  }

  /** `ps.join(sep)`. */
  function Join(ps: seq<string>, sep: string): string
    decreases |ps|
  {
    if ps == [] then ""
    else if |ps| == 1 then ps[0]
    else ps[0] + sep + Join(ps[1..], sep)
  }

  /** Splitting loses nothing: joining the pieces with "," gives the string back. */
  lemma {:induction false} SplitThenJoin(s: string)
    ensures Join(SplitCommas(s), ",") == s
    decreases |s|
  {
    if s != [] {
      var rest := SplitCommas(s[1..]);
      SplitThenJoin(s[1..]);
      if s[0] == ',' {
        assert SplitCommas(s) == [""] + rest;
        assert ([""] + rest)[1..] == rest;
        assert s == [','] + s[1..];
      } else {
        var r := SplitCommas(s);
        assert r == [[s[0]] + rest[0]] + rest[1..];
        assert r[1..] == rest[1..];
        if |rest| == 1 {
          assert s == [s[0]] + s[1..];
        } else {
          assert Join(rest, ",") == rest[0] + "," + Join(rest[1..], ",");
          assert s == [s[0]] + s[1..];
        }
      }
    }
  }

  /** A comma is a cut: the pieces of `a + "," + b` are those of `a`
      followed by those of `b`. */
  lemma {:induction false} SplitAtComma(a: string, b: string)
    ensures SplitCommas(a + "," + b) == SplitCommas(a) + SplitCommas(b)
    decreases |a|
  {
    var s := a + "," + b;
    if a == [] {
      assert s == [','] + b;
      assert s[1..] == b;
    } else {
      assert s[0] == a[0];
      assert s[1..] == a[1..] + "," + b;
      SplitAtComma(a[1..], b);
    }
  }

  /** A string without commas is one piece. */
  lemma {:induction false} SplitCommaFree(t: string)
    requires ',' !in t
    ensures SplitCommas(t) == [t]
    decreases |t|
  {
    if t != [] {
      assert ',' !in t[1..] by {
        forall i | 0 <= i < |t[1..]| ensures t[1..][i] != ',' { assert t[1..][i] == t[i + 1]; }
      }
      SplitCommaFree(t[1..]);
      assert t == [t[0]] + t[1..];
    }
  }

  /** `.filter(tag => tag.length > 0)`. */
  function NonEmpty(ss: seq<string>): (r: seq<string>)
    ensures |r| <= |ss|
    ensures forall i :: 0 <= i < |r| ==> r[i] != "" && r[i] in ss
    decreases |ss|
  {
    if ss == [] then []
    else if ss[0] == "" then NonEmpty(ss[1..])
    else [ss[0]] + NonEmpty(ss[1..])
  }

  /** The filter keeps exactly the non-empty strings: it drops nothing else. */
  lemma {:induction false} NonEmptyKeepsOthers(ss: seq<string>, t: string)
    requires t != ""
    ensures multiset(NonEmpty(ss))[t] == multiset(ss)[t]
    decreases |ss|
  {
    if ss != [] {
      NonEmptyKeepsOthers(ss[1..], t);
      assert ss == [ss[0]] + ss[1..];
      assert multiset(ss) == multiset{ss[0]} + multiset(ss[1..]);
      if ss[0] != "" {
        assert NonEmpty(ss) == [ss[0]] + NonEmpty(ss[1..]);
      }
    }
  }

  lemma {:induction false} NonEmptyConcat(a: seq<string>, b: seq<string>)
    ensures NonEmpty(a + b) == NonEmpty(a) + NonEmpty(b)
    decreases |a|
  {
    if a != [] {
      assert (a + b)[0] == a[0];
      assert (a + b)[1..] == a[1..] + b;
      NonEmptyConcat(a[1..], b);
    } else {
      assert a + b == b;
    }
  }

  lemma {:induction false} TrimAllConcat(a: seq<string>, b: seq<string>)
    ensures TrimAll(a + b) == TrimAll(a) + TrimAll(b)
  {
  }

  /** A character the string lacks is not in its trimmed form either. */
  lemma {:induction false} TrimKeepsOut(s: string, c: char)
    requires c !in s
    ensures c !in Trim(s)
  {
  }

  /** `data.tags.split(',').map(tag => tag.trim()).filter(tag => tag.length > 0)`. */
  function ParseTags(s: string): (r: seq<string>)
  {
    NonEmpty(TrimAll(SplitCommas(s)))
  }

  /** A tag the form produces is never empty, has no surrounding whitespace
      and contains no comma. */
  lemma {:induction false} ParsedTagsAreClean(s: string)
    ensures forall i :: 0 <= i < |ParseTags(s)| ==>
      ParseTags(s)[i] != "" && IsTrimmed(ParseTags(s)[i]) && ',' !in ParseTags(s)[i]
  {
    var pieces := SplitCommas(s);
    var trimmed := TrimAll(pieces);
    TrimAllTrimmed(pieces);
    forall j | 0 <= j < |trimmed| ensures ',' !in trimmed[j]
    {
      TrimKeepsOut(pieces[j], ',');
    }
    var r := ParseTags(s);
    forall i | 0 <= i < |r| ensures r[i] != "" && IsTrimmed(r[i]) && ',' !in r[i]
    {
      var j :| 0 <= j < |trimmed| && trimmed[j] == r[i];
    }
  }

  /** Tags keep their order: the tags of `a + "," + b` are those of `a`
      followed by those of `b`. */
  lemma {:induction false} ParseTagsInOrder(a: string, b: string)
    ensures ParseTags(a + "," + b) == ParseTags(a) + ParseTags(b)
  {
    SplitAtComma(a, b);
    TrimAllConcat(SplitCommas(a), SplitCommas(b));
    NonEmptyConcat(TrimAll(SplitCommas(a)), TrimAll(SplitCommas(b)));
  }

  /** `blog.tags.join(', ')`, the value put back into the form for editing. */
  function JoinTags(tags: seq<string>): string
  {
    Join(tags, ", ")
  }

  predicate CleanTag(t: string)
  {
    t != "" && IsTrimmed(t) && ',' !in t
  }

  lemma {:induction false} SplitLeadingSpace(x: string)
    ensures SplitCommas(" " + x) == [" " + SplitCommas(x)[0]] + SplitCommas(x)[1..]
  {
    var s := " " + x;
    assert s[0] == ' ' && s[1..] == x;
  }

  lemma {:induction false} TrimLeadingSpace(y: string)
    ensures Trim(" " + y) == Trim(y)
  {
    assert (" " + y)[1..] == y;
  }

  /** A blank before the first piece is trimmed away. */
  lemma {:induction false} LeadingSpaceIgnored(x: string)
    ensures ParseTags(" " + x) == ParseTags(x)
  {
    var px := SplitCommas(x);
    var ps := SplitCommas(" " + x);
    SplitLeadingSpace(x);
    TrimLeadingSpace(px[0]);
    var tp, tx := TrimAll(ps), TrimAll(px);
    forall i | 0 <= i < |tp| ensures tp[i] == tx[i]
    {
      if i > 0 {
        assert ps[i] == px[i];
      }
    }
    assert tp == tx;
  }

  /** A single clean tag parses to itself. */
  lemma {:induction false} ParseOneTag(t: string)
    requires CleanTag(t)
    ensures ParseTags(t) == [t]
  {
    SplitCommaFree(t);
    TrimOfTrimmed(t);
    assert TrimAll([t]) == [t];
  }

  predicate AllClean(tags: seq<string>)
  {
    forall i :: 0 <= i < |tags| ==> CleanTag(tags[i])
  }

  /** Joining two or more tags: the first tag, a comma, and the rest joined
      behind a blank. */
  lemma {:induction false} JoinUnfolds(tags: seq<string>)
    requires |tags| >= 2
    ensures JoinTags(tags) == tags[0] + "," + (" " + JoinTags(tags[1..]))
  {
    var j := JoinTags(tags[1..]);
    assert JoinTags(tags) == tags[0] + ", " + j;
  }

  /** Editing round trip: clean tags joined with ", " and parsed again come
      back unchanged, in order. */
  lemma {:induction false} JoinThenParse(tags: seq<string>)
    requires AllClean(tags)
    ensures ParseTags(JoinTags(tags)) == tags
    decreases |tags|
  {
    if tags == [] {
      assert SplitCommas("") == [""];
      assert TrimAll([""]) == [""];
    } else if |tags| == 1 {
      assert CleanTag(tags[0]);
      ParseOneTag(tags[0]);
    } else {
      var t, rest := tags[0], tags[1..];
      var j := JoinTags(rest);
      JoinUnfolds(tags);
      assert CleanTag(t);
      assert AllClean(rest) by {
        forall i | 0 <= i < |rest| ensures CleanTag(rest[i]) { assert rest[i] == tags[i + 1]; }
      }
      ParseTagsInOrder(t, " " + j);
      LeadingSpaceIgnored(j);
      ParseOneTag(t);
      JoinThenParse(rest);
      assert tags == [t] + rest;
    }
  }
}
