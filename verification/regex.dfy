/**
 * The anchored regular expressions the form schemas use, all of the shape
 * `^` (character class with a repetition count)* `$`, for instance
 * `/^[a-zA-Z\s]+$/` and `/^[6-9]\d{9}$/`.
 */
module Regex {
  import opened Wrappers
  import opened Ascii

  /** An inclusive character range `lo-hi` inside a bracket expression. */
  datatype Range = Range(lo: char, hi: char)

  /** A bracket expression: the union of its ranges. */
  type Class = seq<Range>

  predicate InClass(c: char, cls: Class)
  {
    exists i | 0 <= i < |cls| :: cls[i].lo <= c <= cls[i].hi
  }

  predicate AllIn(s: string, cls: Class)
  {
    forall i :: 0 <= i < |s| ==> InClass(s[i], cls)
  }

  /** A class repeated between `min` and `max` times; `max == None` is unbounded (`+`, `*`). */
  datatype Term = Term(cls: Class, min: nat, max: Option<nat>)

  predicate CountFits(t: Term, k: nat)
  {
    t.min <= k && (t.max.None? || k <= t.max.value)
  }

  /** Term `t` consumes exactly the first `k` characters of `s`. */
  predicate TakesPrefix(t: Term, s: string, k: nat)
  {
    k <= |s| && CountFits(t, k) && AllIn(s[..k], t.cls)
  }

  /** `s` matches the anchored pattern `^ts$` as a whole. */
  predicate FullMatch(ts: seq<Term>, s: string)
    decreases |ts|
  {
    if ts == [] then s == []
    else exists k: nat | k <= |s| :: TakesPrefix(ts[0], s, k) && FullMatch(ts[1..], s[k..])
  }

  /** `\d` */
  const Digit: Class := [Range('0', '9')]

  /** `\s`, restricted to ASCII. */
  const Space: Class := [Range('\t', '\r'), Range(' ', ' ')]

  /** `[a-zA-Z\s]` */
  const LetterOrSpace: Class := [Range('a', 'z'), Range('A', 'Z')] + Space

  /** `[6-9]` */
  const SixToNine: Class := [Range('6', '9')]

  /** `/^[a-zA-Z\s]+$/`: the name rule of the application form. */
  const LettersAndSpaces: seq<Term> := [Term(LetterOrSpace, 1, None)]

  /** `/^[6-9]\d{9}$/`: an Indian mobile number. */
  const MobileNumber: seq<Term> := [Term(SixToNine, 1, Some(1)), Term(Digit, 9, Some(9))]

  lemma InDigit(c: char)
    ensures InClass(c, Digit) <==> IsDigit(c)
  {
    if IsDigit(c) {
      assert Digit[0].lo <= c <= Digit[0].hi;
    }
  }

  lemma InSixToNine(c: char)
    ensures InClass(c, SixToNine) <==> '6' <= c <= '9'
  {
    if '6' <= c <= '9' {
      assert SixToNine[0].lo <= c <= SixToNine[0].hi;
    }
  }

  lemma InLetterOrSpace(c: char)
    ensures InClass(c, LetterOrSpace) <==> IsLetter(c) || IsSpace(c)
  {
    if IsLower(c) {
      assert LetterOrSpace[0].lo <= c <= LetterOrSpace[0].hi;
    } else if IsUpper(c) {
      assert LetterOrSpace[1].lo <= c <= LetterOrSpace[1].hi;
    } else if '\t' <= c <= '\r' {
      assert LetterOrSpace[2].lo <= c <= LetterOrSpace[2].hi;
    } else if c == ' ' {
      assert LetterOrSpace[3].lo <= c <= LetterOrSpace[3].hi;
    }
  }

  /** A single unbounded class term matches exactly the non-empty strings drawn
      from the class. */
  lemma {:induction false} OnePlus(cls: Class, s: string)
    ensures FullMatch([Term(cls, 1, None)], s) <==> |s| >= 1 && AllIn(s, cls)
  {
    var ts := [Term(cls, 1, None)];
    assert ts[1..] == [];
    if |s| >= 1 && AllIn(s, cls) {
      assert s[..|s|] == s;
      assert TakesPrefix(ts[0], s, |s|) && FullMatch(ts[1..], s[|s|..]);
    }
    if FullMatch(ts, s) {
      var k: nat :| k <= |s| && TakesPrefix(ts[0], s, k) && FullMatch(ts[1..], s[k..]);
      assert k == |s|;
      assert s[..k] == s;
    }
  }

  /** `^[a-zA-Z\s]+$` accepts exactly the non-empty strings of ASCII letters and whitespace. */
  lemma LettersAndSpacesMatch(s: string)
    ensures FullMatch(LettersAndSpaces, s)
      <==> |s| >= 1 && forall i :: 0 <= i < |s| ==> IsLetter(s[i]) || IsSpace(s[i])
  {
    OnePlus(LetterOrSpace, s);
    forall i | 0 <= i < |s| {
      InLetterOrSpace(s[i]);
    }
  }

  /** `^[6-9]\d{9}$` accepts exactly the ten-character strings of ASCII digits whose
      first digit is 6, 7, 8 or 9. */
  lemma {:induction false} MobileNumberMatch(s: string)
    ensures FullMatch(MobileNumber, s)
      <==> |s| == 10 && '6' <= s[0] <= '9' && forall i :: 1 <= i < |s| ==> IsDigit(s[i])
  {
    var ts := MobileNumber;
    var rest := ts[1..];
    assert rest[1..] == [];
    forall i | 0 <= i < |s| {
      InDigit(s[i]);
    }
    if |s| > 0 {
      InSixToNine(s[0]);
    }
    if FullMatch(ts, s) {
      var k: nat :| k <= |s| && TakesPrefix(ts[0], s, k) && FullMatch(rest, s[k..]);
      assert k == 1;
      var t := s[1..];
      var j: nat :| j <= |t| && TakesPrefix(rest[0], t, j) && FullMatch(rest[1..], t[j..]);
      assert j == 9 && |t| == 9;
      assert InClass(s[..1][0], SixToNine);
      forall i | 1 <= i < |s|
        ensures IsDigit(s[i])
      {
        assert t[..9][i - 1] == s[i];
      }
    }
    if |s| == 10 && '6' <= s[0] <= '9' && forall i :: 1 <= i < |s| ==> IsDigit(s[i]) {
      var t := s[1..];
      assert t[..9] == t;
      assert AllIn(t[..9], Digit);
      assert t[9..] == [];
      assert TakesPrefix(rest[0], t, 9) && FullMatch(rest[1..], t[9..]);
      assert FullMatch(rest, t);
      assert AllIn(s[..1], SixToNine);
      assert TakesPrefix(ts[0], s, 1) && FullMatch(rest, s[1..]);
    }
  }
}
