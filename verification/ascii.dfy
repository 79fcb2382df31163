/**
 * Character classes and string helpers over ASCII, used wherever the
 * source relies on JavaScript's `\s`, `String.prototype.trim`,
 * `toLowerCase` or a substring search.
 */
module Ascii {

  predicate IsLower(c: char) { 'a' <= c <= 'z' }

  predicate IsUpper(c: char) { 'A' <= c <= 'Z' }

  predicate IsLetter(c: char) { IsLower(c) || IsUpper(c) }

  predicate IsDigit(c: char) { '0' <= c <= '9' }

  /** JavaScript's `\s` and the characters `trim` removes, restricted to ASCII:
      tab, line feed, vertical tab, form feed, carriage return and space. */
  predicate IsSpace(c: char) { '\t' <= c <= '\r' || c == ' ' }

  function ToLower(c: char): (r: char)
    ensures IsUpper(c) ==> IsLower(r) && r as int == c as int + 32
    ensures !IsUpper(c) ==> r == c
  {
    if IsUpper(c) then (c as int + 32) as char else c
  }

  /** `toLowerCase` on an ASCII string. */
  function Lower(s: string): (r: string)
    ensures |r| == |s|
    ensures forall i :: 0 <= i < |s| ==> r[i] == ToLower(s[i])
  {
    if s == [] then [] else [ToLower(s[0])] + Lower(s[1..])
  }

  lemma {:induction false} LowerIdempotent(s: string)
    ensures Lower(Lower(s)) == Lower(s)
  {
  }

  /** Drops leading whitespace. */
  function TrimStart(s: string): (r: string)
    ensures |r| <= |s| && r == s[|s| - |r|..]
    ensures r == [] || !IsSpace(r[0])
    ensures forall i :: 0 <= i < |s| - |r| ==> IsSpace(s[i])
  {
    if s != [] && IsSpace(s[0]) then TrimStart(s[1..]) else s
  }

  /** Drops trailing whitespace. */
  function TrimEnd(s: string): (r: string)
    ensures |r| <= |s| && r == s[..|r|]
    ensures r == [] || !IsSpace(r[|r| - 1])
    ensures forall i :: |r| <= i < |s| ==> IsSpace(s[i])
  {
    if s != [] && IsSpace(s[|s| - 1]) then TrimEnd(s[..|s| - 1]) else s
  }

  /** `String.prototype.trim`. */
  function Trim(s: string): string
  {
    TrimEnd(TrimStart(s))
  }

  predicate IsTrimmed(s: string)
  {
    s == [] || (!IsSpace(s[0]) && !IsSpace(s[|s| - 1]))
  }

  /** The trimmed string neither starts nor ends with whitespace. */
  lemma {:induction false} TrimIsTrimmed(s: string)
    ensures IsTrimmed(Trim(s))
  {
    var a := TrimStart(s);
    var t := TrimEnd(a);
    if t != [] {
      assert |t| <= |a| && t == a[..|t|];
      assert a != [] && t[0] == a[0];
      assert !IsSpace(a[0]);
    }
  }

  /** Trimming a string that is already trimmed changes nothing. */
  lemma {:induction false} TrimOfTrimmed(s: string)
    requires IsTrimmed(s)
    ensures Trim(s) == s
  {
  }

  predicate AllTrimmed(ss: seq<string>)
  {
    forall i :: 0 <= i < |ss| ==> IsTrimmed(ss[i])
  }

  /** `ss.map(s => s.trim())`. */
  function TrimAll(ss: seq<string>): (r: seq<string>)
    ensures |r| == |ss|
    ensures forall i :: 0 <= i < |ss| ==> r[i] == Trim(ss[i])
  {
    seq(|ss|, i requires 0 <= i < |ss| => Trim(ss[i]))
  }

  lemma {:induction false} TrimAllTrimmed(ss: seq<string>)
    ensures AllTrimmed(TrimAll(ss))
  {
    forall i | 0 <= i < |ss| ensures IsTrimmed(TrimAll(ss)[i])
    {
      TrimIsTrimmed(ss[i]);
    }
  }

  predicate OccursAt(haystack: string, needle: string, i: int)
  {
    0 <= i <= |haystack| - |needle| && haystack[i..i + |needle|] == needle
  }

  /** `haystack.includes(needle)`. */
  predicate Contains(haystack: string, needle: string)
  {
    exists i | 0 <= i <= |haystack| :: OccursAt(haystack, needle, i)
  }

  /** A case-insensitive substring test, as a `$regex` query with option `i`
      performs for a search string without metacharacters. */
  predicate ContainsIgnoreCase(haystack: string, needle: string)
  {
    Contains(Lower(haystack), Lower(needle))
  }
}
