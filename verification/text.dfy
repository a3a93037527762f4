/**
 * The two string operations `search_history` relies on: `str.lower()` and the
 * substring test `needle in haystack`.
 */
module Text {

  /** `str.lower()` restricted to ASCII: 'A'..'Z' become 'a'..'z', every other character is kept. */
  function LowerChar(c: char): (r: char)
    ensures 'A' <= c <= 'Z' ==> r as int == c as int + 32
    ensures !('A' <= c <= 'Z') ==> r == c
    ensures !('A' <= r <= 'Z')
  {
    if 'A' <= c <= 'Z' then (c as int + 32) as char else c
  }

  /** The ASCII upper-case counterpart, used to state that matching ignores case. */
  function UpperChar(c: char): (r: char)
    ensures 'a' <= c <= 'z' ==> r as int == c as int - 32
    ensures !('a' <= c <= 'z') ==> r == c
    ensures LowerChar(r) == LowerChar(c)
  {
    if 'a' <= c <= 'z' then (c as int - 32) as char else c
  }

  function Lower(s: string): (r: string)
    ensures |r| == |s|
    ensures forall i :: 0 <= i < |s| ==> r[i] == LowerChar(s[i])
  {
    seq(|s|, i requires 0 <= i < |s| => LowerChar(s[i]))
  }

  function Upper(s: string): (r: string)
    ensures |r| == |s|
    ensures forall i :: 0 <= i < |s| ==> r[i] == UpperChar(s[i])
  {
    seq(|s|, i requires 0 <= i < |s| => UpperChar(s[i]))
  }

  /** Lower-casing twice is lower-casing once. */
  lemma LowerIdempotent(s: string)
    ensures Lower(Lower(s)) == Lower(s)
  {
    assert forall i :: 0 <= i < |s| ==> Lower(Lower(s))[i] == Lower(s)[i];
  }

  /** Upper-casing a string does not change what it lower-cases to. */
  lemma LowerOfUpper(s: string)
    ensures Lower(Upper(s)) == Lower(s)
  {
    assert forall i :: 0 <= i < |s| ==> Lower(Upper(s))[i] == Lower(s)[i];
  }

  /** The needle occupies the window of the haystack that begins at index i. */
  predicate OccursAt(needle: string, haystack: string, i: int)
  {
    0 <= i <= |haystack| - |needle| && haystack[i..i + |needle|] == needle
  }

  /** `needle in haystack` for Python strings: some window of the haystack equals the needle. */
  ghost predicate IsSubstring(needle: string, haystack: string)
  {
    exists i :: OccursAt(needle, haystack, i)
  }

  /** The empty string occurs in every string, as `"" in s` is always true. */
  lemma EmptyIsSubstring(haystack: string)
    ensures IsSubstring("", haystack)
  {
    assert OccursAt("", haystack, 0);
  }

  /** The substring test, by scanning every window from the left. */
  method Contains(needle: string, haystack: string) returns (found: bool)
    ensures found <==> IsSubstring(needle, haystack)
  {
    if |needle| > |haystack| {
      return false;
    }
    var i := 0;
    while i <= |haystack| - |needle|
      invariant 0 <= i <= |haystack| - |needle| + 1
      invariant forall j :: 0 <= j < i ==> !OccursAt(needle, haystack, j)
    {
      if haystack[i..i + |needle|] == needle {
        assert OccursAt(needle, haystack, i);
        return true;
      }
      i := i + 1;
    }
    return false;
  }
}
