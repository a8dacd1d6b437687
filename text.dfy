/** String primitives the row pipeline relies on: Rust's `str::trim`,
    `str::contains` and the case-insensitive pattern test used when
    classifying a transaction. Strings are sequences of Unicode scalar values,
    as Rust's `char`s are. */
module Text {

  /** Rust's `char::is_whitespace`: the characters with the Unicode
      White_Space property. */
  predicate IsWhitespace(c: char) {
    var n := c as int;
    (0x09 <= n <= 0x0D) || n == 0x20 || n == 0x85 || n == 0xA0 || n == 0x1680 ||
    (0x2000 <= n <= 0x200A) || n == 0x2028 || n == 0x2029 || n == 0x202F ||
    n == 0x205F || n == 0x3000
  }

  /** `str::trim_start`: drops the leading whitespace, keeps the rest. */
  function TrimStart(s: string): (r: string)
    ensures |r| <= |s| && r == s[|s| - |r|..]
    ensures forall k :: 0 <= k < |s| - |r| ==> IsWhitespace(s[k])
    ensures r == [] || !IsWhitespace(r[0])
    decreases |s|
  {
    if |s| > 0 && IsWhitespace(s[0]) then TrimStart(s[1..]) else s
  }

  /** `str::trim_end`: drops the trailing whitespace, keeps the rest. */
  function TrimEnd(s: string): (r: string)
    ensures |r| <= |s| && r == s[..|r|]
    ensures forall k :: |r| <= k < |s| ==> IsWhitespace(s[k])
    ensures r == [] || !IsWhitespace(r[|r| - 1])
    decreases |s|
  {
    if |s| > 0 && IsWhitespace(s[|s| - 1]) then TrimEnd(s[..|s| - 1]) else s
  }

  /** `r` is `s` without its leading and trailing whitespace: a slice of `s`
      that is cut only at whitespace and neither starts nor ends with it. */
  ghost predicate IsTrimmed(s: string, r: string) {
    exists i, j :: TrimmedAt(s, r, i, j)
  }

  /** `r` is `s[i..j]`, everything outside it is whitespace, and it neither
      starts nor ends with whitespace. */
  predicate TrimmedAt(s: string, r: string, i: int, j: int) {
    0 <= i <= j <= |s| && r == s[i..j] &&
    (forall k :: 0 <= k < i ==> IsWhitespace(s[k])) &&
    (forall k :: j <= k < |s| ==> IsWhitespace(s[k])) &&
    (r == [] || (!IsWhitespace(r[0]) && !IsWhitespace(r[|r| - 1])))
  }

  /** `str::trim`. */
  function Trim(s: string): (r: string)
    ensures IsTrimmed(s, r)
  {
    TrimIsTrimmed(s);
    TrimEnd(TrimStart(s))
  }

  /** Trimming the start and then the end cuts `s` only at whitespace. */
  lemma {:induction false} TrimIsTrimmed(s: string)
    ensures IsTrimmed(s, TrimEnd(TrimStart(s)))
  {
    CutTwice(s, TrimStart(s), TrimEnd(TrimStart(s)));
  }

  /** A suffix of `s` after whitespace, cut again before whitespace, is a
      slice of `s` with whitespace on both sides of it. */
  lemma {:induction false} CutTwice(s: string, a: string, r: string)
    requires |a| <= |s| && a == s[|s| - |a|..]
    requires forall k :: 0 <= k < |s| - |a| ==> IsWhitespace(s[k])
    requires a == [] || !IsWhitespace(a[0])
    requires |r| <= |a| && r == a[..|r|]
    requires forall k :: |r| <= k < |a| ==> IsWhitespace(a[k])
    requires r == [] || !IsWhitespace(r[|r| - 1])
    ensures IsTrimmed(s, r)
  {
    var i := |s| - |a|;
    var j := i + |r|;
    assert r == s[i..j];
    forall k | j <= k < |s| ensures IsWhitespace(s[k]) {
      assert s[k] == a[k - i];
    }
    assert r != [] ==> r[0] == a[0];
    assert TrimmedAt(s, r, i, j);
  }

  /** Trimming is idempotent: a trimmed field trims to itself. */
  lemma {:induction false} TrimIdempotent(s: string)
    ensures Trim(Trim(s)) == Trim(s)
  {
    var r := Trim(s);
    assert TrimStart(r) == r;
    assert TrimEnd(r) == r;
  }

  /** `haystack.contains(needle)` for a string needle: some window of the
      haystack equals the needle. */
  ghost predicate HasSubstring(haystack: string, needle: string) {
    exists i :: 0 <= i && OccursAt(haystack, needle, i)
  }

  /** The window of the haystack that starts at `i` is the needle. */
  predicate OccursAt(haystack: string, needle: string, i: nat) {
    i + |needle| <= |haystack| && haystack[i..i + |needle|] == needle
  }

  /** Past a non-matching first window, the search continues one character on. */
  lemma HasSubstringShift(haystack: string, needle: string)
    requires |haystack| > 0 && !(needle <= haystack)
    ensures HasSubstring(haystack, needle) <==> HasSubstring(haystack[1..], needle)
  {
    if HasSubstring(haystack[1..], needle) {
      var i :| 0 <= i && OccursAt(haystack[1..], needle, i);
      assert haystack[i + 1..i + 1 + |needle|] == haystack[1..][i..i + |needle|];
      assert OccursAt(haystack, needle, i + 1);
    }
    if HasSubstring(haystack, needle) {
      var i :| 0 <= i && OccursAt(haystack, needle, i);
      assert i != 0;
      assert haystack[1..][i - 1..i - 1 + |needle|] == haystack[i..i + |needle|];
      assert OccursAt(haystack[1..], needle, i - 1);
    }
  }

  /** `str::contains` with a string pattern, scanning left to right. */
  function Contains(haystack: string, needle: string): (r: bool)
    ensures r <==> HasSubstring(haystack, needle)
    decreases |haystack|
  {
    if needle <= haystack then
      assert OccursAt(haystack, needle, 0);
      true
    else if |haystack| == 0 then
      false
    else
      HasSubstringShift(haystack, needle);
      Contains(haystack[1..], needle)
  }

  /** The empty string is contained in every string, as in Rust. */
  lemma ContainsEmpty(haystack: string)
    ensures Contains(haystack, "")
  {
    assert OccursAt(haystack, "", 0);
  }

  /** ASCII case folding (upper to lower case letters, nothing else). */
  function LowerChar(c: char): char {
    if 'A' <= c <= 'Z' then (c as int - 'A' as int + 'a' as int) as char else c
  }

  function Lower(s: string): (r: string)
    ensures |r| == |s| && forall k :: 0 <= k < |s| ==> r[k] == LowerChar(s[k])
  {
    seq(|s|, k requires 0 <= k < |s| => LowerChar(s[k]))
  }

  /** The case-insensitive pattern test of the account classifier: the
      pattern occurs in the hint, letters compared without regard to case. */
  predicate Matches(pattern: string, hint: string) {
    Contains(Lower(hint), Lower(pattern))
  }

  /** The pattern, case-folded, equals the window of the case-folded hint
      that starts at `i`. */
  predicate FoldedOccursAt(pattern: string, hint: string, i: nat) {
    i + |pattern| <= |hint| &&
    forall k :: 0 <= k < |pattern| ==> LowerChar(hint[i + k]) == LowerChar(pattern[k])
  }

  /** A pattern matches exactly when it occurs somewhere in the hint, letters
      compared without regard to case. */
  lemma MatchesMeaning(pattern: string, hint: string)
    ensures Matches(pattern, hint) <==> exists i :: 0 <= i && FoldedOccursAt(pattern, hint, i)
  {
    var h, p := Lower(hint), Lower(pattern);
    if Matches(pattern, hint) {
      var i :| 0 <= i && OccursAt(h, p, i);
      forall k | 0 <= k < |pattern| ensures LowerChar(hint[i + k]) == LowerChar(pattern[k]) {
        assert h[i..i + |p|][k] == p[k];
      }
      assert FoldedOccursAt(pattern, hint, i);
    }
    if exists i :: 0 <= i && FoldedOccursAt(pattern, hint, i) {
      var i :| 0 <= i && FoldedOccursAt(pattern, hint, i);
      assert h[i..i + |p|] == p;
      assert OccursAt(h, p, i);
    }
  }

  /** Matching ignores the case of both the pattern and the hint. */
  lemma MatchesIgnoresCase(pattern: string, hint: string)
    ensures Matches(pattern, hint) == Matches(Lower(pattern), Lower(hint))
  {
    assert Lower(Lower(pattern)) == Lower(pattern);
    assert Lower(Lower(hint)) == Lower(hint);
  }
}
