/**
  String helpers with JavaScript's meaning where it is cheap to state exactly
  (`\s` and `trim` use the ECMAScript WhiteSpace and LineTerminator characters),
  and ASCII-only case mapping for `toLowerCase`, `toUpperCase` and the store's
  case-insensitive `contains`.
*/
module Text {

  /** ECMAScript WhiteSpace or LineTerminator: what `\s` matches and `trim` removes. */
  predicate IsJsSpace(c: char)
  {
    || c == '\t' || c == '\n' || c == '\U{000B}' || c == '\U{000C}' || c == '\r' || c == ' '
    || c == '\U{00A0}' || c == '\U{1680}' || ('\U{2000}' <= c <= '\U{200A}')
    || c == '\U{2028}' || c == '\U{2029}' || c == '\U{202F}' || c == '\U{205F}'
    || c == '\U{3000}' || c == '\U{FEFF}'
  }

  /** `s` neither starts nor ends with whitespace. */
  predicate IsTrimmed(s: string)
  {
    |s| == 0 || (!IsJsSpace(s[0]) && !IsJsSpace(s[|s| - 1]))
  }

  /** The index of the first non-whitespace character at or after `i`, or `|s|`. */
  function SkipSpaceFrom(s: string, i: nat): (j: nat)
    requires i <= |s|
    ensures i <= j <= |s|
    ensures forall k :: i <= k < j ==> IsJsSpace(s[k])
    ensures j < |s| ==> !IsJsSpace(s[j])
    decreases |s| - i
  {
    if i == |s| || !IsJsSpace(s[i]) then i else SkipSpaceFrom(s, i + 1)
  }

  /** The end of `s[lo..j]` without its trailing whitespace. */
  function SkipSpaceBack(s: string, lo: nat, j: nat): (e: nat)
    requires lo <= j <= |s|
    ensures lo <= e <= j
    ensures forall k :: e <= k < j ==> IsJsSpace(s[k])
    ensures e > lo ==> !IsJsSpace(s[e - 1])
  {
    if j == lo || !IsJsSpace(s[j - 1]) then j else SkipSpaceBack(s, lo, j - 1)
  }

  /** Where the text of `s` starts: the number of leading whitespace characters. */
  function TrimOffset(s: string): (i: nat)
    ensures i <= |s|
  {
    SkipSpaceFrom(s, 0)
  }

  /** `r` sits at position `i` of `s`, with only whitespace before and after it. */
  ghost predicate SurroundedBySpace(s: string, r: string, i: int)
  {
    && 0 <= i && i + |r| <= |s|
    && (forall k :: 0 <= k < |r| ==> r[k] == s[i + k])
    && (forall k :: 0 <= k < i ==> IsJsSpace(s[k]))
    && (forall k :: i + |r| <= k < |s| ==> IsJsSpace(s[k]))
  }

  /** `String.prototype.trim`: the text of `s` between its leading and trailing whitespace. */
  function Trim(s: string): (r: string)
    ensures IsTrimmed(r)
    ensures SurroundedBySpace(s, r, TrimOffset(s))
  {
    var i := TrimOffset(s);
    s[i..SkipSpaceBack(s, i, |s|)]
  }

  /**
    A trimmed text surrounded only by whitespace is the trim: `Trim` is the one
    way to cut whitespace from both ends.
  */
  lemma TrimUnique(s: string, r: string, i: int)
    requires IsTrimmed(r) && SurroundedBySpace(s, r, i)
    ensures Trim(s) == r
  {
    var t := Trim(s);
    var o := TrimOffset(s);
    if |r| == 0 {
      assert forall k :: 0 <= k < |s| ==> IsJsSpace(s[k]) by {
        forall k | 0 <= k < |s| ensures IsJsSpace(s[k]) {
          if k < i {} else {}
        }
      }
      assert o == |s|;
    } else {
      assert !IsJsSpace(s[i]);
      assert o == i;
      assert !IsJsSpace(s[i + |r| - 1]);
      assert i + |t| == i + |r|;
      assert forall k :: 0 <= k < |r| ==> t[k] == r[k];
    }
  }

  /** Trimming what is already trimmed changes nothing. */
  lemma TrimOfTrimmed(s: string)
    requires IsTrimmed(s)
    ensures Trim(s) == s
  {
    TrimUnique(s, s, 0);
  }

  /** `trim` is idempotent. */
  lemma TrimIdempotent(s: string)
    ensures Trim(Trim(s)) == Trim(s)
  {
    TrimOfTrimmed(Trim(s));
  }

  /** Whitespace added in front is trimmed away. */
  lemma TrimIgnoresLeadingSpace(s: string, c: char)
    requires IsJsSpace(c)
    ensures Trim([c] + s) == Trim(s)
  {
    var t := Trim(s);
    var i := TrimOffset(s);
    var front := [c] + s;
    forall k | 0 <= k < |t| ensures t[k] == front[i + 1 + k] {
      assert front[i + 1 + k] == s[i + k];
    }
    forall k | 0 <= k < i + 1 ensures IsJsSpace(front[k]) {
      if k > 0 { assert front[k] == s[k - 1]; }
    }
    forall k | i + 1 + |t| <= k < |front| ensures IsJsSpace(front[k]) {
      assert front[k] == s[k - 1];
    }
    TrimUnique(front, t, i + 1);
  }

  /** Whitespace added at the end is trimmed away. */
  lemma TrimIgnoresTrailingSpace(s: string, c: char)
    requires IsJsSpace(c)
    ensures Trim(s + [c]) == Trim(s)
  {
    var t := Trim(s);
    var i := TrimOffset(s);
    var back := s + [c];
    forall k | 0 <= k < |t| ensures t[k] == back[i + k] {
      assert back[i + k] == s[i + k];
    }
    forall k | 0 <= k < i ensures IsJsSpace(back[k]) {
      assert back[k] == s[k];
    }
    forall k | i + |t| <= k < |back| ensures IsJsSpace(back[k]) {
      if k < |s| { assert back[k] == s[k]; }
    }
    TrimUnique(back, t, i);
  }

  /** One character of `toLowerCase`: an ASCII capital becomes its small letter, anything else stays. */
  function LowerChar(c: char): (d: char)
    ensures 'A' <= c <= 'Z' ==> 'a' <= d <= 'z' && d as int == c as int + 32
    ensures !('A' <= c <= 'Z') ==> d == c
    ensures IsJsSpace(d) <==> IsJsSpace(c)
    ensures !('A' <= d <= 'Z')
  {
    if 'A' <= c <= 'Z' then (c as int - 'A' as int + 'a' as int) as char else c
  }

  /** One character of `toUpperCase`: an ASCII small letter becomes its capital, anything else stays. */
  function UpperChar(c: char): (d: char)
    ensures 'a' <= c <= 'z' ==> 'A' <= d <= 'Z' && d as int == c as int - 32
    ensures !('a' <= c <= 'z') ==> d == c
    ensures IsJsSpace(d) <==> IsJsSpace(c)
    ensures !('a' <= d <= 'z')
  {
    if 'a' <= c <= 'z' then (c as int - 'a' as int + 'A' as int) as char else c
  }

  /** The two case maps undo each other on ASCII letters. */
  lemma CaseMapsAreInverse(c: char)
    ensures 'A' <= c <= 'Z' ==> UpperChar(LowerChar(c)) == c
    ensures 'a' <= c <= 'z' ==> LowerChar(UpperChar(c)) == c
  {
  }

  /** A mixed string: capitals lowered, everything else kept. */
  lemma LowerExample()
    ensures Lower("AbC-1") == "abc-1"
    ensures Upper("aBc-1") == "ABC-1"
  {
    assert Lower("AbC-1")[0] == LowerChar('A') == 'a';
    assert Lower("AbC-1")[2] == LowerChar('C') == 'c';
    assert Upper("aBc-1")[0] == UpperChar('a') == 'A';
    assert Upper("aBc-1")[2] == UpperChar('c') == 'C';
  }

  /** `toLowerCase`, on ASCII letters only. */
  function Lower(s: string): (r: string)
    ensures |r| == |s|
    ensures forall k :: 0 <= k < |s| ==> r[k] == LowerChar(s[k])
  {
    seq(|s|, k requires 0 <= k < |s| => LowerChar(s[k]))
  }

  /** `toUpperCase`, on ASCII letters only. */
  function Upper(s: string): (r: string)
    ensures |r| == |s|
    ensures forall k :: 0 <= k < |s| ==> r[k] == UpperChar(s[k])
  {
    seq(|s|, k requires 0 <= k < |s| => UpperChar(s[k]))
  }

  /** Lower-casing is idempotent and keeps a trimmed string trimmed. */
  lemma LowerFacts(s: string)
    ensures Lower(Lower(s)) == Lower(s)
    ensures IsTrimmed(s) ==> IsTrimmed(Lower(s))
    ensures |Lower(s)| == 0 <==> |s| == 0
  {
  }

  /** Upper-casing is idempotent and keeps a trimmed string trimmed. */
  lemma UpperFacts(s: string)
    ensures Upper(Upper(s)) == Upper(s)
    ensures IsTrimmed(s) ==> IsTrimmed(Upper(s))
    ensures |Upper(s)| == 0 <==> |s| == 0
  {
  }

  /** `needle` occurs in `hay` as a contiguous part. */
  predicate Contains(hay: string, needle: string)
  {
    exists i :: 0 <= i <= |hay| - |needle| && OccursAt(hay, needle, i)
  }

  predicate OccursAt(hay: string, needle: string, i: int)
  {
    0 <= i <= |hay| - |needle| && hay[i..i + |needle|] == needle
  }

  /** The store's case-insensitive `contains`, with ASCII case folding. */
  predicate ContainsIgnoringCase(hay: string, needle: string)
  {
    Contains(Lower(hay), Lower(needle))
  }

  /** `needle` matches `hay` at offset `i` character by character, up to ASCII case. */
  predicate FoldOccursAt(hay: string, needle: string, i: int)
  {
    0 <= i <= |hay| - |needle| && forall k :: 0 <= k < |needle| ==> LowerChar(hay[i + k]) == LowerChar(needle[k])
  }

  /** Some offset of `hay` matches `needle` up to ASCII case. */
  predicate FoldContains(hay: string, needle: string)
  {
    exists i :: 0 <= i <= |hay| - |needle| && FoldOccursAt(hay, needle, i)
  }

  /**
    Lower-casing both strings and then searching is the same as comparing
    character by character up to case at some offset.
  */
  lemma ContainsIgnoringCaseIsFolded(hay: string, needle: string)
    ensures ContainsIgnoringCase(hay, needle) <==> FoldContains(hay, needle)
  {
    var h, n := Lower(hay), Lower(needle);
    if ContainsIgnoringCase(hay, needle) {
      var i :| 0 <= i <= |h| - |n| && OccursAt(h, n, i);
      forall k | 0 <= k < |needle|
        ensures LowerChar(hay[i + k]) == LowerChar(needle[k])
      {
        assert h[i..i + |n|][k] == h[i + k];
      }
      assert FoldOccursAt(hay, needle, i);
    }
    if FoldContains(hay, needle) {
      var i :| 0 <= i <= |hay| - |needle| && FoldOccursAt(hay, needle, i);
      assert h[i..i + |n|] == n;
      assert OccursAt(h, n, i);
    }
  }
}
