/** The three string operations the URL check of the landing form uses:
    `String.prototype.trim`, `toLowerCase` and `includes`. */
module Text {

  /** The code points `trim` strips: the ECMAScript WhiteSpace characters
      (tab, vertical tab, form feed, ZWNBSP and every space separator) and the
      LineTerminator characters (LF, CR, LS, PS). */
  predicate IsWhitespace(c: char)
  {
    c == '\t' || c == '\n' || c == '\U{B}' || c == '\U{C}' || c == '\r' || c == ' '
    || c == '\U{A0}' || c == '\U{1680}' || ('\U{2000}' <= c <= '\U{200A}')
    || c == '\U{2028}' || c == '\U{2029}' || c == '\U{202F}' || c == '\U{205F}'
    || c == '\U{3000}' || c == '\U{FEFF}'
  }

  predicate AllWhitespace(s: string)
  {
    forall i :: 0 <= i < |s| ==> IsWhitespace(s[i])
  }

  /** The length of the longest all-whitespace prefix of `s`. */
  function LeadingBlanks(s: string): (n: nat)
    ensures n <= |s| && AllWhitespace(s[..n])
    ensures n < |s| ==> !IsWhitespace(s[n])
  {
    if |s| > 0 && IsWhitespace(s[0]) then
      var m := LeadingBlanks(s[1..]);
      assert s[..1 + m] == [s[0]] + s[1..][..m];
      1 + m
    else
      0
  }

  /** Where the all-whitespace suffix of `s` begins, never looking below `lo`. */
  function TrailingBlanksStart(s: string, lo: nat): (j: nat)
    requires lo <= |s|
    ensures lo <= j <= |s| && AllWhitespace(s[j..])
    ensures lo < j ==> !IsWhitespace(s[j - 1])
    decreases |s|
  {
    if lo < |s| && IsWhitespace(s[|s| - 1]) then
      var j := TrailingBlanksStart(s[..|s| - 1], lo);
      assert forall i :: j <= i < |s| - 1 ==> s[i] == s[..|s| - 1][i];
      j
    else
      |s|
  }

  /** `r` is what is left of `s` once its leading and trailing whitespace is
      removed, `r` standing at index `start` of `s`: whitespace, then `r`, then
      whitespace, and `r` neither begins nor ends with whitespace. */
  ghost predicate IsTrimOf(r: string, s: string, start: int)
  {
    && 0 <= start && start + |r| <= |s|
    && s[start..start + |r|] == r
    && AllWhitespace(s[..start])
    && AllWhitespace(s[start + |r|..])
    && (|r| > 0 ==> !IsWhitespace(r[0]) && !IsWhitespace(r[|r| - 1]))
  }

  /** `String.prototype.trim`. */
  function Trim(s: string): (r: string)
    ensures exists start :: IsTrimOf(r, s, start)
  {
    var i := LeadingBlanks(s);
    var j := TrailingBlanksStart(s, i);
    assert IsTrimOf(s[i..j], s, i);
    s[i..j]
  }

  /** What `IsTrimOf` says, index by index: everything before `start` and
      from `start + |r|` on is whitespace, and a non-empty `r` starts and ends
      on a character that is not. */
  lemma TrimOfBounds(r: string, s: string, start: int)
    requires IsTrimOf(r, s, start)
    ensures forall i :: 0 <= i < start ==> IsWhitespace(s[i])
    ensures forall i :: start + |r| <= i < |s| ==> IsWhitespace(s[i])
    ensures forall i :: 0 <= i < |r| ==> s[start + i] == r[i]
  {
  }

  /** `IsTrimOf` pins its first argument down: `s` has exactly one trimmed form,
      so any function meeting the contract of `Trim` is `Trim`. */
  lemma TrimmedFormIsUnique(r1: string, r2: string, s: string, a: int, b: int)
    requires IsTrimOf(r1, s, a) && IsTrimOf(r2, s, b)
    ensures r1 == r2
  {
  }

  /** Trimming twice is trimming once. */
  lemma TrimIdempotent(s: string)
    ensures Trim(Trim(s)) == Trim(s)
  {
  }

  /** `toLowerCase` on one character, restricted to ASCII letters. */
  function LowerChar(c: char): char
  {
    if 'A' <= c <= 'Z' then (c as int + 32) as char else c
  }

  /** `String.prototype.toLowerCase`, restricted to ASCII letters. */
  function ToLower(s: string): (r: string)
    ensures |r| == |s|
  {
    seq(|s|, i requires 0 <= i < |s| => LowerChar(s[i]))
  }

  /** What lower-casing does, character by character: no capital letter
      survives, each one becomes its small letter, and every other character
      is kept. */
  lemma ToLowerMeaning(s: string, i: int)
    requires 0 <= i < |s|
    ensures !('A' <= ToLower(s)[i] <= 'Z')
    ensures 'A' <= s[i] <= 'Z' ==> ToLower(s)[i] as int == s[i] as int + 32
    ensures !('A' <= s[i] <= 'Z') ==> ToLower(s)[i] == s[i]
  {
  }

  /** Lower-casing leaves whitespace alone and never produces it: a character
      that is not whitespace after lower-casing was not whitespace before. */
  lemma LowerCharKeepsBlankness(c: char)
    ensures IsWhitespace(LowerChar(c)) <==> IsWhitespace(c)
  {
  }

  /** Lower-casing is idempotent, so an input that is already lower case is
      judged as it is. */
  lemma ToLowerIdempotent(s: string)
    ensures ToLower(ToLower(s)) == ToLower(s)
  {
  }

  /** `sub` occurs in `s` at index `k`. */
  predicate OccursAt(s: string, sub: string, k: int)
  {
    0 <= k && k + |sub| <= |s| && s[k..k + |sub|] == sub
  }

  /** `String.prototype.includes`: a left-to-right search for `sub`. */
  function Contains(s: string, sub: string): (b: bool)
    ensures b <==> exists k :: OccursAt(s, sub, k)
    decreases |s|
  {
    if |sub| > |s| then
      false
    else if s[..|sub|] == sub then
      assert OccursAt(s, sub, 0);
      true
    else
      OccursShift(s, sub);
      Contains(s[1..], sub)
  }

  /** An occurrence in `s` past index 0 is an occurrence in `s[1..]`, and back. */
  lemma OccursShift(s: string, sub: string)
    requires |sub| <= |s| && s[..|sub|] != sub
    ensures (exists k :: OccursAt(s, sub, k)) <==> (exists k :: OccursAt(s[1..], sub, k))
  {
    if k :| OccursAt(s, sub, k) {
      assert k != 0;
      assert s[1..][k - 1..k - 1 + |sub|] == s[k..k + |sub|];
      assert OccursAt(s[1..], sub, k - 1);
    }
    if k :| OccursAt(s[1..], sub, k) {
      assert s[1..][k..k + |sub|] == s[k + 1..k + 1 + |sub|];
      assert OccursAt(s, sub, k + 1);
    }
  }

  /** Lower-casing commutes with taking a slice. */
  lemma ToLowerSlice(s: string, lo: int, hi: int)
    requires 0 <= lo <= hi <= |s|
    ensures ToLower(s[lo..hi]) == ToLower(s)[lo..hi]
  {
  }

  /** An occurrence inside the slice `t[lo..hi]` is an occurrence in `t`
      that lies between `lo` and `hi`. */
  lemma OccursInSlice(t: string, sub: string, lo: int, hi: int, k: int)
    requires 0 <= lo <= hi <= |t|
    ensures OccursAt(t[lo..hi], sub, k) <==> (0 <= k && lo + k + |sub| <= hi && OccursAt(t, sub, lo + k))
  {
    if 0 <= k && lo + k + |sub| <= hi {
      var a, b := t[lo..hi][k..k + |sub|], t[lo + k..lo + k + |sub|];
      forall j | 0 <= j < |sub| ensures a[j] == b[j] {
        assert a[j] == t[lo + k + j] == b[j];
      }
      assert a == b;
    }
  }

  /** The lower-cased trimmed input contains a whitespace-free `sub` exactly
      when the lower-cased raw input does: trimming only drops whitespace, and
      an occurrence of `sub` cannot touch whitespace. */
  lemma {:induction false} TrimKeepsOccurrences(s: string, sub: string)
    requires forall i :: 0 <= i < |sub| ==> !IsWhitespace(sub[i])
    ensures Contains(ToLower(Trim(s)), sub) <==> Contains(ToLower(s), sub)
  {
    var r := Trim(s);
    var start :| IsTrimOf(r, s, start);
    var end := start + |r|;
    assert r == s[start..end];
    var ls := ToLower(s);
    ToLowerSlice(s, start, end);
    assert ToLower(r) == ls[start..end];
    if k :| OccursAt(ls[start..end], sub, k) {
      OccursInSlice(ls, sub, start, end, k);
    }
    if k :| OccursAt(ls, sub, k) {
      if |sub| > 0 {
        OccursInTrimmedPart(s, sub, r, start, k);
        OccursInSlice(ls, sub, start, end, k - start);
      } else {
        OccursInSlice(ls, sub, start, end, 0);
      }
    }
  }

  /** An occurrence of a non-empty whitespace-free `sub` in the lower-cased
      input lies inside the trimmed part. */
  lemma OccursInTrimmedPart(s: string, sub: string, r: string, start: int, k: int)
    requires forall i :: 0 <= i < |sub| ==> !IsWhitespace(sub[i])
    requires IsTrimOf(r, s, start) && |sub| > 0 && OccursAt(ToLower(s), sub, k)
    ensures start <= k && k + |sub| <= start + |r|
  {
    var ls := ToLower(s);
    assert ls[k] == ls[k..k + |sub|][0] == sub[0];
    assert ls[k + |sub| - 1] == ls[k..k + |sub|][|sub| - 1] == sub[|sub| - 1];
    LowerCharKeepsBlankness(s[k]);
    LowerCharKeepsBlankness(s[k + |sub| - 1]);
    TrimOfBounds(r, s, start);
  }
}
