/** Whitespace and stripping of text, as Python's `str.isspace` and the
    argument-less `str.strip` define them. Text is a sequence of Unicode
    scalar values (`string`). */
module Text {

  /** The characters for which Python's `str.isspace` holds: those whose
      bidirectional class is WS, B or S, or whose general category is Zs. */
  predicate IsWhitespace(c: char) {
    var n := c as int;
    || (0x09 <= n <= 0x0D)
    || (0x1C <= n <= 0x20)
    || n == 0x85
    || n == 0xA0
    || n == 0x1680
    || (0x2000 <= n <= 0x200A)
    || n == 0x2028
    || n == 0x2029
    || n == 0x202F
    || n == 0x205F
    || n == 0x3000
  }

  /** Every character of `s` is whitespace; true of the empty text. */
  predicate AllWhitespace(s: string) {
    forall k :: 0 <= k < |s| ==> IsWhitespace(s[k])
  }

  /** No character of `s` is whitespace. */
  predicate NoWhitespace(s: string) {
    forall k :: 0 <= k < |s| ==> !IsWhitespace(s[k])
  }

  /** `s` neither starts nor ends with whitespace. */
  predicate Trimmed(s: string) {
    s == [] || (!IsWhitespace(s[0]) && !IsWhitespace(s[|s| - 1]))
  }

  /** Independent description of stripping: cutting `s` at `i` and `j`
      leaves only whitespace before `i` and from `j` on, and a middle
      `s[i..j]` that is empty or starts and ends with a non-whitespace. */
  predicate StripsTo(s: string, i: int, j: int) {
    && 0 <= i <= j <= |s|
    && (forall k :: 0 <= k < i ==> IsWhitespace(s[k]))
    && (forall k :: j <= k < |s| ==> IsWhitespace(s[k]))
    && (i < j ==> !IsWhitespace(s[i]) && !IsWhitespace(s[j - 1]))
  }

  /** Scans forward from `from` past whitespace: the index of the first
      non-whitespace character at or after `from`, or `|s|`. */
  function ScanLeading(s: string, from: nat): (i: nat)
    requires from <= |s|
    ensures from <= i <= |s|
    ensures forall k :: from <= k < i ==> IsWhitespace(s[k])
    ensures i < |s| ==> !IsWhitespace(s[i])
    decreases |s| - from
  {
    if from < |s| && IsWhitespace(s[from]) then ScanLeading(s, from + 1) else from
  }

  /** Scans backward from `hi`, but not below `lo`, past whitespace: the
      end of the last non-whitespace character in `s[lo..hi]`, or `lo`. */
  function ScanTrailing(s: string, lo: nat, hi: nat): (j: nat)
    requires lo <= hi <= |s|
    ensures lo <= j <= hi
    ensures forall k :: j <= k < hi ==> IsWhitespace(s[k])
    ensures j > lo ==> !IsWhitespace(s[j - 1])
    decreases hi
  {
    if hi > lo && IsWhitespace(s[hi - 1]) then ScanTrailing(s, lo, hi - 1) else hi
  }

  /** Where `strip` cuts: past the leading whitespace, then back over the
      trailing whitespace of what remains. */
  function StripBounds(s: string): (b: (int, int))
    ensures StripsTo(s, b.0, b.1)
  {
    var i := ScanLeading(s, 0);
    (i, ScanTrailing(s, i, |s|))
  }

  /** Python's `s.strip()`: leading and trailing whitespace removed. */
  function Strip(s: string): (r: string)
    ensures |r| <= |s|
    ensures exists i, j :: StripsTo(s, i, j) && r == s[i..j]
  {
    var b := StripBounds(s);
    s[b.0..b.1]
  }

  /** Two cuts that both describe stripping `s` leave the same middle. */
  lemma StripsToUnique(s: string, i: int, j: int, i': int, j': int)
    requires StripsTo(s, i, j) && StripsTo(s, i', j')
    ensures s[i..j] == s[i'..j']
  {
  }

  /** Stripping is determined by the independent description: any cut
      that leaves whitespace outside and a trimmed middle is `Strip`. */
  lemma StripUnique(s: string, i: int, j: int)
    requires StripsTo(s, i, j)
    ensures Strip(s) == s[i..j]
  {
    var (i', j') := StripBounds(s);
    StripsToUnique(s, i, j, i', j');
  }

  /** The result of stripping is trimmed. */
  lemma StripIsTrimmed(s: string)
    ensures Trimmed(Strip(s))
  {
    var (i, j) := StripBounds(s);
  }

  /** A text that is already trimmed is left unchanged. */
  lemma StripTrimmedIsIdentity(s: string)
    requires Trimmed(s)
    ensures Strip(s) == s
  {
    assert s[..0] == [] && s[|s|..] == [] && s[0..|s|] == s;
    StripUnique(s, 0, |s|);
  }

  /** A text without any whitespace character is left unchanged. */
  lemma StripNoWhitespaceIsIdentity(s: string)
    requires NoWhitespace(s)
    ensures Strip(s) == s
  {
    StripTrimmedIsIdentity(s);
  }

  /** Stripping twice is stripping once. */
  lemma StripIdempotent(s: string)
    ensures Strip(Strip(s)) == Strip(s)
  {
    StripIsTrimmed(s);
    StripTrimmedIsIdentity(Strip(s));
  }

  /** Stripping leaves nothing exactly when the text is all whitespace
      (in particular when it is empty). */
  lemma StripEmptyIff(s: string)
    ensures Strip(s) == [] <==> AllWhitespace(s)
  {
    var (i, j) := StripBounds(s);
  }

  /** Padding a text with whitespace shifts its stripping cut. */
  lemma StripsToPadded(pre: string, s: string, post: string, i: int, j: int)
    requires AllWhitespace(pre) && AllWhitespace(post)
    requires StripsTo(s, i, j)
    ensures StripsTo(pre + s + post, |pre| + i, |pre| + j)
    ensures (pre + s + post)[|pre| + i..|pre| + j] == s[i..j]
  {
    var t := pre + s + post;
    assert forall k :: 0 <= k < |pre| ==> t[k] == pre[k];
    assert forall k :: 0 <= k < |s| ==> t[|pre| + k] == s[k];
    assert forall k :: 0 <= k < |post| ==> t[|pre| + |s| + k] == post[k];
    forall k | 0 <= k < |pre| + i
      ensures IsWhitespace(t[k])
    {
      if k >= |pre| { assert t[k] == s[k - |pre|]; }
    }
    forall k | |pre| + j <= k < |t|
      ensures IsWhitespace(t[k])
    {
      if k < |pre| + |s| {
        assert t[k] == s[k - |pre|];
      } else {
        assert t[k] == post[k - |pre| - |s|];
      }
    }
  }

  /** Whitespace added around a text does not change its stripped form. */
  lemma StripIgnoresPadding(pre: string, s: string, post: string)
    requires AllWhitespace(pre) && AllWhitespace(post)
    ensures Strip(pre + s + post) == Strip(s)
  {
    var (i, j) := StripBounds(s);
    StripsToPadded(pre, s, post, i, j);
    var t := pre + s + post;
    assert Strip(t) == s[i..j] by {
      StripUnique(t, |pre| + i, |pre| + j);
    }
  }
}
