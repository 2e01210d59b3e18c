/**
 * Text helpers shared by the readers: occurrences of one text inside another,
 * and the ASCII case mapping of java.lang.String.
 */
module Text {
  import opened Wrappers

  /** String.indexOf(c, pos): the first `c` at or after `pos`, if any. */
  function IndexOfChar(s: string, c: char, pos: nat): (r: Option<nat>)
    ensures r.Some? ==> pos <= r.value < |s| && s[r.value] == c
    ensures r.Some? ==> forall k :: pos <= k < r.value ==> s[k] != c
    ensures r.None? ==> forall k :: pos <= k < |s| ==> s[k] != c
    decreases |s| - pos
  {
    if pos >= |s| then None
    else if s[pos] == c then Some(pos)
    else IndexOfChar(s, c, pos + 1)
  }

  /** `p` occurs in `s` at `pos`, character by character. */
  predicate At(s: string, pos: nat, p: string)
    decreases |p|
  {
    pos + |p| <= |s| && (|p| == 0 || (s[pos] == p[0] && At(s, pos + 1, p[1..])))
  }

  lemma {:induction false} AtSlice(s: string, pos: nat, p: string)
    requires At(s, pos, p)
    ensures s[pos..pos + |p|] == p
    decreases |p|
  {
    if |p| > 0 {
      AtSlice(s, pos + 1, p[1..]);
      assert s[pos..pos + |p|] == [s[pos]] + s[pos + 1..pos + |p|];
      assert p == [p[0]] + p[1..];
    }
  }

  /** A slice equal to `p` is an occurrence of it. */
  lemma {:induction false} SliceAt(s: string, pos: nat, p: string)
    requires pos + |p| <= |s| && s[pos..pos + |p|] == p
    ensures At(s, pos, p)
    decreases |p|
  {
    if |p| > 0 {
      assert s[pos] == p[0];
      assert s[pos + 1..pos + |p|] == p[1..];
      SliceAt(s, pos + 1, p[1..]);
    }
  }

  lemma {:induction false} AtSplit(s: string, pos: nat, a: string, b: string)
    requires At(s, pos, a + b)
    ensures At(s, pos, a) && At(s, pos + |a|, b)
    decreases |a|
  {
    if |a| == 0 {
      assert a + b == b;
    } else {
      assert (a + b)[1..] == a[1..] + b;
      AtSplit(s, pos + 1, a[1..], b);
    }
  }

  lemma AtChar(s: string, pos: nat, c: char, rest: string)
    requires At(s, pos, [c] + rest)
    ensures pos < |s| && s[pos] == c && At(s, pos + 1, rest)
  {
    assert ([c] + rest)[1..] == rest;
  }

  /** The first character of a non-empty text at `pos`. */
  lemma AtFirst(s: string, pos: nat, p: string)
    requires At(s, pos, p) && |p| > 0
    ensures pos < |s| && s[pos] == p[0] && At(s, pos + 1, p[1..])
  {
  }

  // ---------------------------------------------------------------------
  // Case

  /** Character.toUpperCase on the ASCII letters. */
  function UpperChar(c: char): char {
    if 'a' <= c <= 'z' then (c as int - 32) as char else c
  }

  /** String.toUpperCase on ASCII text. */
  function ToUpperCase(s: string): (u: string)
    ensures |u| == |s|
  {
    seq(|s|, k requires 0 <= k < |s| => UpperChar(s[k]))
  }

  /**
   * What upper-casing does to each character: a small letter becomes its capital,
   * every other character stays, and no small letter is left.
   */
  lemma UpperCaseLetters(s: string)
    ensures forall k :: 0 <= k < |s| && 'a' <= s[k] <= 'z' ==> ToUpperCase(s)[k] as int == s[k] as int - 32
    ensures forall k :: 0 <= k < |s| && !('a' <= s[k] <= 'z') ==> ToUpperCase(s)[k] == s[k]
    ensures forall k :: 0 <= k < |s| ==> !('a' <= ToUpperCase(s)[k] <= 'z')
  {
  }

  /** Upper-casing twice is upper-casing once: the mnemonic match ignores case. */
  lemma UpperCaseIdempotent(s: string)
    ensures ToUpperCase(ToUpperCase(s)) == ToUpperCase(s)
  {
  }

  /** String.equalsIgnoreCase, on ASCII text. */
  predicate EqualsIgnoreCase(a: string, b: string) {
    ToUpperCase(a) == ToUpperCase(b)
  }

  /** Two characters equal, or the small and capital form of one ASCII letter. */
  predicate SameIgnoringCase(c: char, d: char) {
    c == d || ('a' <= c <= 'z' && d as int == c as int - 32) || ('a' <= d <= 'z' && c as int == d as int - 32)
  }

  /**
   * equalsIgnoreCase compares character by character: the same length, and at each
   * position the same character or one letter in its two cases.
   */
  lemma EqualsIgnoreCaseCharwise(a: string, b: string)
    ensures EqualsIgnoreCase(a, b) <==> |a| == |b| && forall k :: 0 <= k < |a| ==> SameIgnoringCase(a[k], b[k])
  {
    var ua, ub := ToUpperCase(a), ToUpperCase(b);
    if EqualsIgnoreCase(a, b) {
      forall k | 0 <= k < |a|
        ensures SameIgnoringCase(a[k], b[k])
      {
        assert ua[k] == ub[k];
      }
    }
    if |a| == |b| && forall k :: 0 <= k < |a| ==> SameIgnoringCase(a[k], b[k]) {
      forall k | 0 <= k < |a|
        ensures ua[k] == ub[k]
      {
        assert SameIgnoringCase(a[k], b[k]);
      }
      assert ua == ub;
    }
  }
}
