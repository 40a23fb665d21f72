/** Case folding and substring containment, the two string primitives the
    dashboard's lookups are built from (Python's `str.lower()` and `in`). */
module Text {

  /** Folds one character the way `str.lower()` folds ASCII: A-Z become a-z,
      every other character is left alone. */
  function LowerChar(c: char): char
  {
    if 'A' <= c <= 'Z' then (c as int + 32) as char else c
  }

  /** `s.lower()`, character by character. */
  function Lower(s: string): string
  {
    seq(|s|, i requires 0 <= i < |s| => LowerChar(s[i]))
  }

  /** Lower-casing distributes over concatenation. */
  lemma LowerAppend(a: string, b: string)
    ensures Lower(a + b) == Lower(a) + Lower(b)
  {
  }

  /** Lower-casing turns each ASCII capital into the small letter at the same
      place in the alphabet, leaves no upper-case ASCII letter behind,
      changes nothing else, and is therefore idempotent. */
  lemma LowerFolds(s: string)
    ensures |Lower(s)| == |s|
    ensures forall i :: 0 <= i < |s| && 'A' <= s[i] <= 'Z' ==>
              'a' <= Lower(s)[i] <= 'z' && Lower(s)[i] as int - 'a' as int == s[i] as int - 'A' as int
    ensures forall i :: 0 <= i < |s| ==> !('A' <= Lower(s)[i] <= 'Z')
    ensures forall i :: 0 <= i < |s| && !('A' <= s[i] <= 'Z') ==> Lower(s)[i] == s[i]
    ensures Lower(Lower(s)) == Lower(s)
  {
  }

  /** Two characters that are equal, or the capital and the small form of
      one ASCII letter. */
  predicate SameLetterUpToCase(x: char, y: char)
  {
    x == y ||
    ('A' <= x <= 'Z' && 'a' <= y <= 'z' && x as int - 'A' as int == y as int - 'a' as int) ||
    ('a' <= x <= 'z' && 'A' <= y <= 'Z' && x as int - 'a' as int == y as int - 'A' as int)
  }

  /** Two strings that differ at most in the case of ASCII letters. */
  predicate SameUpToCase(a: string, b: string)
  {
    |a| == |b| && forall i :: 0 <= i < |a| ==> SameLetterUpToCase(a[i], b[i])
  }

  /** Strings that differ only in ASCII letter case lower-case alike. */
  lemma {:induction false} SameUpToCaseLowerAlike(a: string, b: string)
    requires SameUpToCase(a, b)
    ensures Lower(a) == Lower(b)
  {
    forall i | 0 <= i < |a| ensures Lower(a)[i] == Lower(b)[i] {
      assert SameLetterUpToCase(a[i], b[i]);
    }
  }

  /** The meaning of Python's `needle in hay`: `needle` occurs as a
      contiguous block somewhere in `hay` (the empty string occurs
      everywhere). */
  ghost predicate IsSubstring(needle: string, hay: string)
  {
    exists i :: OccursAt(needle, hay, i)
  }

  /** `needle` occurs in `hay` starting at position `i`. */
  ghost predicate OccursAt(needle: string, hay: string, i: int)
  {
    0 <= i && i + |needle| <= |hay| && hay[i..i + |needle|] == needle
  }

  /** Executable substring test: try every starting position from the left. */
  function Contains(needle: string, hay: string): (b: bool)
    ensures b <==> IsSubstring(needle, hay)
    decreases |hay|
  {
    if |needle| > |hay| then
      false
    else if hay[..|needle|] == needle then
      assert OccursAt(needle, hay, 0);
      true
    else
      ShiftedOccurrence(needle, hay);
      Contains(needle, hay[1..])
  }

  /** When `needle` does not start `hay`, it occurs in `hay` exactly when it
      occurs in `hay` without its first character. */
  lemma ShiftedOccurrence(needle: string, hay: string)
    requires |needle| <= |hay| && hay[..|needle|] != needle
    ensures IsSubstring(needle, hay) <==> IsSubstring(needle, hay[1..])
  {
    if IsSubstring(needle, hay) {
      var i :| OccursAt(needle, hay, i);
      assert i != 0;
      var shifted, here := hay[1..][i - 1..i - 1 + |needle|], hay[i..i + |needle|];
      forall k | 0 <= k < |needle| ensures shifted[k] == here[k] {
        assert hay[1..][i - 1 + k] == hay[i + k];
      }
      assert shifted == here;
      assert OccursAt(needle, hay[1..], i - 1);
    }
    if IsSubstring(needle, hay[1..]) {
      var j :| OccursAt(needle, hay[1..], j);
      var here, shifted := hay[j + 1..j + 1 + |needle|], hay[1..][j..j + |needle|];
      forall k | 0 <= k < |needle| ensures here[k] == shifted[k] {
        assert hay[1..][j + k] == hay[j + 1 + k];
      }
      assert here == shifted;
      assert OccursAt(needle, hay, j + 1);
    }
  }

  /** Containment is monotone in the haystack: a needle found in a part is
      found in the whole. */
  lemma ContainsInExtension(needle: string, a: string, b: string, c: string)
    requires IsSubstring(needle, b)
    ensures IsSubstring(needle, a + b + c)
  {
    var i :| OccursAt(needle, b, i);
    assert (a + b + c)[|a| + i..|a| + i + |needle|] == b[i..i + |needle|];
    assert OccursAt(needle, a + b + c, |a| + i);
  }
}
