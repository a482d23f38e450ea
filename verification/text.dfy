/** The string operations the handlers use: `String.prototype.toLowerCase`
    (over ASCII letters) and `String.prototype.includes`. */
module Text {

  predicate IsUpper(c: char)
  {
    'A' <= c <= 'Z'
  }

  /** Lower-cases one character; only the ASCII capitals change. */
  function LowerChar(c: char): char
  {
    if IsUpper(c) then (c as int + ('a' as int - 'A' as int)) as char else c
  }

  /** `toLowerCase`, character by character: each capital becomes the
      small letter 32 code points above it, everything else is kept. */
  function Lower(s: string): (r: string)
    ensures |r| == |s|
    ensures forall i :: 0 <= i < |s| ==>
              if 'A' <= s[i] <= 'Z' then r[i] as int == s[i] as int + 32 && 'a' <= r[i] <= 'z'
              else r[i] == s[i]
  {
    seq(|s|, i requires 0 <= i < |s| => LowerChar(s[i]))
  }

  predicate HasNoUpper(s: string)
  {
    forall i :: 0 <= i < |s| ==> !IsUpper(s[i])
  }

  /** Lower-cased text has no capitals, text without capitals is left
      alone, and so lower-casing twice is lower-casing once. */
  lemma LowerIdempotent(s: string)
    ensures HasNoUpper(Lower(s))
    ensures HasNoUpper(s) ==> Lower(s) == s
    ensures Lower(Lower(s)) == Lower(s)
  {
  }

  /** `toUpperCase` over ASCII: each small letter becomes its capital. */
  function Upper(s: string): (r: string)
    ensures |r| == |s|
  {
    seq(|s|, i requires 0 <= i < |s| => if 'a' <= s[i] <= 'z' then (s[i] as int - 32) as char else s[i])
  }

  /** Case does not survive lower-casing: a text and its upper-cased form
      lower-case alike. */
  lemma LowerForgetsUpper(s: string)
    ensures Lower(Upper(s)) == Lower(s)
  {
  }

  /** Two characters are the same letter up to case: equal, or one is an
      ASCII capital and the other the small letter 32 code points above it. */
  predicate SameLetterIgnoringCase(x: char, y: char)
  {
    || x == y
    || ('A' <= x <= 'Z' && y as int == x as int + 32)
    || ('A' <= y <= 'Z' && x as int == y as int + 32)
  }

  /** Two texts agree up to the case of their ASCII letters. */
  predicate SameIgnoringCase(a: string, b: string)
  {
    |a| == |b| && forall i :: 0 <= i < |a| ==> SameLetterIgnoringCase(a[i], b[i])
  }

  /** Two texts lower-case alike exactly when they differ only in the case
      of their letters. */
  lemma {:induction false} LowerAlikeIffSameIgnoringCase(a: string, b: string)
    ensures Lower(a) == Lower(b) <==> SameIgnoringCase(a, b)
  {
    if Lower(a) == Lower(b) {
      forall i | 0 <= i < |a|
        ensures SameLetterIgnoringCase(a[i], b[i])
      {
        assert Lower(a)[i] == Lower(b)[i];
      }
    }
    if SameIgnoringCase(a, b) {
      forall i | 0 <= i < |a|
        ensures Lower(a)[i] == Lower(b)[i]
      {
        assert SameLetterIgnoringCase(a[i], b[i]);
      }
    }
  }

  /** `needle` appears in `hay` starting at position `i`. */
  predicate OccursAt(hay: string, needle: string, i: int)
  {
    0 <= i && i + |needle| <= |hay| && hay[i..i + |needle|] == needle
  }

  /** `hay.includes(needle)`: scans the start positions from left to right. */
  function Includes(hay: string, needle: string): bool
    decreases |hay|
  {
    if |needle| > |hay| then false
    else if hay[..|needle|] == needle then true
    else Includes(hay[1..], needle)
  }

  /** `includes` holds exactly when the needle occurs at some position. */
  lemma {:induction false} IncludesIffOccurs(hay: string, needle: string)
    ensures Includes(hay, needle) <==> exists i :: OccursAt(hay, needle, i)
    decreases |hay|
  {
    if |needle| > |hay| {
      assert forall i :: !OccursAt(hay, needle, i);
    } else if hay[..|needle|] == needle {
      assert OccursAt(hay, needle, 0);
    } else {
      IncludesIffOccurs(hay[1..], needle);
      forall i | OccursAt(hay[1..], needle, i)
        ensures OccursAt(hay, needle, i + 1)
      {
        assert hay[1..][i..i + |needle|] == hay[i + 1..i + 1 + |needle|];
      }
      forall i | OccursAt(hay, needle, i)
        ensures i >= 1 && OccursAt(hay[1..], needle, i - 1)
      {
        assert i != 0;
        assert hay[1..][i - 1..i - 1 + |needle|] == hay[i..i + |needle|];
      }
    }
  }

  /** Every text includes the empty string. */
  lemma IncludesEmpty(hay: string)
    ensures Includes(hay, "")
  {
  }
}
