/** Case-insensitive substring matching, the `icontains` lookup used by the
    search handlers. Case folding is ASCII-only: upper-case Latin letters map
    to their lower-case counterparts and every other character is kept. */
module Text {

  /** Lower-cases one character (ASCII folding). */
  function Lower(c: char): (r: char)
    ensures !('A' <= r <= 'Z')
    ensures 'A' <= c <= 'Z' ==> r as int == c as int + 32
    ensures !('A' <= c <= 'Z') ==> r == c
  {
    if 'A' <= c <= 'Z' then (c as int + 32) as char else c
  }

  /** Lower-cases a string character by character, as `str.lower` does for ASCII. */
  function LowerStr(s: string): (r: string)
    ensures |r| == |s|
    ensures forall i :: 0 <= i < |s| ==> r[i] == Lower(s[i])
    ensures forall i :: 0 <= i < |s| ==> !('A' <= r[i] <= 'Z')
    ensures forall i :: 0 <= i < |s| && !('A' <= s[i] <= 'Z') ==> r[i] == s[i]
  {
    seq(|s|, i requires 0 <= i < |s| => Lower(s[i]))
  }

  /** A lower-cased string contains no upper-case letter. */
  ghost predicate IsLowerCase(s: string)
  {
    forall i :: 0 <= i < |s| ==> !('A' <= s[i] <= 'Z')
  }

  lemma LowerStrIdempotent(s: string)
    ensures IsLowerCase(LowerStr(s))
    ensures LowerStr(LowerStr(s)) == LowerStr(s)
  {
  }

  /** `needle` occurs in `hay` starting at index `i`. */
  ghost predicate OccursAt(needle: string, hay: string, i: int)
  {
    0 <= i && i + |needle| <= |hay| && hay[i..i + |needle|] == needle
  }

  /** The reference meaning of "substring": some position where it occurs. */
  ghost predicate IsSubstring(needle: string, hay: string)
  {
    exists i :: OccursAt(needle, hay, i)
  }

  /** The meaning of `icontains`: `needle` occurs in `hay` once both are lower-cased. */
  ghost predicate MatchesIgnoringCase(hay: string, needle: string)
  {
    IsSubstring(LowerStr(needle), LowerStr(hay))
  }

  /** Executable substring test: compare at the front, else drop one character. */
  function Contains(hay: string, needle: string): bool
    decreases |hay|
  {
    if |needle| > |hay| then false
    else if hay[..|needle|] == needle then true
    else Contains(hay[1..], needle)
  }

  /** Dropping the first character shifts every occurrence one place left. */
  lemma OccursShift(needle: string, hay: string, i: nat)
    requires |hay| > 0
    ensures OccursAt(needle, hay[1..], i) <==> OccursAt(needle, hay, i + 1)
  {
  }

  /** If the first character of `needle` never appears in `hay`, `needle`
      does not occur in `hay`. */
  lemma FirstCharAbsent(needle: string, hay: string)
    requires |needle| > 0
    requires forall i :: 0 <= i < |hay| ==> hay[i] != needle[0]
    ensures !IsSubstring(needle, hay)
  {
    forall i | 0 <= i && i + |needle| <= |hay|
      ensures !OccursAt(needle, hay, i)
    {
      assert hay[i..i + |needle|][0] == hay[i];
    }
  }

  /** The executable test agrees with the reference definition on all inputs. */
  lemma {:induction false} ContainsIsSubstring(hay: string, needle: string)
    ensures Contains(hay, needle) <==> IsSubstring(needle, hay)
    decreases |hay|
  {
    var n := |needle|;
    if n > |hay| {
    } else if hay[..n] == needle {
      assert OccursAt(needle, hay, 0);
    } else {
      assert !OccursAt(needle, hay, 0) by {
        assert hay[0..n] == hay[..n];
      }
      ContainsIsSubstring(hay[1..], needle);
      if IsSubstring(needle, hay[1..]) {
        var i :| OccursAt(needle, hay[1..], i);
        OccursShift(needle, hay, i);
      }
      if IsSubstring(needle, hay) {
        var i :| OccursAt(needle, hay, i);
        OccursShift(needle, hay, i - 1);
      }
    }
  }

  /** Django's `icontains` lookup, computed by lower-casing both sides. */
  function IContains(hay: string, needle: string): (r: bool)
    ensures r <==> MatchesIgnoringCase(hay, needle)
  {
    ContainsIsSubstring(LowerStr(hay), LowerStr(needle));
    Contains(LowerStr(hay), LowerStr(needle))
  }

  /** The empty query occurs in every string, so it selects everything. */
  lemma EmptyNeedleMatches(hay: string)
    ensures IContains(hay, "")
  {
  }

  /** Matching ignores the case of both the field and the query. */
  lemma IContainsIgnoresCase(hay: string, needle: string)
    ensures IContains(hay, needle) == IContains(LowerStr(hay), LowerStr(needle))
  {
    LowerStrIdempotent(hay);
    LowerStrIdempotent(needle);
  }
}
