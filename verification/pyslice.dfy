/**
 * Python's slicing and substring-membership rules on sequences, as the
 * experiment driver relies on them: `s[start:]`, `s[:stop]`,
 * `k[-len(suffix):] == suffix` and `needle in hay`.
 */
module PySlice {

  function Min(a: int, b: int): int { if a <= b then a else b }

  function Max(a: int, b: int): int { if a >= b then a else b }

  /**
   * `s[start:]`: a negative start counts back from the end, and a start
   * outside the sequence is clamped to it, so the result is always a suffix.
   * Note that `-0` is `0`, so `s[-0:]` is the whole of `s`.
   */
  function SliceFrom<T>(s: seq<T>, start: int): (r: seq<T>)
    ensures |r| <= |s| && r == s[|s| - |r|..]
    ensures start < 0 ==> |r| == Min(-start, |s|)
    ensures 0 <= start ==> |r| == Max(|s| - start, 0)
  {
    var i := if start < 0 then Max(|s| + start, 0) else Min(start, |s|);
    s[i..]
  }

  /** `s[:stop]` for a non-negative stop: a prefix, clamped to the sequence. */
  function SliceTo<T>(s: seq<T>, stop: nat): (r: seq<T>)
    ensures |r| == Min(stop, |s|) && r == s[..|r|]
  {
    s[..Min(stop, |s|)]
  }

  /** The test `k[-len(suffix):] == suffix`, written with Python's slice. */
  predicate SuffixSliceMatches(k: string, suffix: string)
  {
    SliceFrom(k, -|suffix|) == suffix
  }

  /** What "k ends with suffix" means. */
  predicate EndsWith(k: string, suffix: string)
  {
    |suffix| <= |k| && k[|k| - |suffix|..] == suffix
  }

  /**
   * For a non-empty suffix the slice test is exactly "ends with", names
   * shorter than the suffix included (the clamped slice is the whole name,
   * which is too short to be equal).
   */
  lemma SuffixSliceMatchesIffEndsWith(k: string, suffix: string)
    requires suffix != []
    ensures SuffixSliceMatches(k, suffix) <==> EndsWith(k, suffix)
  {
    if |k| < |suffix| {
      assert SliceFrom(k, -|suffix|) == k;
    } else {
      assert SliceFrom(k, -|suffix|) == k[|k| - |suffix|..];
    }
  }

  /** `needle in hay` on strings, scanning the start positions left to right. */
  predicate Contains(hay: string, needle: string)
    decreases |hay|
  {
    (|needle| <= |hay| && hay[..|needle|] == needle)
    || (hay != [] && Contains(hay[1..], needle))
  }

  /** `needle` is found in `hay` at position `i`. */
  predicate OccursAt(hay: string, needle: string, i: int)
  {
    0 <= i && i + |needle| <= |hay| && hay[i..i + |needle|] == needle
  }

  /** The scan finds the needle exactly when it occurs at some position. */
  lemma {:induction false} ContainsIffOccurs(hay: string, needle: string)
    ensures Contains(hay, needle) <==> exists i :: OccursAt(hay, needle, i)
    decreases |hay|
  {
    if |needle| <= |hay| {
      assert hay[0..0 + |needle|] == hay[..|needle|];
    }
    assert OccursAt(hay, needle, 0) <==> |needle| <= |hay| && hay[..|needle|] == needle;
    if hay != [] {
      ContainsIffOccurs(hay[1..], needle);
      if exists i :: OccursAt(hay[1..], needle, i) {
        var i :| OccursAt(hay[1..], needle, i);
        assert hay[1..][i..i + |needle|] == hay[i + 1..i + 1 + |needle|];
        assert OccursAt(hay, needle, i + 1);
      }
      if exists i :: OccursAt(hay, needle, i) {
        var i :| OccursAt(hay, needle, i);
        if i != 0 {
          assert hay[1..][i - 1..i - 1 + |needle|] == hay[i..i + |needle|];
          assert OccursAt(hay[1..], needle, i - 1);
        }
      }
    }
  }
}
