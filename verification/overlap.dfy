/**
 `_get_overlap_text`: the prefix that seeds the next sub-chunk after a flush.
 */
module Overlap {
  import opened Text
  import Formula

  /** Python's `s[k:]` for any integer `k`: a negative `k` counts from the end. */
  function SliceFrom(s: string, k: int): (r: string)
    ensures IsSuffix(r, s)
    ensures k >= 0 ==> |r| == (if k <= |s| then |s| - k else 0)
    ensures k < 0 ==> |r| == (if -k <= |s| then -k else |s|)
  {
    if k >= 0 then (if k <= |s| then s[k..] else [])
    else (if -k <= |s| then s[|s| + k..] else s)
  }

  /**
   The formula branch applies: the text holds a formula and the last match of
   the formula pattern ends after `len(text) - overlap_size`. The threshold is
   `overlap_size` itself, not the character count `4 * overlap_size`.
   */
  predicate FormulaNearEnd(text: string, overlapSize: int) {
    && Formula.IsFormula(text)
    && Formula.LastMatch(text).Some?
    && Formula.LastMatch(text).value.end > |text| - overlapSize
  }

  function GetOverlapText(text: string, overlapSize: int): (r: string)
    // always a suffix of the closed chunk
    ensures IsSuffix(r, text)
    // formula branch: start exactly at the last formula match, which lies whole inside r
    ensures FormulaNearEnd(text, overlapSize) ==>
      var m := Formula.LastMatch(text).value;
      |text| - |r| == m.start && r[..m.end - m.start] == text[m.start..m.end]
    // default branch: the last 4 * overlap_size characters, or the whole text when shorter
    ensures !FormulaNearEnd(text, overlapSize) && overlapSize > 0 ==>
      |r| == (if |text| <= 4 * overlapSize then |text| else 4 * overlapSize)
    // a negative overlap_size drops characters from the front instead
    ensures overlapSize < 0 ==>
      r == text[(if -4 * overlapSize <= |text| then -4 * overlapSize else |text|)..]
    // a zero overlap keeps the whole text, because text[-0:] is text[0:]
    ensures overlapSize == 0 ==> r == text
    // a non-empty text never yields an empty overlap when overlap_size >= 0
    ensures text != [] && overlapSize >= 0 ==> r != []
  {
    if FormulaNearEnd(text, overlapSize) then
      text[Formula.LastMatch(text).value.start..]
    else
      var charOverlap := overlapSize * 4;
      if |text| <= charOverlap then text
      else SliceFrom(text, -charOverlap)
  }
}
