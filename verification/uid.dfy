/**
 The shape of the identifiers the application generates. A fresh identifier is
 up to six characters of the base-36 text of a random number, after its leading
 "0.", then a dash, then the last six characters of the base-36 text of the
 clock. Both texts are parameters here: the model has no randomness and no clock.
 */
module QuoteIds {

  /** JavaScript's index normalisation for String.prototype.slice: a negative
      index counts from the end, and the result is clamped to [0, len]. */
  function SliceIndex(i: int, len: nat): (r: nat)
    ensures r <= len
  {
    if i < 0 then (if len + i < 0 then 0 else len + i)
    else if i > len then len
    else i
  }

  /** String.prototype.slice(start, end): the characters between the two
      normalised indices, or the empty string when they are out of order. */
  function Slice(s: string, start: int, end: int): (r: string)
    ensures |r| <= |s|
    ensures 0 <= start <= end ==> |r| <= end - start
    ensures start < 0 ==> |r| <= -start
    ensures 0 <= start <= end <= |s| ==> r == s[start..end]
    ensures -|s| <= start < 0 && end == |s| ==> r == s[|s| + start..]
    ensures start < -|s| && end == |s| ==> r == s
  {
    var from := SliceIndex(start, |s|);
    var to := SliceIndex(end, |s|);
    if from < to then s[from..to] else ""
  }

  /** The identifier built from the base-36 text of a random number and the
      base-36 text of the current time in milliseconds. */
  function Uid(randomText: string, clockText: string): (r: string)
    ensures r != ""
    ensures '-' in r
    ensures |r| <= 13
    ensures |r| == |Slice(randomText, 2, 8)| + 1 + (if |clockText| < 6 then |clockText| else 6)
    ensures r[|Slice(randomText, 2, 8)|] == '-'
    // The random part: the characters of the random text from index 2 up to 8.
    ensures |randomText| < 2 ==> r[0] == '-'
    ensures |randomText| >= 2 ==>
      r[..|Slice(randomText, 2, 8)|] == randomText[2..if |randomText| < 8 then |randomText| else 8]
    // The clock part: the last min(6, |clockText|) characters of the clock text.
    ensures r[|Slice(randomText, 2, 8)| + 1..] ==
      clockText[|clockText| - (if |clockText| < 6 then |clockText| else 6)..]
  {
    Slice(randomText, 2, 8) + "-" + Slice(clockText, -6, |clockText|)
  }
}
