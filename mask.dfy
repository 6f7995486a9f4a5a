/** Masking of secret keys for display by `config list` and `info`. */
module Mask {
  /** What a short secret is shown as. */
  const Hidden: string := "****"

  /**
   * `masked` is the display form of `s`: "****" for a secret of at most four
   * bytes; for a longer one, the same length with its first two and last two
   * bytes kept and every byte between replaced by '*'.
   */
  predicate MaskOf(s: string, masked: string) {
    if |s| <= 4 then masked == Hidden
    else
      |masked| == |s| &&
      masked[..2] == s[..2] && masked[|s| - 2..] == s[|s| - 2..] &&
      forall i :: 2 <= i < |s| - 2 ==> masked[i] == '*'
  }

  /** maskString. */
  method MaskString(s: string) returns (masked: string)
    ensures MaskOf(s, masked)
    ensures |s| > 4 ==> |masked| == |s|
  {
    if |s| <= 4 {
      return Hidden;
    }
    masked := s[..2];
    var i := 0;
    while i < |s| - 4
      invariant 0 <= i <= |s| - 4
      invariant |masked| == 2 + i && masked[..2] == s[..2]
      invariant forall k :: 2 <= k < |masked| ==> masked[k] == '*'
    {
      masked := masked + "*";
      i := i + 1;
    }
    masked := masked + s[|s| - 2..];
  }

  /**
   * The mask shows nothing of a secret but its length and its two first and
   * two last bytes: secrets agreeing on those have the same mask.
   */
  lemma MaskHidesMiddle(s: string, t: string, a: string, b: string)
    requires |s| == |t| && (|s| > 4 ==> s[..2] == t[..2] && s[|s| - 2..] == t[|t| - 2..])
    requires MaskOf(s, a) && MaskOf(t, b)
    ensures a == b
  {
    if |s| > 4 {
      forall i | 0 <= i < |s|
        ensures a[i] == b[i]
      {
        if i < 2 {
          assert a[i] == a[..2][i] && b[i] == b[..2][i];
        } else if i >= |s| - 2 {
          assert a[i] == a[|s| - 2..][i - (|s| - 2)] && b[i] == b[|s| - 2..][i - (|s| - 2)];
        }
      }
    }
  }
}
