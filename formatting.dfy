/** Node-name padding (prepare_workload/formatting.py). */
module Formatting {
  import opened Wrappers
  import opened Text

  /** `pad(i, p)`: `str(i)` zero-filled to the width of `str(p)`. */
  function Pad(i: int, p: int): (r: string)
    ensures |r| == Max(|IntToString(i)|, |IntToString(p)|)
  {
    ZFill(IntToString(i), |IntToString(p)|)
  }

  function Max(a: int, b: int): int {
    if a >= b then a else b
  }

  /**
   * For `i >= 0` the padding is only leading zeros: the result is some zeros
   * followed by `str(i)`, it is all digits, it parses back to `i`, and its length
   * is the larger of the two widths.
   */
  lemma PadNonNegative(i: int, p: int)
    requires i >= 0
    ensures var r := Pad(i, p);
      && |r| == Max(|IntToString(i)|, |IntToString(p)|)
      && (exists k: nat :: r == Repeat('0', k) + IntToString(i))
      && AllDigits(r)
      && ParseInt(r) == Some(i)
  {
    var k := PadZeros(i, p);
    PadShape(i, p);
    ZeroPaddedParses(k, i);
  }

  /** How many zeros `Pad` puts in front of `str(i)`. */
  function PadZeros(i: int, p: int): nat {
    if |IntToString(i)| >= |IntToString(p)| then 0 else |IntToString(p)| - |IntToString(i)|
  }

  lemma PadShape(i: int, p: int)
    requires i >= 0
    ensures Pad(i, p) == Repeat('0', PadZeros(i, p)) + NatToString(i)
  {
    var s := NatToString(i);
    assert IsDigit(s[0]);
    if PadZeros(i, p) == 0 {
      assert Repeat('0', 0) + s == s;
    }
  }

  /** Zeros followed by `str(n)` are all digits and parse back to `n`. */
  lemma ZeroPaddedParses(k: nat, n: nat)
    ensures AllDigits(Repeat('0', k) + NatToString(n))
    ensures ParseInt(Repeat('0', k) + NatToString(n)) == Some(n)
  {
    var s := NatToString(n);
    DigitsValueLeadingZeros(k, s);
    DigitsValueOfString(n);
    ParseDigits(Repeat('0', k) + s);
  }

  /** A non-empty digit string parses to its value. */
  lemma ParseDigits(r: string)
    requires |r| > 0 && AllDigits(r)
    ensures ParseInt(r) == Some(DigitsValue(r))
  {
    assert IsDigit(r[0]);
  }

  /** When `str(i)` is already at least as wide as `str(p)` it is returned unchanged. */
  lemma PadWideEnough(i: int, p: int)
    requires |IntToString(i)| >= |IntToString(p)|
    ensures Pad(i, p) == IntToString(i)
  {
  }

  /** All names padded against the same count `p` have the same width, for `0 <= i < p`. */
  lemma PadUniformWidth(i: int, j: int, p: int)
    requires 0 <= i < p && 0 <= j < p
    ensures |Pad(i, p)| == |Pad(j, p)| == |IntToString(p)|
  {
    NatToStringLengthMonotonic(i, p);
    NatToStringLengthMonotonic(j, p);
    PadNonNegative(i, p);
    PadNonNegative(j, p);
  }

  /** Different non-negative numbers padded to the same width give different names. */
  lemma PadInjective(i: int, j: int, p: int)
    requires 0 <= i && 0 <= j && Pad(i, p) == Pad(j, p)
    ensures i == j
  {
    PadNonNegative(i, p);
    PadNonNegative(j, p);
  }

  /** A negative number keeps its sign in front of the zeros, as `zfill` does. */
  lemma PadNegative(i: int, p: int)
    requires i < 0 && |IntToString(i)| < |IntToString(p)|
    ensures Pad(i, p) == "-" + Repeat('0', |IntToString(p)| - |IntToString(i)|) + NatToString(-i)
  {
    var s := IntToString(i);
    assert s[0] == '-' && s[1..] == NatToString(-i);
  }
}
