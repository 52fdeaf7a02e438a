/**
 * Python string operations the core relies on: `str(int)`, `int(str)`,
 * `str.zfill`, `str.lower`, `str.startswith`, `sep.join`, `str.split("__")`,
 * slicing with `[:n]` and `[-n:]`, and left-aligned format widths.
 */
module Text {
  import opened Wrappers

  predicate IsDigit(c: char) {
    '0' <= c <= '9'
  }

  predicate AllDigits(s: string) {
    forall i :: 0 <= i < |s| ==> IsDigit(s[i])
  }

  function DigitChar(d: nat): (c: char)
    requires d < 10
    ensures IsDigit(c) && (c as int) - ('0' as int) == d
  {
    (('0' as int) + d) as char
  }

  /** Decimal digits of `n` without leading zeros: Python's `str(n)` for `n >= 0`. */
  function NatToString(n: nat): (s: string)
    ensures |s| >= 1 && AllDigits(s)
    ensures |s| > 1 ==> s[0] != '0'
  {
    if n < 10 then [DigitChar(n)] else NatToString(n / 10) + [DigitChar(n % 10)]
  }

  /** Python's `str(i)` for an integer. */
  function IntToString(i: int): string {
    if i < 0 then "-" + NatToString(-i) else NatToString(i)
  }

  /** The number a string of decimal digits denotes (leading zeros allowed). */
  function DigitsValue(s: string): nat
    requires AllDigits(s)
  {
    if |s| == 0 then 0
    else 10 * DigitsValue(s[..|s| - 1]) + ((s[|s| - 1] as int) - ('0' as int))
  }

  /**
   * Python's `int(s)` on an optional sign followed by one or more ASCII digits;
   * `None` where Python raises ValueError.
   */
  function ParseInt(s: string): Option<int> {
    if |s| > 0 && (s[0] == '-' || s[0] == '+') then
      var rest := s[1..];
      if |rest| > 0 && AllDigits(rest) then
        var n: int := DigitsValue(rest);
        Some(if s[0] == '-' then -n else n)
      else None
    else if |s| > 0 && AllDigits(s) then Some(DigitsValue(s))
    else None
  }

  function Repeat(c: char, n: nat): (r: string)
    ensures |r| == n && forall i :: 0 <= i < n ==> r[i] == c
  {
    if n == 0 then [] else [c] + Repeat(c, n - 1)
  }

  /** Python's `s.zfill(width)`: left-pad with zeros, keeping a leading sign first. */
  function ZFill(s: string, width: int): string {
    if |s| >= width then s
    else if |s| > 0 && (s[0] == '+' || s[0] == '-') then [s[0]] + Repeat('0', width - |s|) + s[1..]
    else Repeat('0', width - |s|) + s
  }

  function LowerChar(c: char): char {
    if 'A' <= c <= 'Z' then ((c as int) + 32) as char else c
  }

  function UpperChar(c: char): char {
    if 'a' <= c <= 'z' then ((c as int) - 32) as char else c
  }

  /** `s.lower()` over ASCII letters. */
  function Lower(s: string): (r: string)
    ensures |r| == |s| && forall i :: 0 <= i < |s| ==> r[i] == LowerChar(s[i])
  {
    seq(|s|, i requires 0 <= i < |s| => LowerChar(s[i]))
  }

  predicate StartsWith(s: string, prefix: string) {
    prefix <= s
  }

  /** `sep.join(parts)`. */
  function Join(sep: string, parts: seq<string>): string {
    if |parts| == 0 then ""
    else if |parts| == 1 then parts[0]
    else parts[0] + sep + Join(sep, parts[1..])
  }

  /** `s[:n]` for `n >= 0`. */
  function Take(s: string, n: nat): (r: string)
    ensures |r| == if n <= |s| then n else |s|
    ensures r <= s
  {
    if n <= |s| then s[..n] else s
  }

  /** `s[-n:]` for `n >= 1`: the last `n` characters, or all of `s` when shorter. */
  function TakeLast(s: string, n: nat): (r: string)
    requires n >= 1
    ensures |r| == if n <= |s| then n else |s|
    ensures s == s[..|s| - |r|] + r
  {
    if n <= |s| then s[|s| - n..] else s
  }

  /** `f"{s:w}"` for a string `s`: left-aligned in a field at least `w` wide. */
  function PadRight(s: string, w: nat): (r: string)
    ensures |r| == if |s| >= w then |s| else w
    ensures s <= r
  {
    if |s| >= w then s else s + Repeat(' ', w - |s|)
  }

  predicate HasSepAt(s: string, i: nat) {
    i + 1 < |s| && s[i] == '_' && s[i + 1] == '_'
  }

  /** Index of the first "__" in `s` at or after `from`, if any. */
  function FindSep(s: string, from: nat): (r: Option<nat>)
    ensures r.Some? ==> from <= r.value && HasSepAt(s, r.value)
    ensures r.Some? ==> forall j :: from <= j < r.value ==> !HasSepAt(s, j)
    ensures r.None? ==> forall j :: from <= j < |s| ==> !HasSepAt(s, j)
    decreases |s| - from
  {
    if from + 1 >= |s| then None
    else if HasSepAt(s, from) then Some(from)
    else FindSep(s, from + 1)
  }

  /** `s.split("__")`: the separator is taken left to right without overlaps. */
  function SplitSep(s: string): (parts: seq<string>)
    ensures |parts| >= 1
    decreases |s|
  {
    match FindSep(s, 0)
    case None => [s]
    case Some(i) => [s[..i]] + SplitSep(s[i + 2..])
  }

  // ---------------------------------------------------------------------------
  // Properties

  /** `FindSep` returns the first separator at or after `from`. */
  lemma FindSepFirst(s: string, from: nat, i: nat)
    requires from <= i && HasSepAt(s, i) && forall j :: from <= j < i ==> !HasSepAt(s, j)
    ensures FindSep(s, from) == Some(i)
  {
  }

  lemma FindSepAbsent(s: string, from: nat)
    requires forall j :: from <= j < |s| ==> !HasSepAt(s, j)
    ensures FindSep(s, from) == None
  {
  }

  lemma {:induction false} DigitsValueOfString(n: nat)
    ensures DigitsValue(NatToString(n)) == n
  {
    if n >= 10 {
      var s := NatToString(n);
      assert s[..|s| - 1] == NatToString(n / 10);
      DigitsValueOfString(n / 10);
    }
  }

  /** `int(str(i)) == i`: parsing undoes printing. */
  lemma ParseIntOfString(i: int)
    ensures ParseInt(IntToString(i)) == Some(i)
  {
    var s := IntToString(i);
    if i < 0 {
      assert s[0] == '-' && s[1..] == NatToString(-i);
      DigitsValueOfString(-i);
    } else {
      assert IsDigit(s[0]);
      DigitsValueOfString(i);
    }
  }

  /** Distinct integers print differently. */
  lemma IntToStringInjective(i: int, j: int)
    requires IntToString(i) == IntToString(j)
    ensures i == j
  {
    ParseIntOfString(i);
    ParseIntOfString(j);
  }

  /** Leading zeros do not change the value of a digit string. */
  lemma {:induction false} DigitsValueLeadingZeros(k: nat, s: string)
    requires AllDigits(s)
    ensures AllDigits(Repeat('0', k) + s)
    ensures DigitsValue(Repeat('0', k) + s) == DigitsValue(s)
    decreases |s|
  {
    var t := Repeat('0', k) + s;
    if |s| == 0 {
      assert t == Repeat('0', k);
      ZerosValue(k);
    } else {
      assert t[..|t| - 1] == Repeat('0', k) + s[..|s| - 1];
      DigitsValueLeadingZeros(k, s[..|s| - 1]);
    }
  }

  lemma {:induction false} ZerosValue(k: nat)
    ensures DigitsValue(Repeat('0', k)) == 0
  {
    if k > 0 {
      var z := Repeat('0', k);
      assert z[..k - 1] == Repeat('0', k - 1);
      ZerosValue(k - 1);
    }
  }

  /** Larger numbers never have fewer digits. */
  lemma {:induction false} NatToStringLengthMonotonic(a: nat, b: nat)
    requires a <= b
    ensures |NatToString(a)| <= |NatToString(b)|
  {
    if a >= 10 {
      NatToStringLengthMonotonic(a / 10, b / 10);
    }
  }

  /** `sep.join(s.split(sep)) == s` for the separator "__". */
  lemma {:induction false} JoinSplitSep(s: string)
    ensures Join("__", SplitSep(s)) == s
    decreases |s|
  {
    match FindSep(s, 0)
    case None =>
    case Some(i) =>
      var tail := s[i + 2..];
      JoinSplitSep(tail);
      var parts := [s[..i]] + SplitSep(tail);
      assert SplitSep(s) == parts;
      assert |parts| >= 2 && parts[0] == s[..i] && parts[1..] == SplitSep(tail);
      assert Join("__", parts) == s[..i] + "__" + Join("__", SplitSep(tail));
      assert s == s[..i] + "__" + tail;
  }

  /** No part of `s.split("__")` contains the separator. */
  lemma {:induction false} SplitSepPartsHaveNoSep(s: string)
    ensures forall p, j :: p in SplitSep(s) && 0 <= j ==> !HasSepAt(p, j)
    decreases |s|
  {
    match FindSep(s, 0)
    case None =>
    case Some(i) =>
      SplitSepPartsHaveNoSep(s[i + 2..]);
      var head := s[..i];
      forall j | 0 <= j ensures !HasSepAt(head, j) {
        if HasSepAt(head, j) {
          assert HasSepAt(s, j);
        }
      }
  }
}
