/** Decimal text of natural numbers: Python's `str(i)` for the name suffix and
    `std::from_chars` for the size field of an archive member header. */
module Decimal {
  import opened Common

  predicate IsDigit(c: char) {
    '0' <= c <= '9'
  }

  predicate AllDigits(s: string) {
    forall i :: 0 <= i < |s| ==> IsDigit(s[i])
  }

  function DigitChar(d: nat): (c: char)
    requires d < 10
    ensures IsDigit(c) && c as int - '0' as int == d
  {
    (d + '0' as int) as char
  }

  function DigitValue(c: char): (d: nat)
    requires IsDigit(c)
    ensures d < 10 && DigitChar(d) == c
  {
    c as int - '0' as int
  }

  function Pow10(k: nat): (p: nat)
    ensures p >= 1
  {
    if k == 0 then 1 else 10 * Pow10(k - 1)
  }

  /** `str(n)` of a non-negative integer: its shortest decimal text. */
  function NatToDec(n: nat): (s: string)
    ensures 1 <= |s| && AllDigits(s)
    ensures |s| > 1 ==> s[0] != '0'
  {
    if n < 10 then [DigitChar(n)] else NatToDec(n / 10) + [DigitChar(n % 10)]
  }

  /** The value of a string of decimal digits (most significant first). */
  function DecValue(s: string): nat
    requires AllDigits(s)
  {
    if |s| == 0 then 0 else DecValue(s[..|s| - 1]) * 10 + DigitValue(s[|s| - 1])
  }

  /** Reading back the text of `n` gives `n`. */
  lemma {:induction false} DecValueOfNatToDec(n: nat)
    ensures DecValue(NatToDec(n)) == n
  {
    if n >= 10 {
      var s := NatToDec(n);
      assert s[..|s| - 1] == NatToDec(n / 10);
      DecValueOfNatToDec(n / 10);
    }
  }

  /** Different numbers have different texts, so `name_i` never repeats. */
  lemma NatToDecInjective(m: nat, n: nat)
    requires NatToDec(m) == NatToDec(n)
    ensures m == n
  {
    DecValueOfNatToDec(m);
    DecValueOfNatToDec(n);
  }

  /** A number below 10^k has at most k digits. */
  lemma {:induction false} NatToDecLength(n: nat, k: nat)
    requires 1 <= k && n < Pow10(k)
    ensures |NatToDec(n)| <= k
  {
    if n >= 10 {
      NatToDecLength(n / 10, k - 1);
    }
  }

  /** Number of leading decimal digits of `s`. */
  function DigitRun(s: string): (k: nat)
    ensures k <= |s| && AllDigits(s[..k])
    ensures k < |s| ==> !IsDigit(s[k])
  {
    if |s| == 0 || !IsDigit(s[0]) then 0
    else
      var k := 1 + DigitRun(s[1..]);
      assert s[..k] == [s[0]] + s[1..][..k - 1];
      k
  }

  /** The exclusive upper bound of a 64-bit `size_t`. */
  const SIZE_T_LIMIT: nat := 0x1_0000_0000_0000_0000

  /** `std::from_chars(first, last, size)` for a `size_t` in base 10: it reads
      the longest run of leading digits and fails when there is no leading
      digit (`invalid_argument`) or the value does not fit
      (`result_out_of_range`); no sign and no leading blank is accepted. */
  function FromChars(s: string): (r: Option<nat>)
    ensures r.Some? ==> r.value < SIZE_T_LIMIT
    ensures |s| == 0 || !IsDigit(s[0]) ==> r == None
  {
    var k := DigitRun(s);
    if k == 0 then None
    else
      var v := DecValue(s[..k]);
      if v < SIZE_T_LIMIT then Some(v) else None
  }

  /** The digit run of `NatToDec(n) + rest` is the number's text when `rest`
      does not start with a digit. */
  lemma {:induction false} DigitRunOfText(t: string, rest: string)
    requires AllDigits(t)
    requires |rest| > 0 ==> !IsDigit(rest[0])
    ensures DigitRun(t + rest) == |t|
  {
    if |t| > 0 {
      assert (t + rest)[1..] == t[1..] + rest;
      DigitRunOfText(t[1..], rest);
    } else {
      assert t + rest == rest;
    }
  }

  /** `from_chars` on any text that starts with a run of digits: it yields
      the value of the whole run when that fits in a `size_t`, and fails
      with `result_out_of_range` otherwise. */
  lemma FromCharsOfDigits(t: string, rest: string)
    requires |t| > 0 && AllDigits(t)
    requires |rest| > 0 ==> !IsDigit(rest[0])
    ensures DecValue(t) < SIZE_T_LIMIT ==> FromChars(t + rest) == Some(DecValue(t))
    ensures DecValue(t) >= SIZE_T_LIMIT ==> FromChars(t + rest) == None
  {
    DigitRunOfText(t, rest);
    assert (t + rest)[..|t|] == t;
  }

  /** `from_chars` reads back the decimal text of any `size_t`, whatever
      non-digit text follows it. */
  lemma FromCharsOfNatToDec(n: nat, rest: string)
    requires n < SIZE_T_LIMIT
    requires |rest| > 0 ==> !IsDigit(rest[0])
    ensures FromChars(NatToDec(n) + rest) == Some(n)
  {
    var t := NatToDec(n);
    DigitRunOfText(t, rest);
    assert (t + rest)[..|t|] == t;
    DecValueOfNatToDec(n);
  }
}
