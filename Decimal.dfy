/** Decimal text of integers as JavaScript prints them (`String(n)` and
    `${n}` in a template literal, for integral numbers), the
    `padStart(width, fill)` string method, and readers that take the text
    back to the number. */
module Decimal {

  import opened Wrappers

  predicate IsDigit(c: char) { '0' <= c <= '9' }

  predicate AllDigits(s: string) { forall i :: 0 <= i < |s| ==> IsDigit(s[i]) }

  function DigitChar(d: nat): (c: char)
    requires d < 10
    ensures IsDigit(c)
  {
    (48 + d) as char
  }

  function DigitValue(c: char): (d: nat)
    requires IsDigit(c)
    ensures d < 10
    ensures DigitChar(d) == c
  {
    (c as int) - 48
  }

  function Pow10(k: nat): (p: nat)
    ensures p >= 1
  {
    if k == 0 then 1 else 10 * Pow10(k - 1)
  }

  /** `String(n)` for a non-negative integer: the shortest decimal text,
      most significant digit first, no leading zero. */
  function NatToString(n: nat): (s: string)
    ensures |s| >= 1 && AllDigits(s)
    ensures (s[0] == '0') == (n == 0)
    ensures (|s| == 1) == (n < 10)
    decreases n
  {
    if n < 10 then [DigitChar(n)] else NatToString(n / 10) + [DigitChar(n % 10)]
  }

  /** `String(i)` for any integer: a minus sign before the magnitude. */
  function IntToString(i: int): (s: string)
  {
    if i < 0 then "-" + NatToString(-i) else NatToString(i)
  }

  /** The number a string of decimal digits denotes, leading zeros allowed. */
  function DigitsValue(s: string): (v: nat)
    requires AllDigits(s)
  {
    if s == [] then 0 else DigitsValue(s[..|s| - 1]) * 10 + DigitValue(s[|s| - 1])
  }

  /** The value of a digit string is below 10 to the power of its length. */
  lemma {:induction false} DigitsValueUpperBound(s: string)
    requires AllDigits(s)
    ensures DigitsValue(s) < Pow10(|s|)
  {
    if s != [] {
      DigitsValueUpperBound(s[..|s| - 1]);
    }
  }

  /** Reading the printed decimal text gives the number back. */
  lemma {:induction false} ReadNatToString(n: nat)
    ensures DigitsValue(NatToString(n)) == n
  {
    if n >= 10 {
      var s := NatToString(n);
      assert s[..|s| - 1] == NatToString(n / 10);
      ReadNatToString(n / 10);
    }
  }

  /** Printing is injective: distinct numbers have distinct decimal text. */
  lemma NatToStringInjective(m: nat, n: nat)
    requires NatToString(m) == NatToString(n)
    ensures m == n
  {
    ReadNatToString(m);
    ReadNatToString(n);
  }

  /** A digit string that does not start with '0' (or is "0") has a value at
      least the smallest number of its length. */
  lemma {:induction false} DigitsValueLowerBound(s: string)
    requires |s| >= 1 && AllDigits(s) && s[0] != '0'
    ensures DigitsValue(s) >= Pow10(|s| - 1)
  {
    if |s| > 1 {
      var u := s[..|s| - 1];
      assert u[0] == s[0];
      DigitsValueLowerBound(u);
    }
  }

  /** Printing is the inverse of reading on canonical digit strings (no
      leading zero unless the string is "0"). */
  lemma {:induction false} NatToStringOfDigitsValue(s: string)
    requires |s| >= 1 && AllDigits(s)
    requires s[0] != '0' || |s| == 1
    ensures NatToString(DigitsValue(s)) == s
  {
    var u := s[..|s| - 1];
    var c := s[|s| - 1];
    if |s| == 1 {
      assert DigitsValue(s) == DigitValue(c);
    } else {
      assert u[0] == s[0];
      assert AllDigits(u);
      DigitsValueLowerBound(u);
      var v := DigitsValue(s);
      assert v == DigitsValue(u) * 10 + DigitValue(c);
      assert v / 10 == DigitsValue(u) && v % 10 == DigitValue(c);
      NatToStringOfDigitsValue(u);
      assert s == u + [c];
    }
  }

  /** The length of the decimal text is the number of digits of the value. */
  lemma {:induction false} NatToStringLength(n: nat, k: nat)
    requires k >= 1 && n < Pow10(k)
    requires k == 1 || Pow10(k - 1) <= n
    ensures |NatToString(n)| == k
  {
    if k > 1 {
      assert Pow10(k) == 10 * Pow10(k - 1);
      if k - 1 > 1 {
        assert Pow10(k - 1) == 10 * Pow10(k - 2);
      }
      NatToStringLength(n / 10, k - 1);
    }
  }

  /** Conversely, a decimal text of k characters denotes a value between
      10^(k-1) and 10^k. */
  lemma NatToStringLengthRange(n: nat, k: nat)
    requires |NatToString(n)| == k
    ensures k >= 1 && n < Pow10(k)
    ensures k == 1 || Pow10(k - 1) <= n
  {
    ReadNatToString(n);
    DigitsValueUpperBound(NatToString(n));
    if k > 1 {
      DigitsValueLowerBound(NatToString(n));
    }
  }

  /** `s.padStart(width, fill)` with a one-character fill: text shorter than
      `width` gets fill characters in front, longer text is unchanged. */
  function PadStart(s: string, width: nat, fill: char): (r: string)
    ensures |r| == if |s| >= width then |s| else width
    ensures r[|r| - |s|..] == s
  {
    if |s| >= width then s else Repeat(fill, width - |s|) + s
  }

  /** `k` copies of `c`. */
  function Repeat(c: char, k: nat): (r: string)
    ensures |r| == k
  {
    if k == 0 then [] else [c] + Repeat(c, k - 1)
  }

  /** Everything in front of the original text is the fill character. */
  lemma PadStartFill(s: string, width: nat, fill: char, i: nat)
    requires i < |PadStart(s, width, fill)| - |s|
    ensures PadStart(s, width, fill)[i] == fill
  {
    RepeatAt(fill, width - |s|, i);
  }

  lemma {:induction false} RepeatAt(c: char, k: nat, i: nat)
    requires i < k
    ensures Repeat(c, k)[i] == c
  {
    if i > 0 {
      RepeatAt(c, k - 1, i - 1);
    }
  }

  /** Leading zeros do not change the value of a digit string. */
  lemma {:induction false} DigitsValueLeadingZero(s: string)
    requires AllDigits(s)
    ensures AllDigits(['0'] + s) && DigitsValue(['0'] + s) == DigitsValue(s)
  {
    if s != [] {
      var t := ['0'] + s;
      assert t[..|t| - 1] == ['0'] + s[..|s| - 1];
      DigitsValueLeadingZero(s[..|s| - 1]);
    }
  }

  /** Zero-padding keeps a digit string a digit string of the same value. */
  lemma {:induction false} ReadPadStart(s: string, width: nat)
    requires AllDigits(s)
    ensures AllDigits(PadStart(s, width, '0'))
    ensures DigitsValue(PadStart(s, width, '0')) == DigitsValue(s)
    decreases width
  {
    if |s| < width {
      var r := PadStart(s, width, '0');
      assert r == ['0'] + PadStart(s, width - 1, '0');
      ReadPadStart(s, width - 1);
      DigitsValueLeadingZero(PadStart(s, width - 1, '0'));
    }
  }

  /** `String(n).padStart(2, '0')`. */
  function Pad2(n: nat): string
  {
    PadStart(NatToString(n), 2, '0')
  }

  /** A value 0..9 becomes "0" and its digit; 10..99 becomes its two
      digits, unpadded; from 100 on the text is unchanged by the padding. */
  lemma Pad2Cases(n: nat)
    ensures n < 10 ==> Pad2(n) == ['0', DigitChar(n)]
    ensures 10 <= n < 100 ==> Pad2(n) == [DigitChar(n / 10), DigitChar(n % 10)]
    ensures n >= 10 ==> Pad2(n) == NatToString(n)
    ensures n < 100 ==> |Pad2(n)| == 2
  {
    if 10 <= n < 100 {
      assert NatToString(n) == NatToString(n / 10) + [DigitChar(n % 10)];
    }
  }

  /** Reading the two padded digits back gives the value. */
  lemma ReadPad2(n: nat)
    ensures AllDigits(Pad2(n)) && DigitsValue(Pad2(n)) == n
  {
    ReadPadStart(NatToString(n), 2);
    ReadNatToString(n);
  }

  /** Padding is the inverse of reading on any two-digit string. */
  lemma Pad2OfDigitsValue(t: string)
    requires |t| == 2 && AllDigits(t)
    ensures Pad2(DigitsValue(t)) == t
  {
    var v := DigitsValue(t);
    assert t[..1] == [t[0]];
    assert t[..1][..0] == [];
    assert DigitsValue(t[..1]) == DigitValue(t[0]);
    assert v == DigitValue(t[0]) * 10 + DigitValue(t[1]);
    if t[0] == '0' {
      assert v == DigitValue(t[1]);
      Pad2Cases(v);
    } else {
      NatToStringOfDigitsValue(t);
    }
  }

  // Readers for text that may continue after a number.

  /** The number of leading decimal digits of `s`. */
  function DigitRun(s: string): (k: nat)
    ensures k <= |s| && AllDigits(s[..k])
    ensures k == |s| || !IsDigit(s[k])
  {
    if s == [] || !IsDigit(s[0]) then 0
    else
      var k := 1 + DigitRun(s[1..]);
      assert s[..k] == [s[0]] + s[1..][..k - 1];
      k
  }

  /** Reads a non-empty run of digits at the front of `s`, returning its
      value and the remaining text. */
  function ReadNat(s: string): Option<(nat, string)>
  {
    var k := DigitRun(s);
    if k == 0 then None else Some((DigitsValue(s[..k]), s[k..]))
  }

  /** Reads an optionally signed integer at the front of `s`. */
  function ReadInt(s: string): Option<(int, string)>
  {
    if |s| > 0 && s[0] == '-' then
      match ReadNat(s[1..])
      case Some((v, rest)) => Some((-(v as int), rest))
      case None => None
    else
      match ReadNat(s)
      case Some((v, rest)) => Some((v as int, rest))
      case None => None
  }

  /** A digit run stops exactly where the digits stop. */
  lemma {:induction false} DigitRunOfConcat(d: string, rest: string)
    requires AllDigits(d)
    requires rest == [] || !IsDigit(rest[0])
    ensures DigitRun(d + rest) == |d|
  {
    if d != [] {
      assert (d + rest)[1..] == d[1..] + rest;
      DigitRunOfConcat(d[1..], rest);
    }
  }

  /** Printed digits in front of text that does not continue with a digit
      read back as the number and the rest of the text. */
  lemma ReadNatToStringPrefix(m: nat, rest: string)
    requires rest == [] || !IsDigit(rest[0])
    ensures ReadNat(NatToString(m) + rest) == Some((m, rest))
  {
    var d := NatToString(m);
    hide NatToString, DigitRun;
    DigitRunOfConcat(d, rest);
    ReadNatToString(m);
    assert (d + rest)[..|d|] == d && (d + rest)[|d|..] == rest;
  }

  /** Printing an integer in front of text that does not continue with a
      digit can be read back: the integer and the rest of the text. */
  lemma ReadIntToString(x: int, rest: string)
    requires rest == [] || !IsDigit(rest[0])
    ensures ReadInt(IntToString(x) + rest) == Some((x, rest))
  {
    var m: nat := if x < 0 then -x else x;
    var d := NatToString(m);
    ReadNatToStringPrefix(m, rest);
    hide NatToString, ReadNat;
    if x < 0 {
      assert IntToString(x) + rest == "-" + (d + rest);
      assert (IntToString(x) + rest)[1..] == d + rest;
    } else {
      assert IntToString(x) + rest == d + rest;
    }
  }

  /** Integer printing is injective, negative numbers included. */
  lemma IntToStringInjective(x: int, y: int)
    requires IntToString(x) == IntToString(y)
    ensures x == y
  {
    ReadIntToString(x, []);
    ReadIntToString(y, []);
    assert IntToString(x) + [] == IntToString(y) + [];
  }
}
