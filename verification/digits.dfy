/** Decimal digit strings: the number fields of a key (`2015`, `3`, `03`) as moment.js prints
    them and as the key regexes read them back. */
module Digits {
  import Lex

  predicate IsDigit(c: char) {
    '0' <= c <= '9'
  }

  predicate AllDigits(s: string) {
    forall i :: 0 <= i < |s| ==> IsDigit(s[i])
  }

  function DigitChar(n: nat): (c: char)
    requires n < 10
    ensures IsDigit(c)
  {
    (48 + n) as char
  }

  function DigitVal(c: char): (n: nat)
    requires IsDigit(c)
    ensures n < 10 && DigitChar(n) == c
  {
    c as int - 48
  }

  function Pow10(n: nat): (p: nat)
    ensures p >= 1
  {
    if n == 0 then 1 else 10 * Pow10(n - 1)
  }

  /** The value of a digit string (Horner's rule, least significant digit last). */
  function Value(s: string): nat
    requires AllDigits(s)
  {
    if |s| == 0 then 0 else 10 * Value(s[..|s| - 1]) + DigitVal(s[|s| - 1])
  }

  /** Decimal rendering without leading zeros (`0` is `"0"`). */
  function Digits(n: nat): (s: string)
    ensures 1 <= |s| && AllDigits(s)
  {
    if n < 10 then [DigitChar(n)] else Digits(n / 10) + [DigitChar(n % 10)]
  }

  /** Left-pads a digit rendering with `0` up to `width` characters (moment's zero fill). */
  function Pad(n: nat, width: nat): (s: string)
    ensures AllDigits(s)
    ensures |s| == if |Digits(n)| < width then width else |Digits(n)|
  {
    var d := Digits(n);
    if |d| < width then Zeros(width - |d|) + d else d
  }

  function Zeros(k: nat): (s: string)
    ensures |s| == k && AllDigits(s)
    ensures forall i :: 0 <= i < k ==> s[i] == '0'
  {
    if k == 0 then [] else Zeros(k - 1) + ['0']
  }

  lemma {:induction false} ValueBound(s: string)
    requires AllDigits(s)
    ensures Value(s) < Pow10(|s|)
    decreases |s|
  {
    if |s| > 0 {
      ValueBound(s[..|s| - 1]);
    }
  }

  /** The value of a one- or two-digit string. */
  lemma ValueShort(t: string)
    requires AllDigits(t) && 1 <= |t| <= 2
    ensures |t| == 1 ==> Value(t) == DigitVal(t[0])
    ensures |t| == 2 ==> Value(t) == 10 * DigitVal(t[0]) + DigitVal(t[1])
  {
    assert t[..|t| - 1][..0] == [];
    if |t| == 2 {
      assert t[..1] == [t[0]];
    }
  }

  lemma ValueSnoc(s: string, c: char)
    requires AllDigits(s) && IsDigit(c)
    ensures AllDigits(s + [c]) && Value(s + [c]) == 10 * Value(s) + DigitVal(c)
  {
    assert (s + [c])[..|s|] == s;
  }

  lemma {:induction false} ValueOfDigits(n: nat)
    ensures Value(Digits(n)) == n
  {
    if n >= 10 {
      ValueOfDigits(n / 10);
      ValueSnoc(Digits(n / 10), DigitChar(n % 10));
    } else {
      assert Digits(n)[..0] == [];
    }
  }

  lemma {:induction false} ValueLeadingZeros(k: nat, s: string)
    requires AllDigits(s)
    ensures AllDigits(Zeros(k) + s) && Value(Zeros(k) + s) == Value(s)
    decreases |s| + k
  {
    assert AllDigits(Zeros(k) + s);
    if |s| > 0 {
      var s', c := s[..|s| - 1], s[|s| - 1];
      assert s == s' + [c];
      assert Zeros(k) + s == (Zeros(k) + s') + [c];
      ValueLeadingZeros(k, s');
      ValueSnoc(Zeros(k) + s', c);
      ValueSnoc(s', c);
    } else if k > 0 {
      assert Zeros(k) + s == Zeros(k - 1) + ['0'];
      assert Zeros(k - 1) + ['0'] == Zeros(k - 1) + [] + ['0'];
      ValueLeadingZeros(k - 1, s);
      ValueSnoc(Zeros(k - 1), '0');
    }
  }

  /** Reading back a padded rendering gives the number. */
  lemma ValueOfPad(n: nat, width: nat)
    ensures Value(Pad(n, width)) == n
  {
    ValueOfDigits(n);
    var d := Digits(n);
    if |d| < width {
      ValueLeadingZeros(width - |d|, d);
    }
  }

  lemma {:induction false} DigitsLength(n: nat, k: nat)
    requires n < Pow10(k)
    ensures |Digits(n)| <= if k == 0 then 1 else k
  {
    if n >= 10 {
      assert Pow10(0) == 1 && Pow10(1) == 10;
      assert k >= 2;
      assert n / 10 < Pow10(k - 1);
      DigitsLength(n / 10, k - 1);
    }
  }

  /** A number below 10^width pads to exactly `width` digits. */
  lemma PadLength(n: nat, width: nat)
    requires 1 <= width && n < Pow10(width)
    ensures |Pad(n, width)| == width
  {
    DigitsLength(n, width);
  }

  /** For digit strings of equal length, string order is numeric order, and equal values
      mean equal strings. */
  lemma {:induction false} OrderIsNumeric(a: string, b: string)
    requires AllDigits(a) && AllDigits(b) && |a| == |b|
    ensures Lex.Less(a, b) <==> Value(a) < Value(b)
    ensures Value(a) == Value(b) ==> a == b
    decreases |a|
  {
    if |a| > 0 {
      var n := |a| - 1;
      var a', b' := a[..n], b[..n];
      var x, y := a[n], b[n];
      assert a == a' + [x] && b == b' + [y];
      OrderIsNumeric(a', b');
      OrderIsNumeric(b', a');
      Lex.Total(a', b');
      Lex.SplitCompare(a', [x], b', [y]);
      ValueSnoc(a', x);
      ValueSnoc(b', y);
      assert Lex.Less([x], [y]) <==> x < y;
      assert x == y <==> DigitVal(x) == DigitVal(y);
      assert x < y <==> DigitVal(x) < DigitVal(y);
    }
  }
}
