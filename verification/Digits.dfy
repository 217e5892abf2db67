/** Positional notation, as the number writers of src/zlog/src/buf.c produce it. */
module Digits {

  /** The character of a digit below 16. */
  function DigitChar(d: nat): (c: char)
    requires d < 16
  {
    "0123456789abcdef"[d]
  }

  function DigitValue(c: char): (d: nat)
    ensures d < 16
  {
    if '0' <= c <= '9' then (c as int - '0' as int) as nat
    else if 'a' <= c <= 'f' then (c as int - 'a' as int) as nat + 10
    else 0
  }

  lemma DigitRoundTrip(d: nat)
    requires d < 16
    ensures DigitValue(DigitChar(d)) == d
    ensures DigitChar(d) == '0' <==> d == 0
  {
  }

  /** `n` in base `b`, most significant digit first and without leading zeros. */
  function Numeral(n: nat, b: nat): (s: string)
    requires b == 10 || b == 16
    ensures |s| > 0
  {
    if n < b then [DigitChar(n)] else Numeral(n / b, b) + [DigitChar(n % b)]
  }

  /** The number a digit string denotes. */
  function Value(s: string, b: nat): nat {
    if s == [] then 0 else Value(s[..|s| - 1], b) * b + DigitValue(s[|s| - 1])
  }

  lemma DivMod(n: nat, b: nat)
    requires b == 10 || b == 16
    ensures n / b * b + n % b == n
  {
  }

  /** Reading a numeral back gives the number. */
  lemma {:induction false} NumeralValue(n: nat, b: nat)
    requires b == 10 || b == 16
    ensures Value(Numeral(n, b), b) == n
  {
    var s := Numeral(n, b);
    if n < b {
      DigitRoundTrip(n);
      assert s[..0] == [];
    } else {
      NumeralValue(n / b, b);
      DigitRoundTrip(n % b);
      assert s[..|s| - 1] == Numeral(n / b, b);
      DivMod(n, b);
    }
  }

  /** Only digits, those above nine in lower case, and no zero in front. */
  lemma {:induction false} NumeralShape(n: nat, b: nat)
    requires b == 10 || b == 16
    ensures forall c :: c in Numeral(n, b) ==> '0' <= c <= '9' || (b == 16 && 'a' <= c <= 'f')
    ensures Numeral(n, b)[0] == '0' ==> n == 0 && |Numeral(n, b)| == 1
  {
    if n < b {
      DigitShape(n);
    } else {
      NumeralShape(n / b, b);
      DigitShape(n % b);
      Quotient(n, b);
      hide DigitChar;
      assert Numeral(n, b) == Numeral(n / b, b) + [DigitChar(n % b)];
    }
  }

  lemma DigitShape(d: nat)
    requires d < 16
    ensures '0' <= DigitChar(d) <= '9' || (d >= 10 && 'a' <= DigitChar(d) <= 'f')
    ensures DigitChar(d) == '0' <==> d == 0
  {
  }

  lemma Quotient(n: nat, b: nat)
    requires 0 < b <= n
    ensures n / b > 0
  {
  }

  function Zeros(n: nat): (s: string)
    ensures |s| == n && forall i :: 0 <= i < n ==> s[i] == '0'
  {
    seq(n, _ => '0')
  }

  /** A numeral padded with zeros to at least `width` characters. */
  function ZeroPadded(s: string, width: int): (r: string)
    ensures |r| == if width > |s| then width else |s|
  {
    if width > |s| then Zeros(width - |s|) + s else s
  }

  lemma {:induction false} LeadingZeros(k: nat, s: string, b: nat)
    ensures Value(Zeros(k) + s, b) == Value(s, b)
    decreases |s|, k
  {
    var z := Zeros(k) + s;
    if s == [] {
      if k > 0 {
        assert z[..|z| - 1] == Zeros(k - 1) + s;
        LeadingZeros(k - 1, s, b);
      } else {
        assert z == [];
      }
    } else {
      assert z[..|z| - 1] == Zeros(k) + s[..|s| - 1];
      LeadingZeros(k, s[..|s| - 1], b);
    }
  }

  /** Padding does not change the number. */
  lemma {:induction false} PaddedValue(n: nat, b: nat, width: int)
    requires b == 10 || b == 16
    ensures Value(ZeroPadded(Numeral(n, b), width), b) == n
  {
    NumeralValue(n, b);
    if width > |Numeral(n, b)| {
      LeadingZeros(width - |Numeral(n, b)|, Numeral(n, b), b);
    }
  }

  function Pow(b: nat, k: nat): nat {
    if k == 0 then 1 else b * Pow(b, k - 1)
  }

  /** Numbers below b^k have at most k digits. */
  lemma {:induction false} NumeralLength(n: nat, b: nat, k: nat)
    requires (b == 10 || b == 16) && 0 < k && n < Pow(b, k)
    ensures |Numeral(n, b)| <= k
    decreases k
  {
    if n >= b {
      assert Pow(b, 1) == b * Pow(b, 0) == b;
      DivBound(n, b, Pow(b, k - 1));
      NumeralLength(n / b, b, k - 1);
    }
  }

  lemma DivBound(n: nat, b: nat, m: nat)
    requires 0 < b && n < b * m
    ensures n / b < m
  {
    assert b * (n / b) <= n;
    MulLess(b, n / b, m);
  }

  lemma MulLess(b: nat, x: nat, y: nat)
    requires b * x < b * y
    ensures x < y
  {
    assert x >= y ==> b * x >= b * y;
  }

  /** Digit counts of 32-bit and 64-bit numbers; the writers' scratch arrays are that large. */
  lemma WordLengths(n: nat)
    ensures n < 0x1_0000_0000 ==> |Numeral(n, 10)| <= 10 && |Numeral(n, 16)| <= 8
    ensures n < 0x1_0000_0000_0000_0000 ==> |Numeral(n, 10)| <= 20
    ensures n < 256 ==> |Numeral(n, 16)| <= 2
    ensures n < 10000000000 ==> |Numeral(n, 10)| <= 10
  {
    assert Pow(10, 5) == 100000;
    assert Pow(10, 10) == 10000000000;
    assert Pow(10, 15) == 1000000000000000;
    assert Pow(10, 20) == 100000000000000000000;
    assert Pow(16, 2) == 256;
    assert Pow(16, 4) == 65536;
    assert Pow(16, 8) == 0x1_0000_0000;
    if n < 10000000000 { NumeralLength(n, 10, 10); }
    if n < 0x1_0000_0000 { NumeralLength(n, 16, 8); }
    if n < 0x1_0000_0000_0000_0000 { NumeralLength(n, 10, 20); }
    if n < 256 { NumeralLength(n, 16, 2); }
  }
}
