/** Upper-case hexadecimal text as Python's `'{:0<w>X}'.format(n)` produces it
    for a non-negative n: the digits of n without leading zeros, left-padded
    with '0' to at least w characters. `ParseHex` reads such text back. */
module HexText {

  const DigitChars: string := "0123456789ABCDEF"

  predicate IsHexDigit(c: char) {
    ('0' <= c <= '9') || ('A' <= c <= 'F')
  }

  predicate IsHexText(s: string) {
    forall i :: 0 <= i < |s| ==> IsHexDigit(s[i])
  }

  function Pow16(k: nat): (r: nat)
    ensures r >= 1
  {
    if k == 0 then 1 else 16 * Pow16(k - 1)
  }

  function DigitValue(c: char): (v: nat)
    requires IsHexDigit(c)
    ensures v < 16
  {
    if '0' <= c <= '9' then (c - '0') as nat else (c - 'A') as nat + 10
  }

  function DigitChar(d: nat): (c: char)
    requires d < 16
    ensures IsHexDigit(c) && DigitValue(c) == d
  {
    DigitChars[d]
  }

  /** The digits of n, most significant first, with no leading zero
      ("0" for zero). */
  function Digits(n: nat): (s: string)
    ensures 1 <= |s| && IsHexText(s)
    ensures s[0] == '0' <==> n == 0
  {
    if n < 16 then [DigitChar(n)]
    else
      var s := Digits(n / 16) + [DigitChar(n % 16)];
      assert s[0] == Digits(n / 16)[0];
      s
  }

  function Zeros(k: nat): (s: string)
    ensures |s| == k && IsHexText(s)
    ensures forall i :: 0 <= i < k ==> s[i] == '0'
  {
    if k == 0 then [] else Zeros(k - 1) + ['0']
  }

  /** The value of hexadecimal text, most significant digit first. */
  function ParseHex(s: string): nat
    requires IsHexText(s)
  {
    if |s| == 0 then 0 else 16 * ParseHex(s[..|s| - 1]) + DigitValue(s[|s| - 1])
  }

  /** What `'{:0<width>X}'.format(n)` promises of its text s: hex digits
      that read back as n, at least one and at least `width` of them, and
      no leading '0' beyond the padding up to `width` (a lone "0" aside). */
  predicate Formats(s: string, n: nat, width: nat) {
    && IsHexText(s) && ParseHex(s) == n
    && |s| >= 1 && |s| >= width
    && (|s| > width && |s| > 1 ==> s[0] != '0')
  }

  /** `'{:0<width>X}'.format(n)`: the one text that formats n at that width
      (see HexUnique), exactly `width` long when n < 16^width. */
  function Hex(n: nat, width: nat): (s: string)
    ensures Formats(s, n, width)
    ensures 1 <= width && n < Pow16(width) ==> |s| == width
  {
    var d := Digits(n);
    var pad := if |d| < width then width - |d| else 0;
    ParseDigits(n);
    ParseLeadingZeros(pad, d);
    DigitsFit(n, width);
    assert pad == 0 ==> Zeros(pad) + d == d;
    Zeros(pad) + d
  }

  /** Text that formats n at a width is the text `Hex` gives: the contract
      of `Hex` leaves it no choice. */
  lemma HexUnique(t: string, n: nat, width: nat)
    requires Formats(t, n, width)
    ensures t == Hex(n, width)
  {
    var s := Hex(n, width);
    FormatsSameLength(s, t, n, width);
    ParseInjective(s, t);
  }

  /** Two texts that format the same n at the same width are equally long:
      the longer one, having no leading '0', would read as at least 16^k
      while the shorter one of k digits reads as less. */
  lemma FormatsSameLength(s: string, t: string, n: nat, width: nat)
    requires Formats(s, n, width) && Formats(t, n, width)
    ensures |s| == |t|
  {
    if |s| < |t| {
      ParseBelow(s);
      ParseAtLeast(t);
      PowMonotone(|s|, |t| - 1);
      assert false;
    } else if |t| < |s| {
      ParseBelow(t);
      ParseAtLeast(s);
      PowMonotone(|t|, |s| - 1);
      assert false;
    }
  }

  /** Text of k digits reads as a value below 16^k. */
  lemma {:induction false} ParseBelow(s: string)
    requires IsHexText(s)
    ensures ParseHex(s) < Pow16(|s|)
  {
    if |s| > 0 {
      var init := s[..|s| - 1];
      ParseBelow(init);
      assert ParseHex(s) <= 16 * (Pow16(|init|) - 1) + 15;
    }
  }

  /** Text of k digits that starts with a digit other than '0' reads as a
      value of at least 16^(k-1). */
  lemma {:induction false} ParseAtLeast(s: string)
    requires IsHexText(s) && |s| >= 1 && s[0] != '0'
    ensures ParseHex(s) >= Pow16(|s| - 1)
  {
    var init := s[..|s| - 1];
    if |s| == 1 {
      assert init == [];
    } else {
      assert init[0] == s[0];
      ParseAtLeast(init);
    }
  }

  /** Equally long texts with the same value are the same text. */
  lemma {:induction false} ParseInjective(s: string, t: string)
    requires IsHexText(s) && IsHexText(t) && |s| == |t|
    requires ParseHex(s) == ParseHex(t)
    ensures s == t
  {
    if |s| > 0 {
      var k := |s| - 1;
      ParseLast(s);
      ParseLast(t);
      DigitValueInjective(s[k], t[k]);
      ParseInjective(s[..k], t[..k]);
      assert s == s[..k] + [s[k]] && t == t[..k] + [t[k]];
    }
  }

  /** The last digit of hex text is its value mod 16, the rest its value
      div 16. */
  lemma ParseLast(s: string)
    requires IsHexText(s) && |s| > 0
    ensures ParseHex(s) % 16 == DigitValue(s[|s| - 1])
    ensures ParseHex(s) / 16 == ParseHex(s[..|s| - 1])
  {
    DivMod16(ParseHex(s[..|s| - 1]), DigitValue(s[|s| - 1]));
  }

  lemma DivMod16(q: nat, d: nat)
    requires d < 16
    ensures (16 * q + d) % 16 == d && (16 * q + d) / 16 == q
  {
  }

  /** Distinct hex digits have distinct values. */
  lemma DigitValueInjective(c: char, e: char)
    requires IsHexDigit(c) && IsHexDigit(e) && DigitValue(c) == DigitValue(e)
    ensures c == e
  {
  }

  lemma {:induction false} PowMonotone(a: nat, b: nat)
    requires a <= b
    ensures Pow16(a) <= Pow16(b)
  {
    if a < b {
      PowMonotone(a, b - 1);
    }
  }

  /** Reading back the digits of n gives n. */
  lemma {:induction false} ParseDigits(n: nat)
    ensures ParseHex(Digits(n)) == n
  {
    if n >= 16 {
      ParseDigits(n / 16);
      var s := Digits(n);
      assert s[..|s| - 1] == Digits(n / 16);
    }
  }

  /** Leading zeros do not change the value read. */
  lemma {:induction false} ParseLeadingZeros(k: nat, t: string)
    requires IsHexText(t)
    ensures IsHexText(Zeros(k) + t)
    ensures ParseHex(Zeros(k) + t) == ParseHex(t)
  {
    var s := Zeros(k) + t;
    if |t| == 0 {
      assert s == Zeros(k);
      ParseZeros(k);
    } else {
      ParseLeadingZeros(k, t[..|t| - 1]);
      assert s[..|s| - 1] == Zeros(k) + t[..|t| - 1];
      assert s[|s| - 1] == t[|t| - 1];
    }
  }

  lemma {:induction false} ParseZeros(k: nat)
    ensures ParseHex(Zeros(k)) == 0
  {
    if k > 0 {
      ParseZeros(k - 1);
      assert Zeros(k)[..k - 1] == Zeros(k - 1);
    }
  }

  lemma DigitsFit(n: nat, w: nat)
    ensures 1 <= w && n < Pow16(w) ==> |Digits(n)| <= w
  {
    if 1 <= w && n < Pow16(w) {
      DigitsLength(n, w);
    }
  }

  /** A value below 16^w needs at most w digits. */
  lemma {:induction false} DigitsLength(n: nat, w: nat)
    requires 1 <= w && n < Pow16(w)
    ensures |Digits(n)| <= w
  {
    if n >= 16 {
      assert Pow16(1) == 16;
      assert w >= 2;
      DigitsLength(n / 16, w - 1);
    }
  }
}
