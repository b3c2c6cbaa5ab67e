/**
 * `color2Hex` of components/landing/VantaTrunkBackground.tsx: a colour held as
 * a number (0xRRGGBB) becomes the CSS string "#" followed by its base-16
 * digits in lower case, left-padded with '0' to at least six digits
 * (`"#" + color.toString(16).padStart(6, "0")`). Colours are natural numbers.
 */
module VantaColor {

  predicate IsLowerHexDigit(c: char) {
    '0' <= c <= '9' || 'a' <= c <= 'f'
  }

  predicate AllLowerHex(s: string) {
    forall k :: 0 <= k < |s| ==> IsLowerHexDigit(s[k])
  }

  /** The digit `Number.prototype.toString(16)` writes for `d`. */
  function DigitChar(d: nat): (c: char)
    requires d < 16
    ensures IsLowerHexDigit(c)
  {
    if d < 10 then ('0' as int + d) as char else ('a' as int + d - 10) as char
  }

  lemma DigitValueOfChar(d: nat)
    requires d < 16
    ensures DigitValue(DigitChar(d)) == d
  {
  }

  /** The value of a lower-case hexadecimal digit. */
  function DigitValue(c: char): (d: nat)
    requires IsLowerHexDigit(c)
    ensures d < 16
    ensures DigitChar(d) == c
  {
    if c <= '9' then c as int - '0' as int else c as int - 'a' as int + 10
  }

  function Pow16(k: nat): (p: nat)
    ensures p >= 1
  {
    if k == 0 then 1 else 16 * Pow16(k - 1)
  }

  /** `n.toString(16)`: the base-16 digits of `n`, most significant first, "0" for zero. */
  function ToHexString(n: nat): (r: string)
    ensures |r| >= 1 && AllLowerHex(r)
    ensures |r| > 1 ==> r[0] != '0'
    decreases n
  {
    if n < 16 then [DigitChar(n)] else ToHexString(n / 16) + [DigitChar(n % 16)]
  }

  /** The number a string of lower-case hexadecimal digits denotes (leading zeros allowed). */
  function ParseHex(s: string): (n: nat)
    requires AllLowerHex(s)
    ensures n < Pow16(|s|)
  {
    if |s| == 0 then 0 else ParseHex(s[..|s| - 1]) * 16 + DigitValue(s[|s| - 1])
  }

  /** `count` copies of `c`. */
  function Repeat(c: char, count: nat): (r: string)
    ensures |r| == count && forall k :: 0 <= k < count ==> r[k] == c
  {
    if count == 0 then [] else [c] + Repeat(c, count - 1)
  }

  /** JavaScript's `s.padStart(width, fill)` for a one-character `fill`. */
  function PadStart(s: string, width: nat, fill: char): (r: string)
    ensures |r| == if |s| >= width then |s| else width
    ensures r[|r| - |s|..] == s
    ensures forall k :: 0 <= k < |r| - |s| ==> r[k] == fill
  {
    if |s| >= width then s else Repeat(fill, width - |s|) + s
  }

  /** `color2Hex(color)` (components/landing/VantaTrunkBackground.tsx:15-17). */
  function Color2Hex(color: nat): (r: string)
    ensures |r| >= 7 && r[0] == '#' && AllLowerHex(r[1..])
  {
    "#" + PadStart(ToHexString(color), 6, '0')
  }

  /** Reading the digits of `n.toString(16)` back gives `n`. */
  lemma {:induction false} ParseToHex(n: nat)
    ensures ParseHex(ToHexString(n)) == n
    decreases n
  {
    var s := ToHexString(n);
    DigitValueOfChar(n % 16);
    if n >= 16 {
      ParseToHex(n / 16);
      assert s[..|s| - 1] == ToHexString(n / 16);
    }
  }

  /** The strings `toString(16)` can produce: non-empty lower-case digits without a leading zero. */
  predicate IsCanonicalHex(s: string) {
    |s| >= 1 && AllLowerHex(s) && (|s| > 1 ==> s[0] != '0')
  }

  /** A canonical string of two or more digits denotes at least 16. */
  lemma {:induction false} ParseCanonicalAtLeast(s: string)
    requires IsCanonicalHex(s) && |s| > 1
    ensures ParseHex(s) >= 16
    decreases |s|
  {
    var init := s[..|s| - 1];
    if |init| > 1 {
      ParseCanonicalAtLeast(init);
    } else {
      assert init[0] == s[0] != '0';
    }
  }

  /** The other direction: a canonical digit string is what `toString(16)` gives for its value. */
  lemma {:induction false} ToHexParse(s: string)
    requires IsCanonicalHex(s)
    ensures ToHexString(ParseHex(s)) == s
    decreases |s|
  {
    var n := ParseHex(s);
    var init, last := s[..|s| - 1], s[|s| - 1];
    assert n == ParseHex(init) * 16 + DigitValue(last);
    if |s| == 1 {
      assert ParseHex(init) == 0;
      assert ToHexString(n) == [DigitChar(DigitValue(last))] == s;
    } else {
      assert init[0] == s[0];
      ParseCanonicalAtLeast(s);
      ToHexParse(init);
      DivMod16(ParseHex(init), DigitValue(last));
      assert ToHexString(n) == init + [last] == s;
    }
  }

  lemma DivMod16(q: nat, d: nat)
    requires d < 16
    ensures (q * 16 + d) / 16 == q && (q * 16 + d) % 16 == d
  {
  }

  /** A leading '0' does not change the value. */
  lemma {:induction false} ParseZeroPrefix(s: string)
    requires AllLowerHex(s)
    ensures ParseHex(['0'] + s) == ParseHex(s)
    decreases |s|
  {
    var t := ['0'] + s;
    if |s| > 0 {
      assert t[..|t| - 1] == ['0'] + s[..|s| - 1];
      ParseZeroPrefix(s[..|s| - 1]);
    }
  }

  /** Any number of leading '0's does not change the value. */
  lemma {:induction false} ParseZerosPrefix(count: nat, s: string)
    requires AllLowerHex(s)
    ensures AllLowerHex(Repeat('0', count) + s)
    ensures ParseHex(Repeat('0', count) + s) == ParseHex(s)
    decreases count
  {
    if count > 0 {
      ParseZerosPrefix(count - 1, s);
      assert Repeat('0', count) + s == ['0'] + (Repeat('0', count - 1) + s);
      ParseZeroPrefix(Repeat('0', count - 1) + s);
    } else {
      assert Repeat('0', count) + s == s;
    }
  }

  /** Parsing the digits after '#' gives the colour back. */
  lemma Color2HexRoundTrip(color: nat)
    ensures ParseHex(Color2Hex(color)[1..]) == color
  {
    var h := ToHexString(color);
    var digits := Color2Hex(color)[1..];
    assert digits == PadStart(h, 6, '0');
    if |h| < 6 {
      ParseZerosPrefix(6 - |h|, h);
    }
    ParseToHex(color);
  }

  /** Distinct colours give distinct strings. */
  lemma Color2HexInjective(a: nat, b: nat)
    requires Color2Hex(a) == Color2Hex(b)
    ensures a == b
  {
    Color2HexRoundTrip(a);
    Color2HexRoundTrip(b);
  }

  /** `n.toString(16)` has at most `k` digits exactly when `n < 16^k`. */
  lemma {:induction false} ToHexLength(n: nat, k: nat)
    requires k >= 1
    ensures |ToHexString(n)| <= k <==> n < Pow16(k)
    decreases n
  {
    if n >= 16 {
      if k == 1 {
        assert |ToHexString(n)| >= 2;
      } else {
        ToHexLength(n / 16, k - 1);
      }
    }
  }

  lemma Pow16Six()
    ensures Pow16(6) == 0x1000000
  {
    assert Pow16(2) == 0x100;
    assert Pow16(4) == 0x10000;
  }

  /** Below 0x1000000 the string is '#' and six digits; from there on it is '#' and the digits of the colour. */
  lemma Color2HexLength(color: nat)
    ensures color < 0x1000000 ==> |Color2Hex(color)| == 7
    ensures color >= 0x1000000 ==> Color2Hex(color) == "#" + ToHexString(color)
    ensures color >= 0x1000000 ==> var k := |Color2Hex(color)| - 1;
      k > 6 && Pow16(k - 1) <= color < Pow16(k)
  {
    var h := ToHexString(color);
    Pow16Six();
    ToHexLength(color, 6);
    if color >= 0x1000000 {
      ToHexLength(color, |h|);
      ToHexLength(color, |h| - 1);
    }
  }

  /** The number of hexadecimal digits: the string has `k + 1` characters when `16^(k-1) <= color < 16^k`. */
  lemma Color2HexDigitCount(color: nat, k: nat)
    requires 6 < k && Pow16(k - 1) <= color < Pow16(k)
    ensures |Color2Hex(color)| == 1 + k
  {
    ToHexLength(color, k);
    ToHexLength(color, k - 1);
  }

  /** Appending digit `d` to the digits of a non-zero `q` gives the digits of `q * 16 + d`. */
  lemma ToHexAppend(q: nat, d: nat)
    requires 0 < q && d < 16
    ensures ToHexString(q * 16 + d) == ToHexString(q) + [DigitChar(d)]
  {
    DivMod16(q, d);
  }

  /** Once `toString(16)` has six digits or more, no padding is added. */
  lemma Color2HexUnpadded(color: nat)
    requires |ToHexString(color)| >= 6
    ensures Color2Hex(color) == "#" + ToHexString(color)
  {
  }

  /** Zero is padded to six zeros. */
  lemma Color2HexZero()
    ensures Color2Hex(0) == "#000000"
  {
    assert ToHexString(0) == "0";
    assert Repeat('0', 5) == "00000";
  }

  lemma ToHexDefaultColor()
    ensures ToHexString(0x3366bf) == "3366bf"
  {
    assert ToHexString(0x3) == "3";
    ToHexAppend(0x3, 3);
    ToHexAppend(0x33, 6);
    ToHexAppend(0x336, 6);
    ToHexAppend(0x3366, 11);
    ToHexAppend(0x3366b, 15);
  }

  lemma ToHexDefaultBackground()
    ensures ToHexString(0xffffff) == "ffffff"
  {
    assert ToHexString(0xf) == "f";
    ToHexAppend(0xf, 15);
    ToHexAppend(0xff, 15);
    ToHexAppend(0xfff, 15);
    ToHexAppend(0xffff, 15);
    ToHexAppend(0xfffff, 15);
  }

  /** The component's default foreground colour (VantaTrunkBackground.tsx:27). */
  lemma Color2HexDefaultColor()
    ensures Color2Hex(0x3366bf) == "#3366bf"
  {
    ToHexDefaultColor();
    Color2HexUnpadded(0x3366bf);
    assert "#" + "3366bf" == "#3366bf";
  }

  /** The component's default background colour (VantaTrunkBackground.tsx:28). */
  lemma Color2HexDefaultBackground()
    ensures Color2Hex(0xffffff) == "#ffffff"
  {
    ToHexDefaultBackground();
    Color2HexUnpadded(0xffffff);
    assert "#" + "ffffff" == "#ffffff";
  }
}
