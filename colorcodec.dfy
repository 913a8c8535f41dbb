/**
  The colour strings of the effect-parameter widgets
  (src/effectstack/widgets/choosecolorwidget.cpp): `stringToColor` reads
  `0xRRGGBBAA`, `#AARRGGBB` or a name, and `colorToString` always writes
  `0xRRGGBBAA` in lower-case hex, the form the media framework expects.

  The toolkit's colour-name parser (`setNamedColor`) is not part of this
  model: it is passed in as a function `named`.
*/
module ColorCodec {

  /** A colour component, 0 .. 255. */
  type Byte = n: int | 0 <= n < 256

  datatype Color = Color(red: Byte, green: Byte, blue: Byte, alpha: Byte)

  // ---------------------------------------------------------------------
  // Hexadecimal digits and numbers
  // ---------------------------------------------------------------------

  predicate IsHexDigit(c: char)
  {
    '0' <= c <= '9' || 'a' <= c <= 'f' || 'A' <= c <= 'F'
  }

  predicate IsLowerHexDigit(c: char)
  {
    '0' <= c <= '9' || 'a' <= c <= 'f'
  }

  predicate AllHex(s: string)
  {
    forall i :: 0 <= i < |s| ==> IsHexDigit(s[i])
  }

  predicate AllLowerHex(s: string)
  {
    forall i :: 0 <= i < |s| ==> IsLowerHexDigit(s[i])
  }

  function DigitValue(c: char): (v: nat)
    requires IsHexDigit(c)
    ensures v < 16
  {
    if '0' <= c <= '9' then c as int - '0' as int
    else if 'a' <= c <= 'f' then c as int - 'a' as int + 10
    else c as int - 'A' as int + 10
  }

  /** The lower-case digit of a value below 16. */
  function HexDigit(v: nat): (c: char)
    requires v < 16
    ensures IsLowerHexDigit(c) && DigitValue(c) == v
  {
    if v < 10 then (v + '0' as int) as char else (v - 10 + 'a' as int) as char
  }

  function Pow16(n: nat): (p: nat)
    ensures p >= 1
  {
    if n == 0 then 1 else 16 * Pow16(n - 1)
  }

  /** The value of a string of hex digits, most significant first. */
  function HexValue(s: string): (v: nat)
    requires AllHex(s)
    ensures v < Pow16(|s|)
  {
    if s == [] then 0 else HexValue(s[..|s| - 1]) * 16 + DigitValue(s[|s| - 1])
  }

  /** Appending one digit to `h` digits scaled by `p`, plus `v`, is scaling
      `h` by `16 * p` and appending the digit to `v`. */
  lemma ShiftDigits(x: int, y: int, h: int, q: int, p: int, v: int, d: int)
    requires x == (h * p + v) * 16 + d && y == v * 16 + d && q == 16 * p
    ensures x == h * q + y
  {
    calc {
      x;
      h * (p * 16) + (v * 16 + d);
      { assert p * 16 == q; }
      h * q + y;
    }
  }

  /** The last digit of `a + b` is the last digit of `b`, and the digits
      before it are `a` followed by the digits of `b` before its last. */
  lemma {:induction false} HexValueLast(a: string, b: string)
    requires AllHex(a) && AllHex(b) && |b| > 0
    ensures AllHex(a + b) && AllHex(b[..|b| - 1])
    ensures HexValue(a + b) == HexValue(a + b[..|b| - 1]) * 16 + DigitValue(b[|b| - 1])
  {
    assert (a + b)[..|a + b| - 1] == a + b[..|b| - 1];
    assert (a + b)[|a + b| - 1] == b[|b| - 1];
  }

  lemma {:induction false} HexValueConcat(a: string, b: string)
    requires AllHex(a) && AllHex(b)
    ensures AllHex(a + b)
    ensures HexValue(a + b) == HexValue(a) * Pow16(|b|) + HexValue(b)
  {
    if b == [] {
      assert a + b == a;
    } else {
      var b' := b[..|b| - 1];
      HexValueLast(a, b);
      HexValueConcat(a, b');
      ShiftDigits(HexValue(a + b), HexValue(b), HexValue(a), Pow16(|b|), Pow16(|b'|),
                  HexValue(b'), DigitValue(b[|b| - 1]));
    }
  }

  /** The digits of `v` in base 16, lower case, without leading zeros. */
  function ToHex(v: nat): (d: string)
    ensures 1 <= |d| && AllLowerHex(d) && AllHex(d)
    ensures HexValue(d) == v
    ensures v < 16 ==> |d| == 1
    ensures v < 256 ==> |d| <= 2
  {
    if v < 16 then
      [HexDigit(v)]
    else
      var d := ToHex(v / 16) + [HexDigit(v % 16)];
      assert d[..|d| - 1] == ToHex(v / 16);
      d
  }

  // ---------------------------------------------------------------------
  // QString::toUInt(&ok, 16), the int it is stored in, and the shifts
  // ---------------------------------------------------------------------

  const UIntLimit: nat := 0x1_0000_0000

  /** The digits of a base-16 number text: the text after an optional `0x`
      or `0X` prefix. */
  function HexBody(s: string): (d: string)
    ensures |d| <= |s| && s[|s| - |d|..] == d
    ensures |s| >= 2 && s[0] == '0' && (s[1] == 'x' || s[1] == 'X') ==> |d| == |s| - 2
    ensures !(|s| >= 2 && s[0] == '0' && (s[1] == 'x' || s[1] == 'X')) ==> d == s
  {
    if |s| >= 2 && s[0] == '0' && (s[1] == 'x' || s[1] == 'X') then s[2..] else s
  }

  /** `toUInt(&ok, 16)`: the value of the digits when they are all hex and
      fit in 32 bits, and 0 otherwise. */
  function ToUInt(s: string): (v: nat)
    ensures v < UIntLimit
    ensures v != 0 ==> AllHex(HexBody(s)) && v == HexValue(HexBody(s))
    ensures |HexBody(s)| == 0 || !AllHex(HexBody(s)) ==> v == 0
    ensures 0 < |HexBody(s)| && AllHex(HexBody(s)) && HexValue(HexBody(s)) < UIntLimit ==>
      v == HexValue(HexBody(s))
    ensures AllHex(HexBody(s)) && HexValue(HexBody(s)) >= UIntLimit ==> v == 0
  {
    var d := HexBody(s);
    if |d| > 0 && AllHex(d) && HexValue(d) < UIntLimit then HexValue(d) else 0
  }

  /** Eight hex digits after `0x` always fit, so they are read exactly. */
  lemma ToUIntEightDigits(d: string)
    requires |d| == 8 && AllHex(d)
    ensures ToUInt("0x" + d) == HexValue(d)
  {
    assert HexBody("0x" + d) == d;
    assert Pow16(8) == UIntLimit;
  }

  /** `int intval = toUInt(...)`: the unsigned 32-bit value kept in a signed
      32-bit int, two's complement. */
  function ToInt32(u: nat): (i: int)
    requires u < UIntLimit
    ensures -0x8000_0000 <= i < 0x8000_0000
    ensures i % UIntLimit == u
  {
    if u < 0x8000_0000 then u else u - UIntLimit
  }

  /** `(v >> n) & 0xff` with `unit` = 2^n: an arithmetic right shift of a
      two's-complement int is division rounding down, which is Dafny's `/`
      for a positive divisor, and the mask keeps the remainder modulo 256. */
  function ShiftMask(v: int, unit: nat): (b: Byte)
    requires unit > 0
    ensures v == (v / unit / 256) * (256 * unit) + b * unit + v % unit
  {
    var q := v / unit;
    var b := q % 256;
    ByteAt(v, unit, q, q / 256, b);
    b
  }

  /** Splitting `v` at `unit` and then the quotient at 256 writes `v` with
      the byte `b` in the place of `unit`. */
  lemma ByteAt(v: int, unit: nat, q: int, h: int, b: int)
    requires unit > 0 && v == q * unit + v % unit && q == h * 256 + b
    ensures v == h * (256 * unit) + b * unit + v % unit
  {
    calc {
      v;
      q * unit + v % unit;
      (h * 256 + b) * unit + v % unit;
      { assert (h * 256 + b) * unit == h * (256 * unit) + b * unit; }
      h * (256 * unit) + b * unit + v % unit;
    }
  }

  /** Bytes 3, 2, 1, 0 of `intval` as red, green, blue, alpha (`0xRRGGBBAA`). */
  function DecodeRgba(intval: int): (c: Color)
    ensures -0x8000_0000 <= intval < 0x8000_0000 ==>
      c.red * 0x100_0000 + c.green * 0x1_0000 + c.blue * 0x100 + c.alpha == intval % UIntLimit
  {
    Int32Bytes(intval);
    Color(ShiftMask(intval, 0x100_0000), ShiftMask(intval, 0x1_0000),
          ShiftMask(intval, 0x100), ShiftMask(intval, 1))
  }

  /** Bytes 2, 1, 0 as red, green, blue and byte 3 as alpha (`#AARRGGBB`). */
  function DecodeArgb(intval: int): (c: Color)
    ensures -0x8000_0000 <= intval < 0x8000_0000 ==>
      c.alpha * 0x100_0000 + c.red * 0x1_0000 + c.green * 0x100 + c.blue == intval % UIntLimit
  {
    Int32Bytes(intval);
    Color(ShiftMask(intval, 0x1_0000), ShiftMask(intval, 0x100),
          ShiftMask(intval, 1), ShiftMask(intval, 0x100_0000))
  }

  /** Shifting and masking the signed int recovers the four bytes of the
      unsigned value it was stored from, whether or not the top bit is set. */
  lemma BytesOfInt32(b3: Byte, b2: Byte, b1: Byte, b0: Byte)
    ensures var i := ToInt32(b3 * 0x100_0000 + b2 * 0x1_0000 + b1 * 0x100 + b0);
      ShiftMask(i, 0x100_0000) == b3 && ShiftMask(i, 0x1_0000) == b2 &&
      ShiftMask(i, 0x100) == b1 && ShiftMask(i, 1) == b0
  {
    var u := b3 * 0x100_0000 + b2 * 0x1_0000 + b1 * 0x100 + b0;
    var top := if u < 0x8000_0000 then b3 else b3 - 256;
    var i := ToInt32(u);
    assert i == top * 0x100_0000 + b2 * 0x1_0000 + b1 * 0x100 + b0;
    assert i / 0x100_0000 == top;
    assert i / 0x1_0000 == top * 256 + b2;
    assert i / 0x100 == (top * 256 + b2) * 256 + b1;
  }

  /** The four bytes of a 32-bit value, top byte first. */
  lemma SplitBytes(u: nat) returns (b3: Byte, b2: Byte, b1: Byte, b0: Byte)
    requires u < UIntLimit
    ensures u == b3 * 0x100_0000 + b2 * 0x1_0000 + b1 * 0x100 + b0
  {
    var q0 := u / 256;
    b0 := u % 256;
    var q1 := q0 / 256;
    b1 := q0 % 256;
    b3 := q1 / 256;
    b2 := q1 % 256;
  }

  /** The four bytes a signed 32-bit int is shifted and masked into make up
      the unsigned value it holds. */
  lemma Int32Bytes(i: int)
    ensures -0x8000_0000 <= i < 0x8000_0000 ==>
      ShiftMask(i, 0x100_0000) * 0x100_0000 + ShiftMask(i, 0x1_0000) * 0x1_0000 +
      ShiftMask(i, 0x100) * 0x100 + ShiftMask(i, 1) == i % UIntLimit
  {
    if -0x8000_0000 <= i < 0x8000_0000 {
      var u := i % UIntLimit;
      assert ToInt32(u) == i;
      var b3, b2, b1, b0 := SplitBytes(u);
      BytesOfInt32(b3, b2, b1, b0);
    }
  }

  // ---------------------------------------------------------------------
  // stringToColor
  // ---------------------------------------------------------------------

  predicate StartsWithZeroX(s: string)
  {
    |s| >= 2 && s[0] == '0' && s[1] == 'x'
  }

  /** `QString::replace('#', "0x")`: every `#` becomes `0x`. */
  function ReplaceHash(s: string): (t: string)
    ensures '#' !in s ==> t == s
    ensures |s| > 0 && s[0] == '#' && '#' !in s[1..] ==> t == "0x" + s[1..]
    ensures '#' !in t
    ensures |s| == 1 ==> t == if s[0] == '#' then "0x" else s
  {
    if s == [] then []
    else (if s[0] == '#' then "0x" else [s[0]]) + ReplaceHash(s[1..])
  }

  /** Concatenation regroups. */
  lemma Regroup(p: string, q: string, r: string)
    ensures p + (q + r) == (p + q) + r
  {
  }

  /** The first character of `a + b` and the rest, for a non-empty `a`. */
  lemma FirstAndRest(a: string, b: string)
    requires a != []
    ensures (a + b)[0] == a[0] && (a + b)[1..] == a[1..] + b
  {
  }

  /** The replacement works character by character: replacing in two texts
      put together is putting together the two replaced texts. */
  lemma {:induction false} ReplaceHashConcat(a: string, b: string)
    ensures ReplaceHash(a + b) == ReplaceHash(a) + ReplaceHash(b)
  {
    if a == [] {
      assert a + b == b;
    } else {
      var head := if a[0] == '#' then "0x" else [a[0]];
      var x, y := ReplaceHash(a[1..]), ReplaceHash(b);
      FirstAndRest(a, b);
      ReplaceHashConcat(a[1..], b);
      assert ReplaceHash(a + b) == head + (x + y);
      assert ReplaceHash(a) == head + x;
      Regroup(head, x, y);
    }
  }

  /** `stringToColor`: `0x` and ten characters is `0xRRGGBBAA`; any other
      `0x` text goes to the name parser with `0x` turned into `#`; otherwise
      nine characters is `#AARRGGBB`, eight characters go to the name parser
      with `#` turned into `0x`, and anything else goes to it unchanged. */
  function StringToColor(s: string, named: string -> Color): (c: Color)
    ensures StartsWithZeroX(s) && |s| == 10 ==>
      c.red * 0x100_0000 + c.green * 0x1_0000 + c.blue * 0x100 + c.alpha == ToUInt(s)
    ensures !StartsWithZeroX(s) && |s| == 9 ==>
      c.alpha * 0x100_0000 + c.red * 0x1_0000 + c.green * 0x100 + c.blue == ToUInt(ReplaceHash(s))
    ensures StartsWithZeroX(s) && |s| != 10 ==> c == named("#" + s[2..])
    ensures !StartsWithZeroX(s) && |s| == 8 ==> c == named(ReplaceHash(s))
    ensures !StartsWithZeroX(s) && |s| != 8 && |s| != 9 ==> c == named(s)
  {
    if StartsWithZeroX(s) then
      if |s| == 10 then
        DecodeRgba(ToInt32(ToUInt(s)))
      else
        named("#" + s[2..])
    else if |s| == 9 then
      var hex := ReplaceHash(s);
      DecodeArgb(ToInt32(ToUInt(hex)))
    else if |s| == 8 then
      named(ReplaceHash(s))
    else
      named(s)
  }

  /** `#AARRGGBB` with eight hex digits: alpha, red, green, blue are the four
      bytes of the digits' value, top byte first. */
  lemma StringToColorArgb(d: string, named: string -> Color)
    requires |d| == 8 && AllHex(d)
    ensures var c := StringToColor("#" + d, named);
      c.alpha * 0x100_0000 + c.red * 0x1_0000 + c.green * 0x100 + c.blue == HexValue(d)
  {
    var s := "#" + d;
    assert s[1..] == d;
    assert forall i :: 0 <= i < |d| ==> d[i] != '#';
    assert '#' !in d;
    assert ReplaceHash(s) == "0x" + d;
    ToUIntEightDigits(d);
  }

  /** A ten-character `0x` text whose digits are not all hex fails to parse,
      reads as 0, and gives transparent black. */
  lemma StringToColorMalformed(s: string, named: string -> Color)
    requires StartsWithZeroX(s) && |s| == 10 && !AllHex(s[2..])
    ensures StringToColor(s, named) == Color(0, 0, 0, 0)
  {
    assert HexBody(s) == s[2..];
    BytesOfInt32(0, 0, 0, 0);
  }

  /** A ten-character `0x` text whose parsed value has bytes r, g, b, a, top
      byte first, reads as the colour (r, g, b, a). */
  lemma StringToColorBytes(s: string, named: string -> Color, r: Byte, g: Byte, b: Byte, a: Byte)
    requires StartsWithZeroX(s) && |s| == 10
    requires ToUInt(s) == r * 0x100_0000 + g * 0x1_0000 + b * 0x100 + a
    ensures StringToColor(s, named) == Color(r, g, b, a)
  {
    assert StringToColor(s, named) == DecodeRgba(ToInt32(ToUInt(s)));
    BytesOfInt32(r, g, b, a);
  }

  // ---------------------------------------------------------------------
  // colorToString
  // ---------------------------------------------------------------------

  /** One component as the text stream writes it: base 16, right-aligned in a
      field of width 2 padded with `0`. */
  function HexField(v: Byte): (f: string)
    ensures |f| == 2 && AllLowerHex(f) && AllHex(f)
    ensures HexValue(f) == v
  {
    var digits := ToHex(v);
    if |digits| < 2 then
      var f := "0" + digits;
      assert f[..1] == "0";
      f
    else
      digits
  }

  /** Where the four fields sit in `0x` followed by four two-character fields. */
  lemma Layout(p1: string, p2: string, p3: string, p4: string)
    requires |p1| == 2 && |p2| == 2 && |p3| == 2 && |p4| == 2
    ensures var s := "0x" + p1 + p2 + p3 + p4;
      |s| == 10 && s[..2] == "0x" && s[2..] == p1 + p2 + p3 + p4 &&
      s[2..4] == p1 && s[4..6] == p2 && s[6..8] == p3 && s[8..] == p4
  {
  }

  /** Eight characters are their four pairs, in order, with or without `0x`
      in front. */
  lemma Pairs(d: string)
    requires |d| == 8
    ensures d == d[0..2] + d[2..4] + d[4..6] + d[6..8]
    ensures "0x" + d == "0x" + d[0..2] + d[2..4] + d[4..6] + d[6..8]
  {
    assert d[0..2] + d[2..4] == d[0..4];
    assert d[0..4] + d[4..6] == d[0..6];
    assert d[0..6] + d[6..8] == d;
  }

  /** Four lower-case hex fields make eight lower-case hex digits. */
  lemma LowerHexFields(p1: string, p2: string, p3: string, p4: string)
    requires AllLowerHex(p1) && AllLowerHex(p2) && AllLowerHex(p3) && AllLowerHex(p4)
    ensures AllLowerHex(p1 + p2 + p3 + p4) && AllHex(p1 + p2 + p3 + p4)
  {
  }

  /** `colorToString`: `0x`, then red, green, blue and alpha as two hex digits
      each; without alpha the last two digits are `ff`. */
  function ColorToString(c: Color, alpha: bool): (s: string)
    ensures |s| == 10 && s[..2] == "0x" && AllLowerHex(s[2..]) && AllHex(s[2..])
    ensures HexValue(s[2..4]) == c.red && HexValue(s[4..6]) == c.green && HexValue(s[6..8]) == c.blue
    ensures HexValue(s[8..]) == if alpha then c.alpha else 255
    ensures !alpha ==> s[8..] == "ff"
  {
    var last := if alpha then HexField(c.alpha) else "ff";
    assert AllLowerHex(last) && HexValue(last) == if alpha then c.alpha else 255 by {
      assert "ff"[..1] == "f";
    }
    Layout(HexField(c.red), HexField(c.green), HexField(c.blue), last);
    LowerHexFields(HexField(c.red), HexField(c.green), HexField(c.blue), last);
    "0x" + HexField(c.red) + HexField(c.green) + HexField(c.blue) + last
  }

  /** The value of the eight digits of a written colour. */
  lemma {:induction false} WrittenValue(s: string)
    requires |s| == 10 && AllHex(s[2..])
    ensures HexValue(s[2..]) ==
      HexValue(s[2..4]) * 0x100_0000 + HexValue(s[4..6]) * 0x1_0000 + HexValue(s[6..8]) * 0x100 + HexValue(s[8..])
  {
    var p1, p2, p3, p4 := s[2..4], s[4..6], s[6..8], s[8..];
    var v1, v2, v3, v4 := HexValue(p1), HexValue(p2), HexValue(p3), HexValue(p4);
    assert Pow16(2) == 0x100;
    assert HexValue(p1 + p2) == v1 * 0x100 + v2 by {
      HexValueConcat(p1, p2);
    }
    assert HexValue(p1 + p2 + p3) == (v1 * 0x100 + v2) * 0x100 + v3 by {
      HexValueConcat(p1 + p2, p3);
    }
    assert HexValue(p1 + p2 + p3 + p4) == ((v1 * 0x100 + v2) * 0x100 + v3) * 0x100 + v4 by {
      HexValueConcat(p1 + p2 + p3, p4);
    }
    assert s[2..] == p1 + p2 + p3 + p4;
  }

  /** Reading back a written colour gives the colour, with alpha 255 when it
      was written without alpha. */
  lemma RoundTrip(c: Color, alpha: bool, named: string -> Color)
    ensures StringToColor(ColorToString(c, alpha), named) == if alpha then c else c.(alpha := 255)
  {
    var s := ColorToString(c, alpha);
    var a: Byte := if alpha then c.alpha else 255;
    assert StartsWithZeroX(s) by {
      assert s[..2] == "0x";
    }
    assert ToUInt(s) == c.red * 0x100_0000 + c.green * 0x1_0000 + c.blue * 0x100 + a by {
      WrittenValue(s);
      assert s == "0x" + s[2..];
      ToUIntEightDigits(s[2..]);
    }
    StringToColorBytes(s, named, c.red, c.green, c.blue, a);
  }

  /** A lower-case digit is written back as it was read. */
  lemma LowerDigitRoundTrip(c: char)
    requires IsLowerHexDigit(c)
    ensures HexDigit(DigitValue(c)) == c
  {
  }

  /** A two-digit value splits back into its digits. */
  lemma SplitPair(hi: nat, lo: nat)
    requires hi < 16 && lo < 16
    ensures (hi * 16 + lo) / 16 == hi && (hi * 16 + lo) % 16 == lo
  {
  }

  /** A value of two digits with a non-zero leading digit is written as those
      two digits. */
  lemma ToHexTwoDigits(hi: nat, lo: nat)
    requires 1 <= hi < 16 && lo < 16
    ensures ToHex(hi * 16 + lo) == [HexDigit(hi), HexDigit(lo)]
  {
    var v := hi * 16 + lo;
    SplitPair(hi, lo);
    assert ToHex(v) == ToHex(v / 16) + [HexDigit(v % 16)];
  }

  /** Two lower-case hex digits are written back as they were read. */
  lemma HexFieldOfPair(p: string)
    requires |p| == 2 && AllLowerHex(p)
    ensures AllHex(p) && HexValue(p) < 256 && HexField(HexValue(p)) == p
  {
    var hi, lo := DigitValue(p[0]), DigitValue(p[1]);
    assert HexValue(p) == hi * 16 + lo by {
      assert p[..1] == [p[0]];
    }
    LowerDigitRoundTrip(p[0]);
    LowerDigitRoundTrip(p[1]);
    SplitPair(hi, lo);
    if hi == 0 {
      assert ToHex(HexValue(p)) == [p[1]];
      assert p == "0" + [p[1]];
    } else {
      ToHexTwoDigits(hi, lo);
      assert p == [p[0], p[1]];
    }
  }

  /** `0xRRGGBBAA` with eight hex digits: red, green, blue and alpha are the
      values of the four digit pairs. */
  lemma StringToColorRgba(d: string, named: string -> Color)
    requires |d| == 8 && AllHex(d)
    ensures var c := StringToColor("0x" + d, named);
      c.red == HexValue(d[0..2]) && c.green == HexValue(d[2..4]) &&
      c.blue == HexValue(d[4..6]) && c.alpha == HexValue(d[6..8])
  {
    var s := "0x" + d;
    var p1, p2, p3, p4 := d[0..2], d[2..4], d[4..6], d[6..8];
    assert AllHex(p1) && AllHex(p2) && AllHex(p3) && AllHex(p4);
    var v1, v2, v3, v4 := HexValue(p1), HexValue(p2), HexValue(p3), HexValue(p4);
    assert Pow16(2) == 0x100;
    assert ToUInt(s) == v1 * 0x100_0000 + v2 * 0x1_0000 + v3 * 0x100 + v4 by {
      Pairs(d);
      Layout(p1, p2, p3, p4);
      WrittenValue(s);
      ToUIntEightDigits(d);
    }
    StringToColorBytes(s, named, v1, v2, v3, v4);
  }

  /** A `0xRRGGBBAA` text in lower case is written back unchanged by
      `colorToString` with alpha. */
  lemma CanonicalRoundTrip(d: string, named: string -> Color)
    requires |d| == 8 && AllLowerHex(d)
    ensures ColorToString(StringToColor("0x" + d, named), true) == "0x" + d
  {
    var p1, p2, p3, p4 := d[0..2], d[2..4], d[4..6], d[6..8];
    HexFieldOfPair(p1);
    HexFieldOfPair(p2);
    HexFieldOfPair(p3);
    HexFieldOfPair(p4);
    assert AllHex(d);
    var c := StringToColor("0x" + d, named);
    StringToColorRgba(d, named);
    assert HexField(c.red) == p1 && HexField(c.green) == p2 && HexField(c.blue) == p3 && HexField(c.alpha) == p4;
    assert ColorToString(c, true) == "0x" + p1 + p2 + p3 + p4;
    Pairs(d);
  }
}
