// darkenColor of src/components/MindmapCanvas.tsx: a "#rrggbb" colour with
// every channel lowered by round(2.55 * percent) and clamped to [0, 255],
// written back as "#" and six lower-case hex digits.
module Colors {
  import opened Types

  // ---------------------------------------------------------------------
  // Hex digits and numbers
  // ---------------------------------------------------------------------

  predicate IsHexDigit(c: char)
  {
    ('0' <= c <= '9') || ('a' <= c <= 'f') || ('A' <= c <= 'F')
  }

  /** The digits Number.prototype.toString(16) writes. */
  predicate IsLowerHexDigit(c: char)
  {
    ('0' <= c <= '9') || ('a' <= c <= 'f')
  }

  function HexValue(c: char): (v: nat)
    requires IsHexDigit(c)
    ensures v < 16
  {
    if '0' <= c <= '9' then c as int - '0' as int
    else if 'a' <= c <= 'f' then c as int - 'a' as int + 10
    else c as int - 'A' as int + 10
  }

  function HexDigit(d: nat): (c: char)
    requires d < 16
    ensures IsLowerHexDigit(c) && IsHexDigit(c) && HexValue(c) == d
  {
    if d < 10 then ('0' as int + d) as char else ('a' as int + d - 10) as char
  }

  predicate AllHex(s: string)
  {
    forall i :: 0 <= i < |s| ==> IsHexDigit(s[i])
  }

  predicate AllLowerHex(s: string)
  {
    forall i :: 0 <= i < |s| ==> IsLowerHexDigit(s[i])
  }

  function Pow16(k: nat): (p: nat)
    ensures p >= 1
  {
    if k == 0 then 1 else 16 * Pow16(k - 1)
  }

  /** The value of a string of hex digits, most significant first. */
  function ParseHex(s: string): nat
    requires AllHex(s)
  {
    if s == [] then 0 else ParseHex(s[..|s| - 1]) * 16 + HexValue(s[|s| - 1])
  }

  /** Number.prototype.toString(16) of a non-negative integer: no leading zeros, lower-case digits. */
  function ToHex(n: nat): (s: string)
    ensures |s| >= 1 && AllLowerHex(s) && AllHex(s)
  {
    if n < 16 then [HexDigit(n)] else ToHex(n / 16) + [HexDigit(n % 16)]
  }

  /** The longest prefix of hex digits: where parseInt(_, 16) stops reading. */
  function HexPrefix(s: string): (p: string)
    ensures |p| <= |s| && p == s[..|p|] && AllHex(p)
    ensures |p| < |s| ==> !IsHexDigit(s[|p|])
  {
    if s == [] || !IsHexDigit(s[0]) then [] else [s[0]] + HexPrefix(s[1..])
  }

  // ---------------------------------------------------------------------
  // parseInt(s, 16)
  // ---------------------------------------------------------------------

  /** The code points parseInt skips first: ECMAScript's WhiteSpace (with every Zs space) and LineTerminator. */
  predicate IsJsSpace(c: char)
  {
    || c == '\t' || c == '\n' || c == '\U{000B}' || c == '\U{000C}' || c == '\r'
    || c == ' ' || c == '\U{00A0}' || c == '\U{1680}' || ('\U{2000}' <= c <= '\U{200A}')
    || c == '\U{2028}' || c == '\U{2029}' || c == '\U{202F}' || c == '\U{205F}' || c == '\U{3000}' || c == '\U{FEFF}'
  }

  /** The text with its leading white space removed. */
  function TrimStart(s: string): (t: string)
    ensures |t| <= |s|
    ensures t != [] ==> !IsJsSpace(t[0])
  {
    if s != [] && IsJsSpace(s[0]) then TrimStart(s[1..]) else s
  }

  /** TrimStart removes white space only, and only from the front. */
  lemma {:induction false} TrimStartSuffix(s: string)
    ensures TrimStart(s) == s[|s| - |TrimStart(s)|..]
    ensures forall i :: 0 <= i < |s| - |TrimStart(s)| ==> IsJsSpace(s[i])
  {
    if s != [] && IsJsSpace(s[0]) {
      TrimStartSuffix(s[1..]);
      forall i | 1 <= i < |s| - |TrimStart(s)| ensures IsJsSpace(s[i]) {
        assert s[i] == s[1..][i - 1];
      }
    }
  }

  /** A leading "0x" or "0X", which parseInt drops when the radix is 16. */
  predicate HasHexPrefix(s: string)
  {
    |s| >= 2 && s[0] == '0' && (s[1] == 'x' || s[1] == 'X')
  }

  /** A leading '-': the number read is negated. */
  predicate Negative(s: string)
  {
    s != [] && s[0] == '-'
  }

  /** The text after an optional sign and then an optional "0x": where parseInt starts reading digits. */
  function DigitText(s: string): string
  {
    var u := if s != [] && (s[0] == '+' || s[0] == '-') then s[1..] else s;
    if HasHexPrefix(u) then u[2..] else u
  }

  /** A text parseInt reads from its first character on: no leading space, sign or "0x". */
  predicate PlainStart(s: string)
  {
    s == [] || (!IsJsSpace(s[0]) && s[0] != '+' && s[0] != '-' && !HasHexPrefix(s))
  }

  /**
   * parseInt(s, 16): skip leading white space, read an optional sign, drop a
   * "0x" or "0X", then take the longest run of hex digits; NaN (None) when
   * that run is empty, otherwise its value with the sign applied.
   */
  function ParseIntHex(s: string): (r: Option<int>)
    ensures PlainStart(s) ==> (r.None? <==> s == [] || !IsHexDigit(s[0]))
    ensures PlainStart(s) && r.Some? ==> r.value == ParseHex(HexPrefix(s))
  {
    PlainRead(s);
    var t := TrimStart(s);
    ReadDigits(DigitText(t), Negative(t))
  }

  /** The value of the leading hex digits of `d`, negated when `negative`; None when there are none. */
  function ReadDigits(d: string, negative: bool): (r: Option<int>)
    ensures r.None? <==> d == [] || !IsHexDigit(d[0])
  {
    var p := HexPrefix(d);
    if p == [] then None
    else
      var v: int := ParseHex(p);
      if negative then Some(-v) else Some(v)
  }

  /** A hex digit is neither white space nor a sign. */
  lemma HexNotSpace(c: char)
    requires IsHexDigit(c)
    ensures !IsJsSpace(c) && c != '+' && c != '-'
  {
  }

  /** From a plain start parseInt reads the text itself, unsigned. */
  lemma PlainRead(s: string)
    ensures PlainStart(s) ==> TrimStart(s) == s && !Negative(s) && DigitText(s) == s
  {
  }

  /** The negation of a parse result; NaN stays NaN. */
  function Negated(r: Option<int>): Option<int>
  {
    if r.None? then None else Some(-r.value)
  }

  /** Leading white space does not change what parseInt reads. */
  lemma ParseIntSkipsSpace(c: char, s: string)
    requires IsJsSpace(c)
    ensures ParseIntHex([c] + s) == ParseIntHex(s)
  {
    var t := [c] + s;
    assert t[1..] == s;
    assert TrimStart(t) == TrimStart(s);
  }

  /** A '-' in front negates the number read after it, and a '+' changes nothing. */
  lemma ParseIntSign(s: string)
    requires PlainStart(s)
    ensures ParseIntHex(['-'] + s) == Negated(ParseIntHex(s))
    ensures ParseIntHex(['+'] + s) == ParseIntHex(s)
  {
    PlainRead(s);
    var m, p := ['-'] + s, ['+'] + s;
    assert m[1..] == s && p[1..] == s;
    assert TrimStart(m) == m && TrimStart(p) == p;
    assert DigitText(m) == s && DigitText(p) == s;
    assert Negative(m) && !Negative(p);
  }

  /** A "0x" or "0X" in front is dropped. */
  lemma ParseIntHexPrefix(x: char, s: string)
    requires x == 'x' || x == 'X'
    requires PlainStart(s)
    ensures ParseIntHex(['0', x] + s) == ParseIntHex(s)
  {
    PlainRead(s);
    var t := ['0', x] + s;
    assert t[2..] == s;
    assert TrimStart(t) == t;
    assert DigitText(t) == s && !Negative(t);
  }

  /** What parseInt(_, 16) gives for some texts that are not plain digits. */
  lemma ParseIntExamples()
    ensures ParseIntHex("-1") == Some(-1)
    ensures ParseIntHex(" ff") == Some(255)
    ensures ParseIntHex("0x3c") == Some(60)
  {
    MinusOne();
    SpaceFF();
    Prefixed3C();
  }

  /** A sign in front of one digit: "-1" reads -1. */
  lemma MinusOne()
    ensures ParseIntHex("-1") == Some(-1)
  {
    OneDigit('1');
    assert "-1" == ['-'] + "1";
    ParseIntSign("1");
  }

  /** Leading white space is skipped: " ff" reads 255. */
  lemma SpaceFF()
    ensures ParseIntHex(" ff") == Some(255)
  {
    TwoDigits('f', 'f');
    assert " ff" == [' '] + "ff";
    ParseIntSkipsSpace(' ', "ff");
  }

  /** A "0x" prefix is dropped: "0x3c" reads 60. */
  lemma Prefixed3C()
    ensures ParseIntHex("0x3c") == Some(60)
  {
    TwoDigits('3', 'c');
    assert "0x3c" == ['0', 'x'] + "3c";
    ParseIntHexPrefix('x', "3c");
  }

  /** A signed "0x" text stops at its first non-digit; "0x" alone and a sign followed by a space read NaN. */
  lemma MixedExamples()
    ensures ParseIntHex("-0x1g") == Some(-1)
    ensures ParseIntHex("0x") == None
    ensures ParseIntHex("- 1") == None
  {
    var m := "-0x1g";
    assert TrimStart(m) == m && Negative(m);
    assert DigitText(m) == "1g" by { assert m[1..] == "0x1g"; assert m[1..][2..] == "1g"; }
    assert HexPrefix("1g") == "1" by { assert "1g"[1..] == "g"; assert "1"[1..] == []; }
    assert ParseHex("1") == 1 by { assert "1"[..0] == []; }
    assert TrimStart("0x") == "0x" && DigitText("0x") == [];
    assert TrimStart("- 1") == "- 1" && DigitText("- 1") == " 1";
  }

  /** A single hex digit reads as its value. */
  lemma OneDigit(c: char)
    requires IsHexDigit(c)
    ensures ParseIntHex([c]) == Some(HexValue(c) as int)
  {
    HexNotSpace(c);
    assert PlainStart([c]);
    PlainRead([c]);
    assert HexPrefix([c]) == [c] by { assert [c][1..] == []; }
    assert ParseHex([c]) == HexValue(c) by { assert [c][..0] == []; }
  }

  /** Two hex digits read as 16 times the first plus the second. */
  lemma TwoDigits(c: char, d: char)
    requires IsHexDigit(c) && IsHexDigit(d)
    ensures ParseIntHex([c, d]) == Some(HexValue(c) * 16 + HexValue(d))
  {
    var s := [c, d];
    HexNotSpace(c);
    assert !HasHexPrefix(s) by { assert d != 'x' && d != 'X'; }
    assert PlainStart(s);
    PlainRead(s);
    assert HexPrefix(s) == s by { assert s[1..] == [d]; assert [d][1..] == []; }
    assert ParseHex([c]) == HexValue(c) by { assert [c][..0] == []; }
    assert ParseHex(s) == ParseHex([c]) * 16 + HexValue(d) by { assert s[..1] == [c]; }
  }

  /** The position of the first `c` in `s`, or |s| when there is none. */
  function FirstIndex(s: string, c: char): (k: nat)
    ensures k <= |s| && c !in s[..k]
    ensures k < |s| <==> c in s
    ensures k < |s| ==> s[k] == c
  {
    if s == [] then 0
    else if s[0] == c then 0
    else
      assert s[..FirstIndex(s[1..], c) + 1] == [s[0]] + s[1..][..FirstIndex(s[1..], c)];
      FirstIndex(s[1..], c) + 1
  }

  /**
   * String.prototype.replace with a one-character string pattern: the text is
   * cut at indexOf of the pattern, so the first occurrence is removed and
   * nothing else changes.
   */
  function RemoveFirst(s: string, c: char): (r: string)
    ensures c !in s ==> r == s
    ensures c in s ==> exists k :: 0 <= k < |s| && s[k] == c && c !in s[..k] && r == s[..k] + s[k + 1..]
  {
    var k := FirstIndex(s, c);
    if k == |s| then s else s[..k] + s[k + 1..]
  }

  // ---------------------------------------------------------------------
  // The JavaScript number operations darkenColor uses
  // ---------------------------------------------------------------------

  const TwoTo31: int := 0x8000_0000
  const TwoTo32: int := 0x1_0000_0000

  /** ToInt32, which the bit operators apply first: NaN becomes 0, other values are taken modulo 2^32 into the signed range. */
  function ToInt32(n: Option<int>): (r: int)
    ensures -TwoTo31 <= r < TwoTo31
    ensures n.None? ==> r == 0
    ensures n.Some? ==> (r - n.value) % TwoTo32 == 0
    ensures n.Some? && -TwoTo31 <= n.value < TwoTo31 ==> r == n.value
  {
    if n.None? then 0
    else
      var m := n.value % TwoTo32;
      if m >= TwoTo31 then m - TwoTo32 else m
  }

  /** Math.round: the nearest integer, halves rounded up. */
  function Round(x: real): (r: int)
    ensures x - 0.5 < r as real <= x + 0.5
  {
    (x + 0.5).Floor
  }

  /** The channel clamp of darkenColor: below 1 becomes 0, from 255 up becomes 255. */
  function Clamp(c: int): (r: int)
    ensures 0 <= r <= 255
    ensures 0 <= c <= 255 ==> r == c
    ensures c < 0 ==> r == 0
    ensures c > 255 ==> r == 255
  {
    if c < 255 then (if c < 1 then 0 else c) else 255
  }

  /** The three channels of a 24-bit value (>> 16, >> 8 & 0xff and & 0xff on a 32-bit integer). */
  function Red(num: int): int { num / 0x10000 }
  function Green(num: int): int { (num / 0x100) % 0x100 }
  function Blue(num: int): int { num % 0x100 }

  /** The amount every channel is lowered by. */
  function Amount(percent: real): int
  {
    Round(2.55 * percent)
  }

  /** The digits after "#": 0x1000000 plus the packed channels in hex, with the leading 1 cut off. */
  function PackedDigits(r: int, g: int, b: int): string
  {
    ToHex(0x1000000 + Clamp(r) * 0x10000 + Clamp(g) * 0x100 + Clamp(b))[1..]
  }

  /** The number darkenColor reads: parseInt of the colour without its "#", as a 32-bit integer. */
  function ColorNumber(color: string): int
  {
    ToInt32(ParseIntHex(RemoveFirst(color, '#')))
  }

  /** The arithmetic of darkenColor once `num` is read: each channel lowered, then packed and printed. */
  function DarkenNumber(num: int, percent: real): string
  {
    var amt := Amount(percent);
    "#" + PackedDigits(Red(num) - amt, Green(num) - amt, Blue(num) - amt)
  }

  /** darkenColor(color, percent). */
  function Darken(color: string, percent: real): string
  {
    DarkenNumber(ColorNumber(color), percent)
  }

  // ---------------------------------------------------------------------
  // Properties
  // ---------------------------------------------------------------------

  /** A number in [16^k, 2 * 16^k) prints as k + 1 digits with a leading 1. */
  lemma {:induction false} ToHexLeadingOne(n: nat, k: nat)
    requires Pow16(k) <= n < 2 * Pow16(k)
    ensures |ToHex(n)| == k + 1 && ToHex(n)[0] == '1'
  {
    if k == 0 {
      assert n == 1;
    } else {
      assert Pow16(k) == 16 * Pow16(k - 1);
      ToHexLeadingOne(n / 16, k - 1);
    }
  }

  /** The value of a digit string with one digit put in front. */
  lemma {:induction false} ParseHexCons(d: char, s: string)
    requires IsHexDigit(d) && AllHex(s)
    ensures AllHex([d] + s)
    ensures ParseHex([d] + s) == HexValue(d) * Pow16(|s|) + ParseHex(s)
    decreases |s|
  {
    var ds := [d] + s;
    assert AllHex(ds);
    if s != [] {
      var init, last := s[..|s| - 1], s[|s| - 1];
      assert ds[..|ds| - 1] == [d] + init;
      assert ds[|ds| - 1] == last;
      ParseHexCons(d, init);
      assert Pow16(|s|) == 16 * Pow16(|init|);
      ShiftDigit(HexValue(d), Pow16(|init|));
    }
  }

  lemma ShiftDigit(h: nat, p: nat)
    ensures h * p * 16 == h * (16 * p)
  {
  }

  /** Reading back what ToHex writes gives the number. */
  lemma {:induction false} HexRoundTrip(n: nat)
    ensures ParseHex(ToHex(n)) == n
  {
    if n >= 16 {
      HexRoundTrip(n / 16);
      var s := ToHex(n);
      assert s[..|s| - 1] == ToHex(n / 16);
    }
  }

  /** A digit string without a leading zero is what ToHex prints for its value. */
  lemma {:induction false} HexCanonical(s: string)
    requires s != [] && AllLowerHex(s) && (|s| > 1 ==> s[0] != '0')
    ensures AllHex(s) && ToHex(ParseHex(s)) == s
    decreases |s|
  {
    assert AllHex(s);
    if |s| > 1 {
      var init, last := s[..|s| - 1], s[|s| - 1];
      assert init[0] == s[0];
      HexCanonical(init);
      LeadingDigitPositive(init);
      var n := ParseHex(s);
      DivMod16(ParseHex(init), HexValue(last), n);
      assert HexDigit(HexValue(last)) == last;
      assert s == init + [last];
    } else {
      assert HexDigit(HexValue(s[0])) == s[0];
    }
  }

  lemma DivMod16(p: nat, h: nat, n: nat)
    requires h < 16 && n == p * 16 + h
    ensures n / 16 == p && n % 16 == h
  {
  }

  lemma LeadingDigitPositive(s: string)
    requires s != [] && AllHex(s) && s[0] != '0'
    ensures ParseHex(s) >= 1
  {
    ParseHexCons(s[0], s[1..]);
    assert [s[0]] + s[1..] == s;
  }

  /** The packed value of three clamped channels has seven hex digits and a leading 1. */
  lemma PackedShape(r: int, g: int, b: int, v: int)
    requires v == 0x1000000 + Clamp(r) * 0x10000 + Clamp(g) * 0x100 + Clamp(b)
    ensures |ToHex(v)| == 7 && ToHex(v)[0] == '1' && ParseHex(ToHex(v)[1..]) == v - 0x1000000
  {
    assert Pow16(6) == 0x1000000;
    ToHexLeadingOne(v, 6);
    var s := ToHex(v);
    HexRoundTrip(v);
    ParseHexCons(s[0], s[1..]);
    assert [s[0]] + s[1..] == s;
  }

  /**
   * darkenColor always returns "#" and six lower-case hex digits, and the
   * digits hold each input channel lowered by round(2.55 * percent) and
   * clamped to [0, 255] (a missing or non-hex colour reads as 0).
   */
  lemma DarkenFormat(color: string, percent: real)
    ensures |Darken(color, percent)| == 7 && Darken(color, percent)[0] == '#'
    ensures AllLowerHex(Darken(color, percent)[1..]) && AllHex(Darken(color, percent)[1..])
    ensures Red(ParseHex(Darken(color, percent)[1..])) == Clamp(Red(ColorNumber(color)) - Amount(percent))
    ensures Green(ParseHex(Darken(color, percent)[1..])) == Clamp(Green(ColorNumber(color)) - Amount(percent))
    ensures Blue(ParseHex(Darken(color, percent)[1..])) == Clamp(Blue(ColorNumber(color)) - Amount(percent))
  {
    DarkenNumberFormat(ColorNumber(color), percent);
  }

  /** DarkenFormat for the number read: "#", six lower-case digits, and the three lowered, clamped channels. */
  lemma DarkenNumberFormat(num: int, percent: real)
    ensures |DarkenNumber(num, percent)| == 7 && DarkenNumber(num, percent)[0] == '#'
    ensures AllLowerHex(DarkenNumber(num, percent)[1..]) && AllHex(DarkenNumber(num, percent)[1..])
    ensures Red(ParseHex(DarkenNumber(num, percent)[1..])) == Clamp(Red(num) - Amount(percent))
    ensures Green(ParseHex(DarkenNumber(num, percent)[1..])) == Clamp(Green(num) - Amount(percent))
    ensures Blue(ParseHex(DarkenNumber(num, percent)[1..])) == Clamp(Blue(num) - Amount(percent))
  {
    var amt := Amount(percent);
    var r, g, b := Red(num) - amt, Green(num) - amt, Blue(num) - amt;
    PackedChannels(r, g, b);
    var out := DarkenNumber(num, percent);
    assert out == "#" + PackedDigits(r, g, b);
    assert out[1..] == PackedDigits(r, g, b);
  }

  /** The six digits written for three channels read back as the clamped channels. */
  lemma PackedChannels(r: int, g: int, b: int)
    ensures |PackedDigits(r, g, b)| == 6 && AllLowerHex(PackedDigits(r, g, b)) && AllHex(PackedDigits(r, g, b))
    ensures Red(ParseHex(PackedDigits(r, g, b))) == Clamp(r)
    ensures Green(ParseHex(PackedDigits(r, g, b))) == Clamp(g)
    ensures Blue(ParseHex(PackedDigits(r, g, b))) == Clamp(b)
  {
    var v := 0x1000000 + Clamp(r) * 0x10000 + Clamp(g) * 0x100 + Clamp(b);
    PackedShape(r, g, b, v);
    var digits := PackedDigits(r, g, b);
    assert digits == ToHex(v)[1..];
    ChannelsOfPacked(Clamp(r), Clamp(g), Clamp(b), ParseHex(digits));
  }

  lemma ChannelsOfPacked(r: int, g: int, b: int, v: int)
    requires 0 <= r <= 255 && 0 <= g <= 255 && 0 <= b <= 255
    requires v == r * 0x10000 + g * 0x100 + b
    ensures Red(v) == r && Green(v) == g && Blue(v) == b
  {
    assert v / 0x100 == r * 0x100 + g;
  }

  /** A well-formed colour: "#" and six hex digits. */
  predicate IsColor(color: string)
  {
    |color| == 7 && color[0] == '#' && AllHex(color[1..])
  }

  /** The value parseInt reads from a well-formed colour. */
  lemma ColorValue(color: string)
    requires IsColor(color)
    ensures ColorNumber(color) == ParseHex(color[1..])
    ensures ParseHex(color[1..]) < 0x1000000
  {
    var d := color[1..];
    assert RemoveFirst(color, '#') == d;
    assert IsHexDigit(d[0]) && IsHexDigit(d[1]);
    HexNotSpace(d[0]);
    assert !HasHexPrefix(d);
    assert PlainStart(d);
    HexPrefixAll(d);
    assert ParseIntHex(d) == Some(ParseHex(d) as int);
    ParseHexBound(d);
    assert Pow16(6) == 0x1000000;
  }

  lemma {:induction false} HexPrefixAll(s: string)
    requires AllHex(s)
    ensures HexPrefix(s) == s
  {
    if s != [] {
      HexPrefixAll(s[1..]);
      assert [s[0]] + s[1..] == s;
    }
  }

  lemma {:induction false} ParseHexBound(s: string)
    requires AllHex(s)
    ensures ParseHex(s) < Pow16(|s|)
  {
    if s != [] {
      ParseHexBound(s[..|s| - 1]);
    }
  }

  /** For a non-negative percentage no channel of the darkened colour exceeds the input's. */
  lemma DarkenNeverBrighter(color: string, percent: real)
    requires IsColor(color) && percent >= 0.0
    ensures var out, num := Darken(color, percent), ParseHex(color[1..]);
            AllHex(out[1..])
            && Red(ParseHex(out[1..])) <= Red(num)
            && Green(ParseHex(out[1..])) <= Green(num)
            && Blue(ParseHex(out[1..])) <= Blue(num)
  {
    ColorValue(color);
    DarkenFormat(color, percent);
    var num := ParseHex(color[1..]);
    assert 0 <= Red(num) <= 255;
  }

  /**
   * darkenColor("#-1", 20): parseInt reads -1, whose 32-bit shifts give a red
   * channel of -1 and green and blue channels of 255, so the result has red
   * 0 and green and blue 255 - 51 = 204.
   */
  lemma DarkenNegativeExample()
    ensures AllHex(Darken("#-1", 20.0)[1..])
    ensures Red(ParseHex(Darken("#-1", 20.0)[1..])) == 0
    ensures Green(ParseHex(Darken("#-1", 20.0)[1..])) == 204
    ensures Blue(ParseHex(Darken("#-1", 20.0)[1..])) == 204
  {
    NegativeColorNumber();
    assert Amount(20.0) == 51;
    DarkenNumberFormat(-1, 20.0);
  }

  /** darkenColor("#-1", _) reads the number -1. */
  lemma NegativeColorNumber()
    ensures ColorNumber("#-1") == -1
  {
    assert FirstIndex("#-1", '#') == 0;
    assert RemoveFirst("#-1", '#') == "-1";
    MinusOne();
  }

  /** Darkening a well-formed lower-case colour by 0% gives the colour back. */
  lemma DarkenByZero(color: string)
    requires IsColor(color) && AllLowerHex(color[1..])
    ensures Darken(color, 0.0) == color
  {
    var d := color[1..];
    assert color == "#" + d;
    ColorValue(color);
    ZeroDigits(d);
    DarkenAtZero(ParseHex(d));
    assert Darken(color, 0.0) == DarkenNumber(ParseHex(d), 0.0);
  }

  /** Six lower-case digits split into channels and packed again are the same digits. */
  lemma ZeroDigits(d: string)
    requires |d| == 6 && AllLowerHex(d) && AllHex(d)
    ensures PackedDigits(Red(ParseHex(d)), Green(ParseHex(d)), Blue(ParseHex(d))) == d
  {
    ParseHexBound(d);
    assert Pow16(6) == 0x1000000;
    Repack(ParseHex(d));
    DigitsAfterOne(d);
  }

  /** Darkening by 0% writes the channels of the number read, unchanged. */
  lemma DarkenAtZero(num: int)
    ensures DarkenNumber(num, 0.0) == "#" + PackedDigits(Red(num), Green(num), Blue(num))
  {
    assert Amount(0.0) == 0;
  }

  /** A number below 0x1000000 split into its three channels packs back to itself. */
  lemma Repack(num: nat)
    requires num < 0x1000000
    ensures PackedDigits(Red(num), Green(num), Blue(num)) == ToHex(0x1000000 + num)[1..]
  {
    var q := num / 0x100;
    assert num == q * 0x100 + Blue(num);
    assert q / 0x100 == Red(num);
    assert q == Red(num) * 0x100 + Green(num);
    assert 0 <= Red(num) <= 255 && 0 <= Green(num) <= 255 && 0 <= Blue(num) <= 255;
    var v := 0x1000000 + Clamp(Red(num)) * 0x10000 + Clamp(Green(num)) * 0x100 + Clamp(Blue(num));
    assert v == 0x1000000 + num;
  }

  /** Six lower-case digits with a 1 put in front print back as themselves after the 1. */
  lemma DigitsAfterOne(d: string)
    requires |d| == 6 && AllLowerHex(d)
    ensures ToHex(0x1000000 + ParseHex(d))[1..] == d
  {
    var full := ['1'] + d;
    ParseHexCons('1', d);
    assert Pow16(6) == 0x1000000;
    HexCanonical(full);
    assert full[1..] == d;
  }
}
