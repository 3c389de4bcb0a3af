/** `loadJpegHexColorTransparent`'s reading of a colour code: the first `#` is
    removed, and characters 0-1, 2-3 and 4-5 are each read with
    `parseInt(_, 16)`. `parseInt` follows section 19.2.5 of ECMA-262: leading
    white space is skipped, one sign is taken, a `0x` prefix is dropped, and the
    longest run of hexadecimal digits is read; no digit at all gives NaN. */
module HexColor {
  import opened Wrappers
  import opened Colors

  /** The JavaScript white space and line terminators `parseInt` skips. */
  predicate IsJsWhiteSpace(c: char) {
    c == '\t' || c == '\n' || c == '\U{000B}' || c == '\U{000C}' || c == '\r' || c == ' ' ||
    c == '\U{00A0}' || c == '\U{1680}' || ('\U{2000}' <= c <= '\U{200A}') || c == '\U{2028}' ||
    c == '\U{2029}' || c == '\U{202F}' || c == '\U{205F}' || c == '\U{3000}' || c == '\U{FEFF}'
  }

  function HexDigitValue(c: char): Option<nat> {
    if '0' <= c <= '9' then Some(c as int - '0' as int)
    else if 'a' <= c <= 'f' then Some(c as int - 'a' as int + 10)
    else if 'A' <= c <= 'F' then Some(c as int - 'A' as int + 10)
    else None
  }

  function TrimStart(s: string): (r: string)
    ensures |r| <= |s| && r == s[|s| - |r|..]
    ensures |r| > 0 ==> !IsJsWhiteSpace(r[0])
  {
    if |s| > 0 && IsJsWhiteSpace(s[0]) then TrimStart(s[1..]) else s
  }

  /** The longest prefix of hexadecimal digits. */
  function HexPrefix(s: string): (r: string)
    ensures |r| <= |s| && r == s[..|r|]
    ensures forall i :: 0 <= i < |r| ==> HexDigitValue(r[i]).Some?
    ensures |r| < |s| ==> HexDigitValue(s[|r|]).None?
  {
    if |s| > 0 && HexDigitValue(s[0]).Some? then [s[0]] + HexPrefix(s[1..]) else []
  }

  /** The value of a hexadecimal digit (0 for any other character). */
  function Digit(c: char): (d: nat)
    ensures d < 16
    ensures HexDigitValue(c).Some? ==> HexDigitValue(c) == Some(d)
  {
    match HexDigitValue(c)
    case Some(d) => d
    case None => 0
  }

  /** The value of a string of hexadecimal digits, most significant first. */
  function HexValue(s: string): nat {
    if |s| == 0 then 0 else HexValue(s[..|s| - 1]) * 16 + Digit(s[|s| - 1])
  }

  /** The digits after an optional `0x`, read as a number; None when there
      are none. */
  function UnsignedHex(u: string): Option<int> {
    var body := if |u| >= 2 && u[0] == '0' && (u[1] == 'x' || u[1] == 'X') then u[2..] else u;
    var digits := HexPrefix(body);
    if |digits| == 0 then None else Some(HexValue(digits))
  }

  function Negate(v: Option<int>): Option<int> {
    match v
    case None => None
    case Some(n) => Some(-n)
  }

  /** `parseInt(s, 16)`; None stands for NaN. */
  function ParseIntHex(s: string): Option<int> {
    var t := TrimStart(s);
    if |t| > 0 && t[0] == '-' then Negate(UnsignedHex(t[1..]))
    else if |t| > 0 && t[0] == '+' then UnsignedHex(t[1..])
    else UnsignedHex(t)
  }

  /** `s.replace("#", "")`: only the first `#` goes. */
  function RemoveFirstHash(s: string): (r: string)
    ensures '#' !in s ==> r == s
  {
    if |s| == 0 then s else if s[0] == '#' then s[1..] else [s[0]] + RemoveFirstHash(s[1..])
  }

  /** `s.substr(start, length)` for non-negative arguments. */
  function Substr(s: string, start: nat, length: nat): (r: string)
    ensures |r| <= length
  {
    if start >= |s| then "" else if start + length >= |s| then s[start..] else s[start..start + length]
  }

  datatype Channels = Channels(r: Option<int>, g: Option<int>, b: Option<int>)

  /** The three `parseInt` results of `loadJpegHexColorTransparent`. */
  function ParseHexColor(hexColor: string): Channels {
    var hex := RemoveFirstHash(hexColor);
    Channels(ParseIntHex(Substr(hex, 0, 2)), ParseIntHex(Substr(hex, 2, 2)), ParseIntHex(Substr(hex, 4, 2)))
  }

  /** The target colour, when all three channels came out as bytes. A channel
      that is NaN or negative (from a code such as `#-f0000`) gives None. */
  function HexTarget(hexColor: string): Option<Color> {
    var c := ParseHexColor(hexColor);
    if c.r.Some? && c.g.Some? && c.b.Some? && 0 <= c.r.value < 256 && 0 <= c.g.value < 256 && 0 <= c.b.value < 256
    then Some(Color(c.r.value, c.g.value, c.b.value))
    else None
  }

  lemma {:induction false} HexValueBound(s: string)
    ensures HexValue(s) < Pow16(|s|)
  {
    if |s| > 0 {
      HexValueBound(s[..|s| - 1]);
    }
  }

  function Pow16(n: nat): (p: nat)
    ensures p >= 1
  {
    if n == 0 then 1 else 16 * Pow16(n - 1)
  }

  /** Two characters read with `parseInt(_, 16)` give NaN or a value in
      [-15, 255]: at most two digits, and a sign leaves room for one. */
  lemma ChannelRange(s: string)
    requires |s| <= 2
    ensures var v := ParseIntHex(s); v.Some? ==> -15 <= v.value <= 255
  {
    var t := TrimStart(s);
    if |t| > 0 && (t[0] == '-' || t[0] == '+') {
      UnsignedRange(t[1..]);
    } else {
      UnsignedRange(t);
    }
  }

  /** Up to `n` characters give a value below 16 to the power `n`. */
  lemma UnsignedRange(u: string)
    ensures var v := UnsignedHex(u); v.Some? ==> 0 <= v.value < Pow16(|u|)
  {
    var body := if |u| >= 2 && u[0] == '0' && (u[1] == 'x' || u[1] == 'X') then u[2..] else u;
    HexValueBound(HexPrefix(body));
    Pow16Monotone(|HexPrefix(body)|, |u|);
  }

  lemma {:induction false} Pow16Monotone(m: nat, n: nat)
    requires m <= n
    ensures Pow16(m) <= Pow16(n)
  {
    if m < n {
      Pow16Monotone(m, n - 1);
    }
  }

  /** Every channel of the parse is NaN or in [-15, 255]. */
  lemma ParseHexColorRange(hexColor: string)
    ensures var c := ParseHexColor(hexColor);
      (c.r.Some? ==> -15 <= c.r.value <= 255) &&
      (c.g.Some? ==> -15 <= c.g.value <= 255) &&
      (c.b.Some? ==> -15 <= c.b.value <= 255)
  {
    var hex := RemoveFirstHash(hexColor);
    ChannelRange(Substr(hex, 0, 2));
    ChannelRange(Substr(hex, 2, 2));
    ChannelRange(Substr(hex, 4, 2));
  }

  function HexDigitChar(d: nat): (c: char)
    requires d < 16
    ensures HexDigitValue(c) == Some(d)
  {
    if d < 10 then ('0' as int + d) as char else ('a' as int + d - 10) as char
  }

  /** The two lower-case hexadecimal digits of a byte. */
  function ByteToHex(b: Byte): (s: string)
    ensures |s| == 2
  {
    [HexDigitChar(b / 16), HexDigitChar(b % 16)]
  }

  /** The code `#rrggbb` of a colour. */
  function ColorToHex(c: Color): (s: string)
    ensures |s| == 7 && s[0] == '#'
  {
    "#" + ByteToHex(c.r) + ByteToHex(c.g) + ByteToHex(c.b)
  }

  lemma {:induction false} HexPrefixOfDigits(s: string)
    requires forall i :: 0 <= i < |s| ==> HexDigitValue(s[i]).Some?
    ensures HexPrefix(s) == s
  {
    if |s| > 0 {
      HexPrefixOfDigits(s[1..]);
    }
  }

  lemma DigitIsNotSpaceOrSign(c: char)
    requires HexDigitValue(c).Some?
    ensures !IsJsWhiteSpace(c) && c != '-' && c != '+'
  {
  }

  /** A string that starts with neither white space nor a sign is read by
      `UnsignedHex` from its first character. */
  lemma ReadFromStart(s: string)
    requires |s| > 0 && !IsJsWhiteSpace(s[0]) && s[0] != '-' && s[0] != '+'
    ensures ParseIntHex(s) == UnsignedHex(s)
  {
    assert TrimStart(s) == s;
  }

  lemma ReadDigits(s: string)
    requires |s| > 0 && HexPrefix(s) == s
    requires |s| < 2 || s[0] != '0' || (s[1] != 'x' && s[1] != 'X')
    ensures UnsignedHex(s) == Some(HexValue(s))
  {
  }

  /** A run of hexadecimal digits that does not start with `0x` reads as its value. */
  lemma PlainHex(s: string)
    requires |s| > 0 && forall i :: 0 <= i < |s| ==> HexDigitValue(s[i]).Some?
    requires |s| < 2 || s[0] != '0' || (s[1] != 'x' && s[1] != 'X')
    ensures ParseIntHex(s) == Some(HexValue(s))
  {
    DigitIsNotSpaceOrSign(s[0]);
    ReadFromStart(s);
    HexPrefixOfDigits(s);
    ReadDigits(s);
  }

  /** Two digits read as the first times 16 plus the second. */
  lemma HexValuePair(s: string)
    requires |s| == 2
    ensures HexValue(s) == Digit(s[0]) * 16 + Digit(s[1])
  {
    assert HexValue(s[..1]) == Digit(s[0]) by {
      assert s[..1][..0] == [];
      assert s[..1][0] == s[0];
    }
  }

  /** The two digits of a byte are hexadecimal digits worth the byte. */
  lemma ByteDigits(b: Byte)
    ensures var s := ByteToHex(b);
      HexDigitValue(s[0]).Some? && HexDigitValue(s[1]).Some? && s[1] != 'x' && s[1] != 'X' &&
      Digit(s[0]) * 16 + Digit(s[1]) == b
  {
    var s := ByteToHex(b);
    assert Digit(s[0]) == b / 16 && Digit(s[1]) == b % 16;
  }

  lemma ByteRoundTrip(b: Byte)
    ensures ParseIntHex(ByteToHex(b)) == Some(b)
  {
    var s := ByteToHex(b);
    assert HexValue(s) == b by {
      ByteDigits(b);
      HexValuePair(s);
    }
    assert ParseIntHex(s) == Some(HexValue(s)) by {
      ByteDigits(b);
      assert forall i :: 0 <= i < |s| ==> HexDigitValue(s[i]).Some?;
      PlainHex(s);
    }
  }

  /** Reading the `#rrggbb` code of a colour gives back the colour. */
  lemma HexRoundTrip(c: Color)
    ensures ParseHexColor(ColorToHex(c)) == Channels(Some(c.r), Some(c.g), Some(c.b))
    ensures HexTarget(ColorToHex(c)) == Some(c)
  {
    var hex := ByteToHex(c.r) + ByteToHex(c.g) + ByteToHex(c.b);
    assert RemoveFirstHash(ColorToHex(c)) == hex;
    assert Substr(hex, 0, 2) == ByteToHex(c.r);
    assert Substr(hex, 2, 2) == ByteToHex(c.g);
    assert Substr(hex, 4, 2) == ByteToHex(c.b);
    ByteRoundTrip(c.r);
    ByteRoundTrip(c.g);
    ByteRoundTrip(c.b);
  }

  /** The `#` is optional: a code without one reads the same. */
  lemma HashOptional(hex: string)
    requires '#' !in hex
    ensures ParseHexColor("#" + hex) == ParseHexColor(hex)
  {
    assert RemoveFirstHash("#" + hex) == hex;
  }

  /** The three-digit shorthand is not understood: `#fff` reads as red 255,
      green 15 and a NaN blue, so no target colour results. */
  lemma ShorthandNotSupported()
    ensures ParseHexColor("#fff") == Channels(Some(255), Some(15), None)
    ensures HexTarget("#fff") == None
  {
    assert RemoveFirstHash("#fff") == "fff";
    assert Substr("fff", 0, 2) == "ff";
    assert Substr("fff", 2, 2) == "f";
    assert Substr("fff", 4, 2) == "";
    assert HexValue("ff") == 255 by {
      HexValuePair("ff");
    }
    assert HexValue("f") == 15 by {
      assert "f"[..0] == "";
    }
    PlainHex("ff");
    PlainHex("f");
    assert ParseIntHex("") == None;
  }
}
