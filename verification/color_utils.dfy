/** The colour helpers of the earlier client (bak/color_utils.cpp): `string_to_color`
    for six-digit hex strings, `graphics::color` (four 8-bit channels in a pixel union)
    built from integers, from a packed 32-bit value or from a comma list, and
    `graphics::color_transform` (four 16-bit components) with its text form, its
    arithmetic and its conversion back to a colour. The component arrays the C++ code
    loops over are local arrays here; the results are values, as the C++ objects are. */
module ColorUtils {
  import Text
  import CInt

  /** `uint8_t`. */
  newtype byte = x: int | 0 <= x < 0x100

  /** `uint16_t`. */
  newtype u16 = x: int | 0 <= x < 0x1_0000

  /** `uint32_t`. */
  newtype u32 = x: int | 0 <= x < 0x1_0000_0000

  /** An `int` stored into a `uint8_t`: the value modulo 256. */
  function ToByte(x: int): byte
  {
    (x % 0x100) as byte
  }

  /** An `int` stored into a `uint16_t`: the value modulo 65536. */
  function ToU16(x: int): u16
  {
    (x % 0x1_0000) as u16
  }

  // ---------------------------------------------------------------- string_to_color

  /** An `SDL_Color`: red, green, blue and the unused fourth byte. */
  datatype SdlColor = SdlColor(r: byte, g: byte, b: byte, unused: byte)

  predicate IsHexDigit(ch: char)
  {
    '0' <= ch <= '9' || 'a' <= ch <= 'f' || 'A' <= ch <= 'F'
  }

  function HexDigitValue(ch: char): (v: nat)
    requires IsHexDigit(ch)
    ensures v < 16
  {
    if '0' <= ch <= '9' then ch as int - '0' as int
    else if 'a' <= ch <= 'f' then ch as int - 'a' as int + 10
    else ch as int - 'A' as int + 10
  }

  /** The longest prefix made of hex digits. */
  function LeadingHex(s: string): (r: string)
    ensures |r| <= |s| && r == s[..|r|]
    ensures forall i :: 0 <= i < |r| ==> IsHexDigit(r[i])
  {
    if s != [] && IsHexDigit(s[0]) then [s[0]] + LeadingHex(s[1..]) else []
  }

  /** The value of a string of hex digits, most significant first. */
  function HexDigitsValue(s: string): nat
    requires forall i :: 0 <= i < |s| ==> IsHexDigit(s[i])
  {
    if s == [] then 0
    else
      assert IsHexDigit(s[|s| - 1]);
      16 * HexDigitsValue(s[..|s| - 1]) + HexDigitValue(s[|s| - 1])
  }

  /** The digits `strtol` reads in base 16: an optional "0x" or "0X" prefix when a hex
      digit follows it, then as many hex digits as there are. */
  function HexMagnitude(s: string): nat
  {
    if |s| >= 3 && s[0] == '0' && (s[1] == 'x' || s[1] == 'X') && IsHexDigit(s[2])
    then HexDigitsValue(LeadingHex(s[2..]))
    else HexDigitsValue(LeadingHex(s))
  }

  /** `strtol(s, NULL, 16)`: leading white space, an optional sign, then the digits; 0
      when there are none. */
  function Strtol16(s: string): int
  {
    if s != [] && Text.IsSpace(s[0]) then Strtol16(s[1..])
    else if s != [] && s[0] == '-' then 0 - HexMagnitude(s[1..])
    else if s != [] && s[0] == '+' then HexMagnitude(s[1..])
    else HexMagnitude(s)
  }

  /** `string_to_color`: a six-character string is read as a hex number whose three low
      bytes are red, green and blue; the fourth byte stays 0, and a string of any other
      length gives all zeros. */
  function StringToColor(str: string): (c: SdlColor)
    ensures c.unused == 0
    ensures |str| != 6 ==> c == SdlColor(0, 0, 0, 0)
  {
    if |str| == 6 then
      var num := Strtol16(str) % 0x1_0000_0000;
      SdlColor(ToByte(num / 0x1_0000), ToByte(num / 0x100), ToByte(num), 0)
    else SdlColor(0, 0, 0, 0)
  }

  function HexChar(d: nat): (ch: char)
    requires d < 16
    ensures IsHexDigit(ch) && HexDigitValue(ch) == d
  {
    if d < 10 then ('0' as int + d) as char else ('a' as int + d - 10) as char
  }

  /** A byte as two hex digits. */
  function HexByte(x: byte): (s: string)
    ensures |s| == 2 && forall i :: 0 <= i < 2 ==> IsHexDigit(s[i])
  {
    [HexChar(x as int / 16), HexChar(x as int % 16)]
  }

  /** Appending a byte's two digits shifts the value by a byte. */
  lemma HexDigitsValueAppend(s: string, x: byte)
    requires forall i :: 0 <= i < |s| ==> IsHexDigit(s[i])
    ensures forall i :: 0 <= i < |s + HexByte(x)| ==> IsHexDigit((s + HexByte(x))[i])
    ensures HexDigitsValue(s + HexByte(x)) == 256 * HexDigitsValue(s) + x as int
  {
    var t := s + HexByte(x);
    assert t[..|t| - 1] == s + [HexChar(x as int / 16)];
    assert (s + [HexChar(x as int / 16)])[..|s|] == s;
  }

  lemma {:induction false} LeadingHexAll(s: string)
    requires forall i :: 0 <= i < |s| ==> IsHexDigit(s[i])
    ensures LeadingHex(s) == s
  {
    if s != [] {
      LeadingHexAll(s[1..]);
    }
  }

  /** `string_to_color` reads back red, green and blue written as six hex digits. */
  lemma StringToColorOfHex(r: byte, g: byte, b: byte)
    ensures StringToColor(HexByte(r) + HexByte(g) + HexByte(b)) == SdlColor(r, g, b, 0)
  {
    var s := HexByte(r) + HexByte(g) + HexByte(b);
    var num := 0x1_0000 * (r as int) + 0x100 * (g as int) + b as int;
    Strtol16OfHex(r, g, b);
    UnpackBytes(r, g, b);
    assert Strtol16(s) % 0x1_0000_0000 == num;
  }

  /** Six hex digits read as the number they spell. */
  lemma Strtol16OfHex(r: byte, g: byte, b: byte)
    ensures |HexByte(r) + HexByte(g) + HexByte(b)| == 6
    ensures Strtol16(HexByte(r) + HexByte(g) + HexByte(b)) == 0x1_0000 * (r as int) + 0x100 * (g as int) + b as int
  {
    var s1 := HexByte(r);
    var s2 := s1 + HexByte(g);
    var s := s2 + HexByte(b);
    HexDigitsValueAppend([], r);
    assert [] + HexByte(r) == s1;
    HexDigitsValueAppend(s1, g);
    assert HexDigitsValue(s2) == 0x100 * (r as int) + g as int;
    HexDigitsValueAppend(s2, b);
    var num := 0x1_0000 * (r as int) + 0x100 * (g as int) + b as int;
    assert HexDigitsValue(s) == num;
    LeadingHexAll(s);
    assert IsHexDigit(s[0]) && IsHexDigit(s[1]);
    assert !Text.IsSpace(s[0]) && s[0] != '-' && s[0] != '+' && s[1] != 'x' && s[1] != 'X';
    assert HexMagnitude(s) == num;
  }

  /** Three bytes packed into one number, high byte first, unpack to themselves. */
  lemma UnpackBytes(r: byte, g: byte, b: byte)
    ensures var num := 0x1_0000 * (r as int) + 0x100 * (g as int) + b as int;
            num % 0x1_0000_0000 == num &&
            ToByte(num / 0x1_0000) == r && ToByte(num / 0x100) == g && ToByte(num) == b
  {
    var num := 0x1_0000 * (r as int) + 0x100 * (g as int) + b as int;
    CInt.DivModUnique(num, 0x1_0000_0000, 0, num);
    CInt.DivModUnique(num, 0x1_0000, r as int, 0x100 * (g as int) + b as int);
    CInt.DivModUnique(r as int, 0x100, 0, r as int);
    CInt.DivModUnique(num, 0x100, 0x100 * (r as int) + g as int, b as int);
    CInt.DivModUnique(0x100 * (r as int) + g as int, 0x100, r as int, g as int);
  }

  // ---------------------------------------------------------------- color

  /** `graphics::color`: red, green, blue and alpha, each a byte. */
  datatype Color = Color(r: byte, g: byte, b: byte, a: byte)

  /** `truncate_to_char`, declared in utils.hpp (not part of this model): an `int`
      clamped to 0..255. */
  function Clamp(x: int): (v: byte)
    ensures 0 <= x < 0x100 ==> v as int == x
    ensures x < 0 ==> v == 0
    ensures x >= 0x100 ==> v == 255
  {
    if x < 0 then 0 else if x > 255 then 255 else x as byte
  }

  /** `color(r, g, b, a)`: each channel clamped. */
  function ColorOf(r: int, g: int, b: int, a: int): Color
  {
    Color(Clamp(r), Clamp(g), Clamp(b), Clamp(a))
  }

  /** `color::rgba()`: the channels packed red first, in the platform-independent order
      `convert_pixel_byte_order` produces on either byte order. */
  function Rgba(c: Color): u32
  {
    (c.r as int * 0x100_0000 + c.g as int * 0x1_0000 + c.b as int * 0x100 + c.a as int) as u32
  }

  /** `color(uint32_t rgba)`: the packed value unpacked, red from the top byte. */
  function FromRgba(x: u32): Color
  {
    Color((x as int / 0x100_0000) as byte, ToByte(x as int / 0x1_0000), ToByte(x as int / 0x100), ToByte(x as int))
  }

  /** A packed value comes back unchanged (the unit test's `color(758492).rgba()`). */
  lemma RgbaOfFromRgba(x: u32)
    ensures Rgba(FromRgba(x)) == x
  {
    var v := x as int;
    var q3, q2, q1 := v / 0x100_0000, v / 0x1_0000, v / 0x100;
    CInt.DivModUnique(v, 0x100, q1, v % 0x100);
    CInt.DivModUnique(q1, 0x100, q1 / 0x100, q1 % 0x100);
    CInt.DivModUnique(v, 0x1_0000, q1 / 0x100, (q1 % 0x100) * 0x100 + v % 0x100);
    CInt.DivModUnique(q2, 0x100, q2 / 0x100, q2 % 0x100);
    CInt.DivModUnique(v, 0x100_0000, q2 / 0x100, (q2 % 0x100) * 0x1_0000 + (q1 % 0x100) * 0x100 + v % 0x100);
  }

  /** Unpacking a packed colour gives the colour back. */
  lemma FromRgbaOfRgba(c: Color)
    ensures FromRgba(Rgba(c)) == c
  {
    var v := Rgba(c) as int;
    var r, g, b, a := c.r as int, c.g as int, c.b as int, c.a as int;
    CInt.DivModUnique(v, 0x100_0000, r, g * 0x1_0000 + b * 0x100 + a);
    CInt.DivModUnique(v, 0x1_0000, r * 0x100 + g, b * 0x100 + a);
    CInt.DivModUnique(r * 0x100 + g, 0x100, r, g);
    CInt.DivModUnique(v, 0x100, r * 0x1_0000 + g * 0x100 + b, a);
    CInt.DivModUnique(r * 0x1_0000 + g * 0x100 + b, 0x100, r * 0x100 + g, b);
    CInt.DivModUnique(v, 0x100, v / 0x100, a);
  }

  /** A number of a colour string: `atoi`'s value stored into a byte. */
  function Channel(s: string): byte
  {
    ToByte(Text.Atoi(s))
  }

  /** The colour the numbers of a colour string name: four are red, green, blue and
      alpha; three are red, green and blue with alpha 255; any other count gives the
      zero colour. */
  function ColorOfComponents(v: seq<string>): Color
  {
    if |v| == 4 then Color(Channel(v[0]), Channel(v[1]), Channel(v[2]), Channel(v[3]))
    else if |v| == 3 then Color(Channel(v[0]), Channel(v[1]), Channel(v[2]), 255)
    else Color(0, 0, 0, 0)
  }

  /** `color(str)`: the colour of the comma-separated numbers. */
  function ColorOfString(str: string): Color
  {
    ColorOfComponents(Text.Split(str, ','))
  }

  /** The `color(str)` constructor: three or four numbers are written into the channel
      array one by one, alpha 255 when there are three; otherwise the whole value is 0. */
  method ParseColor(str: string) returns (c: Color)
    ensures c == ColorOfString(str)
  {
    var components := Text.Split(str, ',');
    var rgba := new byte[4];
    if |components| == 4 || |components| == 3 {
      ReadChannels(components, rgba);
      if |components| == 3 {
        rgba[3] := 255;
      }
    } else {
      rgba[0] := 0;
      rgba[1] := 0;
      rgba[2] := 0;
      rgba[3] := 0;
    }
    c := Color(rgba[0], rgba[1], rgba[2], rgba[3]);
  }

  /** The loop of the `color(str)` constructor: the i-th number into the i-th channel. */
  method ReadChannels(components: seq<string>, rgba: array<byte>)
    requires |components| <= rgba.Length
    modifies rgba
    ensures forall k :: 0 <= k < |components| ==> rgba[k] == Channel(components[k])
    ensures forall k :: |components| <= k < rgba.Length ==> rgba[k] == old(rgba[k])
  {
    var i := 0;
    while i != |components|
      invariant 0 <= i <= |components|
      invariant forall k :: 0 <= k < i ==> rgba[k] == Channel(components[k])
      invariant forall k :: i <= k < rgba.Length ==> rgba[k] == old(rgba[k])
    {
      rgba[i] := Channel(components[i]);
      i := i + 1;
    }
  }

  /** The decimal text of a byte, as written in a colour attribute. */
  function ByteText(x: byte): (s: string)
    ensures s != [] && Text.Trimmed(s) && ',' !in s
  {
    Text.IntToString(x as int)
  }

  /** A byte's text reads back as the byte. */
  lemma ChannelOfText(x: byte)
    ensures Channel(ByteText(x)) == x
  {
    Text.AtoiIntToString(x as int);
  }

  /** "r,g,b,a" reads back as the colour. */
  lemma ColorOfRgbaText(c: Color)
    ensures ColorOfString(Text.Join([ByteText(c.r), ByteText(c.g), ByteText(c.b), ByteText(c.a)], ',')) == c
  {
    var v := [ByteText(c.r), ByteText(c.g), ByteText(c.b), ByteText(c.a)];
    assert Text.Split(Text.Join(v, ','), ',') == v by {
      Text.SplitJoin(v, ',');
    }
    ChannelOfText(c.r);
    ChannelOfText(c.g);
    ChannelOfText(c.b);
    ChannelOfText(c.a);
  }

  /** "r,g,b" reads back as the colour with alpha 255. */
  lemma ColorOfRgbText(r: byte, g: byte, b: byte)
    ensures ColorOfString(Text.Join([ByteText(r), ByteText(g), ByteText(b)], ',')) == Color(r, g, b, 255)
  {
    var v := [ByteText(r), ByteText(g), ByteText(b)];
    assert Text.Split(Text.Join(v, ','), ',') == v by {
      Text.SplitJoin(v, ',');
    }
    ChannelOfText(r);
    ChannelOfText(g);
    ChannelOfText(b);
  }

  /** The colour unit tests on packing: `color(758492)` keeps its value, and the
      integer constructor packs as the packed constructor unpacks. */
  lemma ColorPackingTests()
    ensures Rgba(FromRgba(758492)) == 758492
    ensures Rgba(ColorOf(255, 255, 0, 255)) == Rgba(FromRgba(0xFFFF00FF))
  {
    RgbaOfFromRgba(758492);
    RgbaOfFromRgba(0xFFFF00FF);
  }

  /** The colour unit tests on strings: four numbers name the colour they list, and three
      numbers the colour with alpha 255. */
  lemma ColorStringTests()
    ensures Rgba(ColorOfString("255,128,255,128")) == Rgba(ColorOf(255, 128, 255, 128))
    ensures Rgba(ColorOfString("255,128,255")) == Rgba(ColorOf(255, 128, 255, 255))
  {
    TestTexts();
    ColorOfRgbaText(Color(255, 128, 255, 128));
    ColorOfRgbText(255, 128, 255);
  }

  /** The texts of the colour unit tests, as `ByteText` and `Join` write them. */
  lemma TestTexts()
    ensures Text.Join([ByteText(255), ByteText(128), ByteText(255), ByteText(128)], ',') == "255,128,255,128"
    ensures Text.Join([ByteText(255), ByteText(128), ByteText(255)], ',') == "255,128,255"
  {
    ByteTexts();
    JoinedRgb();
    JoinedRgba();
  }

  lemma JoinedRgb()
    ensures Text.Join(["255", "128", "255"], ',') == "255,128,255"
  {
    Text.JoinPair("128", "255", ',');
    Text.JoinCons("255", ["128", "255"], ',');
    assert ["255"] + ["128", "255"] == ["255", "128", "255"];
  }

  lemma JoinedRgba()
    ensures Text.Join(["255", "128", "255", "128"], ',') == "255,128,255,128"
  {
    Text.JoinPair("255", "128", ',');
    Text.JoinCons("128", ["255", "128"], ',');
    assert ["128"] + ["255", "128"] == ["128", "255", "128"];
    Text.JoinCons("255", ["128", "255", "128"], ',');
    assert ["255"] + ["128", "255", "128"] == ["255", "128", "255", "128"];
  }

  lemma ByteTexts()
    ensures ByteText(255) == "255" && ByteText(128) == "128"
  {
  }

  // ---------------------------------------------------------------- color_transform

  /** `graphics::color_transform`: red, green, blue and alpha, each 16 bits wide so that
      sums may exceed a byte. */
  datatype Transform = Transform(r: u16, g: u16, b: u16, a: u16)

  /** The component array `rgba_`. */
  function Buf(t: Transform): (s: seq<u16>)
    ensures |s| == 4
  {
    [t.r, t.g, t.b, t.a]
  }

  /** `color_transform(const color&)`: the channels widened. */
  function OfColor(c: Color): Transform
  {
    Transform(c.r as int as u16, c.g as int as u16, c.b as int as u16, c.a as int as u16)
  }

  /** A number of a transform string: `atoi`'s value stored into 16 bits. */
  function Component(s: string): u16
  {
    ToU16(Text.Atoi(s))
  }

  /** The n-th component read from the numbers `v`: 255 when there is no n-th number. */
  function ComponentAt(v: seq<string>, n: nat): u16
  {
    if n < |v| then Component(v[n]) else 255
  }

  /** The transform the numbers of a transform string name: the first four replace the
      initial 255s in order and further numbers are ignored. */
  function TransformOfComponents(v: seq<string>): Transform
  {
    Transform(ComponentAt(v, 0), ComponentAt(v, 1), ComponentAt(v, 2), ComponentAt(v, 3))
  }

  /** `color_transform(str)`: the transform of the comma-separated numbers. */
  function TransformOfString(str: string): Transform
  {
    TransformOfComponents(Text.Split(str, ','))
  }

  /** The `color_transform(str)` constructor: fill the array with 255, then overwrite one
      component per number while there is room. */
  method ParseTransform(str: string) returns (t: Transform)
    ensures t == TransformOfString(str)
  {
    var rgba := new u16[4](_ => 255);
    var components := Text.Split(str, ',');
    var n := 0;
    while n != |components|
      invariant 0 <= n <= |components|
      invariant forall k :: 0 <= k < 4 ==> rgba[k] == if k < n then Component(components[k]) else 255
    {
      if n < 4 {
        rgba[n] := Component(components[n]);
      }
      n := n + 1;
    }
    t := Transform(rgba[0], rgba[1], rgba[2], rgba[3]);
  }

  /** The decimal texts of the four components. */
  function ComponentTexts(t: Transform): (v: seq<string>)
    ensures |v| == 4
    ensures forall n :: 0 <= n < 4 ==> v[n] == Text.IntToString(Buf(t)[n] as int)
  {
    [Text.IntToString(t.r as int), Text.IntToString(t.g as int), Text.IntToString(t.b as int), Text.IntToString(t.a as int)]
  }

  /** `color_transform::to_string`: the four components in decimal, comma-separated. */
  function TransformText(t: Transform): string
  {
    Text.Join(ComponentTexts(t), ',')
  }

  /** The `to_string` loop: a comma before every component but the first. */
  method ToString(t: Transform) returns (s: string)
    ensures s == TransformText(t)
  {
    s := JoinComponents(ComponentTexts(t));
  }

  /** The loop of `to_string` over the four component texts. */
  method JoinComponents(texts: seq<string>) returns (s: string)
    requires |texts| == 4
    ensures s == Text.Join(texts, ',')
  {
    s := "";
    var n := 0;
    while n != 4
      invariant 0 <= n <= 4
      invariant s == Text.Join(texts[..n], ',')
    {
      assert texts[..n + 1] == texts[..n] + [texts[n]];
      Text.JoinSnoc(texts[..n], texts[n], ',');
      if n != 0 {
        s := s + ",";
      }
      s := s + texts[n];
      n := n + 1;
    }
    assert texts[..4] == texts;
  }

  /** A component's text reads back as the component. */
  lemma ComponentOfText(x: u16)
    ensures Component(Text.IntToString(x as int)) == x
  {
    Text.AtoiIntToString(x as int);
  }

  /** `to_string` and the string constructor are inverse: every transform reads back. */
  lemma TransformTextRoundTrip(t: Transform)
    ensures TransformOfString(TransformText(t)) == t
  {
    var v := ComponentTexts(t);
    assert Text.Split(Text.Join(v, ','), ',') == v by {
      Text.SplitJoin(v, ',');
    }
    ComponentOfText(t.r);
    ComponentOfText(t.g);
    ComponentOfText(t.b);
    ComponentOfText(t.a);
  }

  /** Numbers past the fourth change nothing. */
  lemma ExtraComponentsIgnored(v: seq<string>)
    requires |v| >= 4
    requires forall i :: 0 <= i < |v| ==> v[i] != [] && Text.Trimmed(v[i]) && ',' !in v[i]
    ensures TransformOfString(Text.Join(v, ',')) == TransformOfString(Text.Join(v[..4], ','))
  {
    assert TransformOfString(Text.Join(v, ',')) == TransformOfComponents(v) by {
      Text.SplitJoin(v, ',');
    }
    assert TransformOfString(Text.Join(v[..4], ',')) == TransformOfComponents(v[..4]) by {
      Text.SplitJoin(v[..4], ',');
    }
  }

  /** Components with no number stay at 255: three numbers leave alpha opaque. */
  lemma MissingComponentsOpaque(v: seq<string>)
    requires |v| < 4
    requires forall i :: 0 <= i < |v| ==> v[i] != [] && Text.Trimmed(v[i]) && ',' !in v[i]
    ensures forall n :: |v| <= n < 4 ==> Buf(TransformOfString(Text.Join(v, ',')))[n] == 255
  {
    var t := TransformOfComponents(v);
    assert TransformOfString(Text.Join(v, ',')) == t by {
      Text.SplitJoin(v, ',');
    }
    forall n | |v| <= n < 4
      ensures Buf(t)[n] == 255
    {
      assert Buf(t)[n] == ComponentAt(v, n);
    }
  }

  /** The anonymous `clip`: a component capped at 255. */
  function Clip(v: u16): u16
  {
    if v > 255 then 255 else v
  }

  /** `color_transform::to_color`: each component clipped into a byte. */
  function ToColor(t: Transform): Color
  {
    ColorOf(Clip(t.r) as int, Clip(t.g) as int, Clip(t.b) as int, Clip(t.a) as int)
  }

  /** Every component fits into a byte. */
  predicate Fits(t: Transform)
  {
    forall n :: 0 <= n < 4 ==> Buf(t)[n] <= 255
  }

  /** `fits_in_color`: the scan for a component above 255. */
  method FitsInColor(t: Transform) returns (fits: bool)
    ensures fits == Fits(t)
  {
    var rgba := Buf(t);
    var n := 0;
    while n != 4
      invariant 0 <= n <= 4
      invariant forall k :: 0 <= k < n ==> rgba[k] <= 255
    {
      if rgba[n] > 255 {
        return false;
      }
      n := n + 1;
    }
    return true;
  }

  /** Converting to a colour saturates each component at 255, so the conversion loses
      nothing exactly when the transform fits. */
  lemma ToColorExact(t: Transform)
    ensures forall n :: 0 <= n < 4 ==>
              Buf(OfColor(ToColor(t)))[n] == if Buf(t)[n] > 255 then 255 else Buf(t)[n]
    ensures OfColor(ToColor(t)) == t <==> Fits(t)
  {
    var c := OfColor(ToColor(t));
    assert c.r == Clip(t.r) && c.g == Clip(t.g) && c.b == Clip(t.b) && c.a == Clip(t.a);
    if Fits(t) {
      assert Buf(t)[0] <= 255 && Buf(t)[1] <= 255 && Buf(t)[2] <= 255 && Buf(t)[3] <= 255;
    } else {
      var n :| 0 <= n < 4 && Buf(t)[n] > 255;
      assert Buf(c)[n] != Buf(t)[n];
    }
  }

  /** `operator+`: red, green and blue add (in 16 bits) and alpha is the larger one. */
  function Plus(x: Transform, y: Transform): (r: Transform)
    ensures r.a == x.a || r.a == y.a
    ensures r.a >= x.a && r.a >= y.a
    ensures forall n :: 0 <= n < 3 && Buf(x)[n] as int + Buf(y)[n] as int < 0x1_0000 ==>
              Buf(r)[n] as int == Buf(x)[n] as int + Buf(y)[n] as int
  {
    Transform(ToU16(x.r as int + y.r as int), ToU16(x.g as int + y.g as int), ToU16(x.b as int + y.b as int),
              if x.a < y.a then y.a else x.a)
  }

  /** One component of `operator-`: the difference, or 0 when it would not be positive. */
  function Sat(x: u16, y: u16): u16
  {
    if x > y then x - y else 0
  }

  /** `operator-`: red, green and blue subtract, stopping at 0; alpha is the left
      operand's, capped at 255. */
  function Minus(x: Transform, y: Transform): (r: Transform)
    ensures forall n :: 0 <= n < 3 ==> Buf(r)[n] <= Buf(x)[n] && (Buf(r)[n] == 0 <==> Buf(x)[n] <= Buf(y)[n])
    ensures r.a <= 255 && (x.a <= 255 ==> r.a == x.a)
  {
    Transform(Sat(x.r, y.r), Sat(x.g, y.g), Sat(x.b, y.b), if x.a > 255 then 255 else x.a)
  }

  /** The `operator-` loop over the copied component array. */
  method Subtract(x: Transform, y: Transform) returns (r: Transform)
    ensures r == Minus(x, y)
  {
    var other := Buf(y);
    var result := new u16[4];
    result[0], result[1], result[2], result[3] := x.r, x.g, x.b, x.a;
    var n := 0;
    while n != 3
      invariant 0 <= n <= 3
      invariant forall k :: 0 <= k < 4 ==> result[k] == if k < n then Sat(Buf(x)[k], other[k]) else Buf(x)[k]
    {
      if result[n] > other[n] {
        result[n] := result[n] - other[n];
      } else {
        result[n] := 0;
      }
      n := n + 1;
    }
    if result[3] > 255 {
      result[3] := 255;
    }
    r := Transform(result[0], result[1], result[2], result[3]);
  }

  /** Addition does not depend on the order of the operands. */
  lemma PlusCommutes(x: Transform, y: Transform)
    ensures Plus(x, y) == Plus(y, x)
  {
  }

  /** Subtracting what was added undoes the addition, as long as no sum wraps and the
      left alpha is the larger one and fits a byte. */
  lemma MinusUndoesPlus(x: Transform, y: Transform)
    requires forall n :: 0 <= n < 3 ==> Buf(x)[n] as int + Buf(y)[n] as int < 0x1_0000
    requires y.a <= x.a <= 255
    ensures Minus(Plus(x, y), y) == x
  {
    assert Buf(x)[0] == x.r && Buf(x)[1] == x.g && Buf(x)[2] == x.b;
  }
}
