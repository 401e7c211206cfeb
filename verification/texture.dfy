/** The pixel and size helpers of the earlier client's textures (bak/texture.cpp):
    `next_power_of_2` and `next_pot`, the conversion of a 24-bit surface into a 32-bit
    one with an opaque alpha channel, the colour-keyed transparency pass, and the mapping
    of a 32-bit colour to 4 bits per channel. Pixel buffers are byte arrays changed in
    place, as the C++ pointers change them. */
module Texture {
  import CInt
  import opened ColorUtils

  // ---------------------------------------------------------------- powers of two

  /** A power of two as an unsigned 32-bit value: one bit set. */
  predicate IsPowerOfTwo(x: bv32)
  {
    x != 0 && x & (x - 1) == 0
  }

  /** `next_power_of_2`: the bits below the highest set bit of `n - 1` are all set, then
      one is added. For 1 <= n <= 2^31 this is the smallest power of two not below `n`;
      `n == 0` wraps to all ones and back to 0, and so does any `n` above 2^31. */
  method NextPowerOf2(n: bv32) returns (r: bv32)
    ensures 0 < n <= 0x8000_0000 ==> IsPowerOfTwo(r) && n <= r && r >> 1 < n
    ensures (n == 0 || n > 0x8000_0000) ==> r == 0
  {
    var m := n - 1;
    m := m | (m >> 1);
    m := m | (m >> 2);
    m := m | (m >> 4);
    m := m | (m >> 8);
    m := m | (m >> 16);
    m := m + 1;
    r := m;
  }

  /** A power of two as an unbounded integer. */
  predicate IsPow2(x: int)
    decreases if x < 0 then 0 else x
  {
    x == 1 || (x > 1 && x % 2 == 0 && IsPow2(x / 2))
  }

  /** `next_pot`: doubling from 1 while below `n`. The result is the smallest power of
      two not below `n`, and 1 for any `n <= 1`. Past 2^30 the `int` doubling overflows,
      which the source leaves undefined, so larger `n` are excluded. */
  method NextPot(n: int) returns (num: int)
    requires n <= 0x4000_0000
    ensures IsPow2(num) && n <= num
    ensures num == 1 || num / 2 < n
    ensures n <= 1 ==> num == 1
  {
    num := 1;
    while num < n
      invariant IsPow2(num) && (num == 1 || num / 2 < n)
      decreases n - num
    {
      assert num * 2 < 0x8000_0000;
      num := num * 2;
    }
  }

  // ---------------------------------------------------------------- add_alpha_channel_to_surface

  /** Where row `y` of the destination starts: `dst_w` pixels of 4 bytes per row. */
  function RowStart(y: nat, dstW: nat): nat
  {
    y * dstW * 4
  }

  /** Row `y`'s `srcW` pixels lie inside both buffers: 4 bytes each at the destination,
      3 bytes each at the source, whose rows are `pitch` bytes apart. */
  predicate RowFits(dstLen: nat, srcLen: nat, dstW: nat, srcW: nat, pitch: nat, y: nat)
  {
    RowStart(y, dstW) + 4 * srcW <= dstLen && y * pitch + 3 * srcW <= srcLen
  }

  /** `d` after one row: the `w` pixels from `ds` on take the red, green and blue bytes of
      the pixels from `ss` on in `s`, and an alpha of 0xFF; the other bytes are kept. */
  function RowCopied(d: seq<byte>, s: seq<byte>, ds: nat, ss: nat, w: nat): (r: seq<byte>)
    requires ds + 4 * w <= |d| && ss + 3 * w <= |s|
    ensures |r| == |d|
  {
    seq(|d|, i requires 0 <= i < |d| =>
      if ds <= i < ds + 4 * w then
        (if (i - ds) % 4 == 3 then 0xFF else s[ss + 3 * ((i - ds) / 4) + (i - ds) % 4])
      else d[i])
  }

  /** `d` after the first `h` rows. */
  function AlphaAdded(d: seq<byte>, s: seq<byte>, dstW: nat, srcW: nat, pitch: nat, h: nat): (r: seq<byte>)
    requires forall y :: 0 <= y < h ==> RowFits(|d|, |s|, dstW, srcW, pitch, y)
    ensures |r| == |d|
  {
    if h == 0 then d
    else
      assert RowFits(|d|, |s|, dstW, srcW, pitch, h - 1);
      RowCopied(AlphaAdded(d, s, dstW, srcW, pitch, h - 1), s, RowStart(h - 1, dstW), (h - 1) * pitch, srcW)
  }

  /** When the last row fits, so do the ones above it. */
  lemma RowsFit(dstLen: nat, srcLen: nat, dstW: nat, srcW: nat, pitch: nat, h: nat)
    requires h > 0 && RowFits(dstLen, srcLen, dstW, srcW, pitch, h - 1)
    ensures forall y :: 0 <= y < h ==> RowFits(dstLen, srcLen, dstW, srcW, pitch, y)
  {
    forall y | 0 <= y < h
      ensures RowFits(dstLen, srcLen, dstW, srcW, pitch, y)
    {
      CInt.MulLe(y, h - 1, dstW * 4);
      CInt.MulLe(y, h - 1, pitch);
      assert RowStart(y, dstW) == y * (dstW * 4) && RowStart(h - 1, dstW) == (h - 1) * (dstW * 4);
    }
  }

  /** A row ends before the next one starts when it is no wider than the destination. */
  lemma RowsApart(y: nat, z: nat, dstW: nat, srcW: nat)
    requires y < z && srcW <= dstW
    ensures RowStart(y, dstW) + 4 * srcW <= RowStart(z, dstW)
  {
    CInt.MulLe(y + 1, z, dstW * 4);
    assert RowStart(y, dstW) + 4 * dstW == (y + 1) * (dstW * 4);
    assert RowStart(z, dstW) == z * (dstW * 4);
  }

  /** Each byte of pixel `x` of row `y` is the matching source byte, and its alpha is
      0xFF. */
  lemma {:induction false} AlphaAddedCopies(d: seq<byte>, s: seq<byte>, dstW: nat, srcW: nat, pitch: nat, h: nat,
                                            y: nat, x: nat, c: nat)
    requires srcW <= dstW
    requires forall z :: 0 <= z < h ==> RowFits(|d|, |s|, dstW, srcW, pitch, z)
    requires y < h && x < srcW && c < 4
    ensures RowFits(|d|, |s|, dstW, srcW, pitch, y)
    ensures AlphaAdded(d, s, dstW, srcW, pitch, h)[RowStart(y, dstW) + 4 * x + c]
            == if c == 3 then 0xFF else s[y * pitch + (3 * x + c)]
  {
    var i := RowStart(y, dstW) + 4 * x + c;
    assert RowFits(|d|, |s|, dstW, srcW, pitch, h - 1);
    var prev := AlphaAdded(d, s, dstW, srcW, pitch, h - 1);
    if y < h - 1 {
      assert AlphaAdded(d, s, dstW, srcW, pitch, h)[i] == prev[i] by {
        RowsApart(y, h - 1, dstW, srcW);
        CInt.MulLe(0, h - 1, pitch);
        RowCopiedOutside(prev, s, RowStart(h - 1, dstW), (h - 1) * pitch, srcW, i);
      }
      AlphaAddedCopies(d, s, dstW, srcW, pitch, h - 1, y, x, c);
    } else {
      RowCopiedInside(prev, s, RowStart(y, dstW), y * pitch, srcW, x, c);
    }
  }

  /** Byte `c` of pixel `x` of a copied row is the matching source byte, or 0xFF for
      the alpha byte. */
  lemma RowCopiedInside(d: seq<byte>, s: seq<byte>, ds: nat, ss: nat, w: nat, x: nat, c: nat)
    requires ds + 4 * w <= |d| && ss + 3 * w <= |s| && x < w && c < 4
    ensures RowCopied(d, s, ds, ss, w)[ds + 4 * x + c] == if c == 3 then 0xFF else s[ss + 3 * x + c]
  {
    var j := 4 * x + c;
    assert j / 4 == x && j % 4 == c;
    assert (ds + j) - ds == j;
  }

  /** A byte outside a copied row keeps its value. */
  lemma RowCopiedOutside(d: seq<byte>, s: seq<byte>, ds: nat, ss: nat, w: nat, i: nat)
    requires ds + 4 * w <= |d| && ss + 3 * w <= |s| && i < |d| && !(ds <= i < ds + 4 * w)
    ensures RowCopied(d, s, ds, ss, w)[i] == d[i]
  {
  }

  /** A byte outside every row's pixels keeps its value. */
  lemma {:induction false} AlphaAddedKeeps(d: seq<byte>, s: seq<byte>, dstW: nat, srcW: nat, pitch: nat, h: nat, i: nat)
    requires forall z :: 0 <= z < h ==> RowFits(|d|, |s|, dstW, srcW, pitch, z)
    requires i < |d|
    requires forall y :: 0 <= y < h ==> !(RowStart(y, dstW) <= i < RowStart(y, dstW) + 4 * srcW)
    ensures AlphaAdded(d, s, dstW, srcW, pitch, h)[i] == d[i]
  {
    if h > 0 {
      AlphaAddedKeeps(d, s, dstW, srcW, pitch, h - 1, i);
    }
  }

  /** One more pixel of a row: three copied bytes and an opaque alpha. */
  lemma RowCopiedStep(d: seq<byte>, s: seq<byte>, ds: nat, ss: nat, x: nat)
    requires ds + 4 * (x + 1) <= |d| && ss + 3 * (x + 1) <= |s|
    ensures RowCopied(d, s, ds, ss, x + 1)
            == RowCopied(d, s, ds, ss, x)[ds + 4 * x := s[ss + 3 * x]][ds + 4 * x + 1 := s[ss + 3 * x + 1]]
                                         [ds + 4 * x + 2 := s[ss + 3 * x + 2]][ds + 4 * x + 3 := 0xFF]
  {
  }

  /** The inner loop of `add_alpha_channel_to_surface`: one row, pixel by pixel. */
  method CopyRow(dst: array<byte>, src: array<byte>, dstStart: nat, srcStart: nat, width: nat)
    requires dst != src
    requires dstStart + 4 * width <= dst.Length && srcStart + 3 * width <= src.Length
    modifies dst
    ensures dst[..] == RowCopied(old(dst[..]), src[..], dstStart, srcStart, width)
  {
    var d, s := dstStart, srcStart;
    var x := 0;
    while x < width
      invariant 0 <= x <= width && d == dstStart + 4 * x && s == srcStart + 3 * x
      invariant dst[..] == RowCopied(old(dst[..]), src[..], dstStart, srcStart, x)
    {
      RowCopiedStep(old(dst[..]), src[..], dstStart, srcStart, x);
      dst[d] := src[s];
      dst[d + 1] := src[s + 1];
      dst[d + 2] := src[s + 2];
      dst[d + 3] := 0xFF;
      d, s, x := d + 4, s + 3, x + 1;
    }
  }

  /** `add_alpha_channel_to_surface`: a destination narrower than the source fails the
      `ASSERT_GE` and nothing is written; otherwise every source row is copied into the
      top-left corner of the destination, row by row, with an opaque alpha. */
  method AddAlphaChannel(dst: array<byte>, src: array<byte>, dstW: nat, srcW: nat, srcH: nat, srcPitch: nat)
    returns (ok: bool)
    requires dst != src
    requires srcW <= dstW && srcH > 0 ==> RowFits(dst.Length, src.Length, dstW, srcW, srcPitch, srcH - 1)
    modifies dst
    ensures ok <==> srcW <= dstW
    ensures !ok ==> dst[..] == old(dst[..])
    ensures ok ==> (forall y :: 0 <= y < srcH ==> RowFits(dst.Length, src.Length, dstW, srcW, srcPitch, y))
                   && dst[..] == AlphaAdded(old(dst[..]), src[..], dstW, srcW, srcPitch, srcH)
  {
    if dstW < srcW {
      return false;
    }
    if srcH > 0 {
      RowsFit(dst.Length, src.Length, dstW, srcW, srcPitch, srcH);
    }
    var y, rowStart, srcStart := 0, 0, 0;
    while y < srcH
      invariant 0 <= y <= srcH && rowStart == RowStart(y, dstW) && srcStart == y * srcPitch
      invariant dst[..] == AlphaAdded(old(dst[..]), src[..], dstW, srcW, srcPitch, y)
    {
      assert RowFits(dst.Length, src.Length, dstW, srcW, srcPitch, y);
      CopyRow(dst, src, rowStart, srcStart, srcW);
      assert RowStart(y + 1, dstW) == rowStart + dstW * 4;
      rowStart := rowStart + dstW * 4;
      srcStart := srcStart + srcPitch;
      y := y + 1;
    }
    ok := true;
  }

  // ---------------------------------------------------------------- set_alpha_for_transparent_colors_in_rgba_surface

  /** The two colours the sprite sheets use for transparency: the brown background
      0x6f6d51 and the red border 0xf9303d. */
  predicate IsKeyColor(r: byte, g: byte, b: byte)
  {
    (r == 0x6f && g == 0x6d && b == 0x51) || (r == 0xf9 && g == 0x30 && b == 0x3d)
  }

  /** `p` with the alpha byte of each of the first `n` pixels cleared when the pixel is a
      key colour. */
  function KeyedAlpha(p: seq<byte>, n: nat): (r: seq<byte>)
    requires 4 * n <= |p|
    ensures |r| == |p|
  {
    seq(|p|, i requires 0 <= i < |p| =>
      if i < 4 * n && i % 4 == 3 && IsKeyColor(p[i - 3], p[i - 2], p[i - 1]) then 0 else p[i])
  }

  /** One more pixel of the pass; that pixel is still untouched before it. */
  lemma KeyedAlphaStep(p: seq<byte>, n: nat)
    requires 4 * (n + 1) <= |p|
    ensures var q := KeyedAlpha(p, n);
            q[4 * n] == p[4 * n] && q[4 * n + 1] == p[4 * n + 1] && q[4 * n + 2] == p[4 * n + 2]
    ensures KeyedAlpha(p, n + 1)
            == KeyedAlpha(p, n)[4 * n + 3 := if IsKeyColor(p[4 * n], p[4 * n + 1], p[4 * n + 2]) then 0 else p[4 * n + 3]]
  {
  }

  /** `set_alpha_for_transparent_colors_in_rgba_surface` on the `w * h` pixels. */
  method SetAlphaForTransparentColors(pixels: array<byte>, w: nat, h: nat)
    requires 4 * (w * h) <= pixels.Length
    modifies pixels
    ensures pixels[..] == KeyedAlpha(old(pixels[..]), w * h)
  {
    ghost var p := pixels[..];
    var npixels := w * h;
    var n := 0;
    while n != npixels
      invariant 0 <= n <= npixels
      invariant pixels[..] == KeyedAlpha(p, n)
    {
      KeyedAlphaStep(p, n);
      var at := n * 4;
      if (pixels[at] == 0x6f && pixels[at + 1] == 0x6d && pixels[at + 2] == 0x51) ||
         (pixels[at] == 0xf9 && pixels[at + 1] == 0x30 && pixels[at + 2] == 0x3d) {
        pixels[at + 3] := 0;
      }
      n := n + 1;
    }
  }

  /** Within the pass, colour bytes never change and an alpha becomes 0 exactly for a key
      colour; bytes past the pixels are kept. */
  lemma KeyedAlphaPixel(p: seq<byte>, n: nat, k: nat, c: nat)
    requires 4 * n <= |p| && k < n && c < 4
    ensures c < 3 ==> KeyedAlpha(p, n)[4 * k + c] == p[4 * k + c]
    ensures c == 3 ==> KeyedAlpha(p, n)[4 * k + 3]
                       == if IsKeyColor(p[4 * k], p[4 * k + 1], p[4 * k + 2]) then 0 else p[4 * k + 3]
  {
    assert (4 * k + c) % 4 == c;
  }

  /** Running the pass twice changes nothing more. */
  lemma KeyedAlphaIdempotent(p: seq<byte>, n: nat)
    requires 4 * n <= |p|
    ensures KeyedAlpha(KeyedAlpha(p, n), n) == KeyedAlpha(p, n)
  {
    var q := KeyedAlpha(p, n);
    forall i | 0 <= i < |p|
      ensures KeyedAlpha(q, n)[i] == q[i]
    {
      if i < 4 * n && i % 4 == 3 {
        ChannelsBeforeAlpha(i);
        assert q[i - 3] == p[i - 3] && q[i - 2] == p[i - 2] && q[i - 1] == p[i - 1];
      }
    }
    assert |KeyedAlpha(q, n)| == |q|;
  }

  /** The three bytes before an alpha byte are not alpha bytes. */
  lemma ChannelsBeforeAlpha(i: int)
    requires i >= 3 && i % 4 == 3
    ensures (i - 3) % 4 == 0 && (i - 2) % 4 == 1 && (i - 1) % 4 == 2
  {
  }

  // ---------------------------------------------------------------- map_color_to_16bpp

  /** How many entries of `table_8bits_to_4bits` hold the value `v`: nine 0s, seventeen
      of each of 1 to 14, nine 15s. */
  function RunLength(v: nat): nat
  {
    if v == 0 || v == 15 then 9 else 17
  }

  /** The first `k` runs of the table. */
  function Runs(k: nat): (t: seq<int>)
    ensures |t| == if k == 0 then 0 else if k <= 15 then 17 * k - 8 else 17 * k - 16
  {
    if k == 0 then [] else Runs(k - 1) + seq(RunLength(k - 1), _ => k - 1)
  }

  /** `table_8bits_to_4bits`, written as its sixteen runs. */
  const Table8To4: seq<int> := Runs(16)

  /** Every entry of the first `k` runs is its index divided by 17 and rounded to the
      nearest integer. */
  lemma {:induction false} RunsRound(k: nat)
    requires k <= 16
    ensures forall b :: 0 <= b < |Runs(k)| ==> Runs(k)[b] == (2 * b + 17) / 34
  {
    if k > 0 {
      RunsRound(k - 1);
      var prev := Runs(k - 1);
      forall b | |prev| <= b < |Runs(k)|
        ensures Runs(k)[b] == (2 * b + 17) / 34
      {
        assert Runs(k)[b] == k - 1;
        CInt.DivModUnique(2 * b + 17, 34, k - 1, 2 * b + 17 - 34 * (k - 1));
      }
    }
  }

  /** The table maps a channel to the nearest of 16 levels. */
  lemma TableRounds()
    ensures |Table8To4| == 256
    ensures forall b :: 0 <= b < 256 ==> Table8To4[b] == (2 * b + 17) / 34
  {
    RunsRound(16);
  }

  /** One channel of `map_color_to_16bpp`: the table's 4-bit value in both halves of
      the byte. */
  function Level(b: byte): (l: byte)
    ensures l as int == 17 * ((2 * b as int + 17) / 34)
  {
    TableRounds();
    (Table8To4[b] * 0x11) as byte
  }

  /** `map_color_to_16bpp`: every byte of the colour mapped to its level (the shifted
      parts do not overlap, so `|` is `+`). */
  function MapColorTo16bpp(color: u32): u32
  {
    var c := FromRgba(color);
    Rgba(Color(Level(c.r), Level(c.g), Level(c.b), Level(c.a)))
  }

  /** Each byte of the result is the level of the same byte of the colour. */
  lemma MapColorBytes(color: u32)
    ensures var c := FromRgba(color);
            FromRgba(MapColorTo16bpp(color)) == Color(Level(c.r), Level(c.g), Level(c.b), Level(c.a))
  {
    var c := FromRgba(color);
    FromRgbaOfRgba(Color(Level(c.r), Level(c.g), Level(c.b), Level(c.a)));
  }

  /** A level is a multiple of 17 at most 8 away from the channel, levels keep the order
      of the channels, and a level maps to itself. */
  lemma LevelNearest(b: byte, b': byte)
    ensures Level(b) as int % 17 == 0
    ensures -8 <= Level(b) as int - b as int <= 8
    ensures b <= b' ==> Level(b) <= Level(b')
    ensures Level(Level(b)) == Level(b)
  {
    LevelIsNear(b);
    LevelMonotone(b, b');
    LevelFixed(b);
  }

  /** A level is a multiple of 17 within 8 of its channel. */
  lemma LevelIsNear(b: byte)
    ensures Level(b) as int % 17 == 0
    ensures -8 <= Level(b) as int - b as int <= 8
  {
    var q := LevelQuotient(b);
    CInt.DivModUnique(Level(b) as int, 17, q, 0);
  }

  /** Levels keep the order of the channels. */
  lemma LevelMonotone(b: byte, b': byte)
    ensures b <= b' ==> Level(b) <= Level(b')
  {
    var q := LevelQuotient(b);
    var q' := LevelQuotient(b');
    if b <= b' && q > q' {
      assert false;
    }
  }

  /** A level is its own level. */
  lemma LevelFixed(b: byte)
    ensures Level(Level(b)) == Level(b)
  {
    var q := LevelQuotient(b);
    LevelIs(Level(b), q);
  }

  /** The level of a channel whose double is bracketed by `34 * q`. */
  lemma LevelIs(b: byte, q: int)
    requires 34 * q <= 2 * b as int + 17 < 34 * q + 34
    ensures Level(b) as int == 17 * q
  {
    CInt.DivModUnique(2 * b as int + 17, 34, q, 2 * b as int + 17 - 34 * q);
  }

  /** A level is 17 times the quotient that brackets twice the channel. */
  lemma LevelQuotient(b: byte) returns (q: int)
    ensures Level(b) as int == 17 * q && 34 * q <= 2 * b as int + 17 < 34 * q + 34
  {
    q := (2 * b as int + 17) / 34;
    var r := (2 * b as int + 17) % 34;
    assert 2 * b as int + 17 == 34 * q + r;
  }
}
