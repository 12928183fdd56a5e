/** The DXT1/DXT5 codec: bounding-box endpoints, nearest palette entries, 2-bit and 3-bit indices. What a block
    encodes to is a function of its sixteen pixels, and an image is its blocks row by row; the encoder's methods
    follow the program's loops. The decoder paints one block after the other and stops at the first one that is
    not wholly there. Channel values wrap where the program converts them to bytes. */
module Dxt {
  import opened Bytes
  import opened BitFields

  const DXT1 := 13
  const DXT3 := 14
  const DXT5 := 15

  datatype Rgb = Rgb(r: nat, g: nat, b: nat)
  datatype Pixel = Pixel(r: byte, g: byte, b: byte, a: byte)

  /** Rows of pixels. */
  type Image = seq<seq<Pixel>>

  predicate Sized(img: Image, w: nat, h: nat) {
    |img| == h && forall y :: 0 <= y < h ==> |img[y]| == w
  }

  function Min(a: int, b: int): int {
    if a < b then a else b
  }

  function Max(a: int, b: int): int {
    if a > b then a else b
  }

  // ---- Colours ----

  function To565(r: byte, g: byte, b: byte): (c: nat)
    ensures c < 0x1_0000
  {
    r / 8 * 2048 + g / 4 * 32 + b / 8
  }

  function Wide5(v: nat): nat {
    v * 255 / 31
  }

  function Wide6(v: nat): nat {
    v * 255 / 63
  }

  function From565(c: nat): (q: Rgb)
    ensures q.r < 256 && q.g < 256 && q.b < 256
  {
    Rgb(Wide5(c / 2048 % 32), Wide6(c / 32 % 64), Wide5(c % 32))
  }

  function Channel(p: Pixel, c: nat): byte {
    if c == 0 then p.r else if c == 1 then p.g else if c == 2 then p.b else p.a
  }

  /** A channel's largest value in a block. */
  function Most(px: seq<Pixel>, c: nat): (m: byte)
    ensures forall i :: 0 <= i < |px| ==> Channel(px[i], c) <= m
    ensures px != [] ==> exists i :: 0 <= i < |px| && Channel(px[i], c) == m
  {
    if px == [] then 0
    else
      var n := |px| - 1;
      var m := Most(px[..n], c);
      assert forall i :: 0 <= i < n ==> px[..n][i] == px[i];
      Max(m, Channel(px[n], c))
  }

  /** A channel's smallest value in a block. */
  function Least(px: seq<Pixel>, c: nat): (m: byte)
    ensures forall i :: 0 <= i < |px| ==> m <= Channel(px[i], c)
    ensures px != [] ==> exists i :: 0 <= i < |px| && Channel(px[i], c) == m
  {
    if px == [] then 255
    else
      var n := |px| - 1;
      var m := Least(px[..n], c);
      assert forall i :: 0 <= i < n ==> px[..n][i] == px[i];
      Min(m, Channel(px[n], c))
  }

  function High(px: seq<Pixel>): nat {
    Max(To565(Most(px, 0), Most(px, 1), Most(px, 2)), To565(Least(px, 0), Least(px, 1), Least(px, 2)))
  }

  function Lowest(px: seq<Pixel>): nat {
    Min(To565(Most(px, 0), Most(px, 1), Most(px, 2)), To565(Least(px, 0), Least(px, 1), Least(px, 2)))
  }

  /** Two parts of a and one of b. */
  function Third(a: Rgb, b: Rgb): Rgb {
    Rgb((2 * a.r + b.r) / 3, (2 * a.g + b.g) / 3, (2 * a.b + b.b) / 3)
  }

  function Middle(a: Rgb, b: Rgb): Rgb {
    Rgb((a.r + b.r) / 2, (a.g + b.g) / 2, (a.b + b.b) / 2)
  }

  /** The four entries a decoder has: two endpoints and two thirds, or the half and black. */
  function Palette(c0: nat, c1: nat, four: bool): (pal: seq<Rgb>)
    ensures |pal| == 4
  {
    var a, b := From565(c0), From565(c1);
    if four then [a, b, Third(a, b), Third(b, a)]
    else [a, b, Middle(a, b), Rgb(0, 0, 0)]
  }

  function Square(n: int): nat {
    n * n
  }

  function Dist(p: Pixel, q: Rgb): nat {
    Square(p.r - q.r) + Square(p.g - q.g) + Square(p.b - q.b)
  }

  function Dists(p: Pixel, pal: seq<Rgb>): (ds: seq<nat>)
    ensures |ds| == |pal| && forall k :: 0 <= k < |pal| ==> ds[k] == Dist(p, pal[k])
  {
    seq(|pal|, k requires 0 <= k < |pal| => Dist(p, pal[k]))
  }

  /** The first of the smallest. */
  function Nearest(ds: seq<nat>): (k: nat)
    requires ds != []
    ensures k < |ds|
    ensures forall j :: 0 <= j < |ds| ==> ds[k] <= ds[j]
    ensures forall j :: 0 <= j < k ==> ds[k] < ds[j]
  {
    if |ds| == 1 then 0
    else
      var n := |ds| - 1;
      var k := Nearest(ds[..n]);
      assert forall j :: 0 <= j < n ==> ds[..n][j] == ds[j];
      if ds[n] < ds[k] then n else k
  }

  function ColourIndices(px: seq<Pixel>, pal: seq<Rgb>): (ix: seq<nat>)
    requires pal != []
    ensures |ix| == |px| && forall i :: 0 <= i < |px| ==> ix[i] == Nearest(Dists(px[i], pal))
  {
    seq(|px|, i requires 0 <= i < |px| => Nearest(Dists(px[i], pal)))
  }

  /** A solid block leaves every index at 0. */
  function ColourBits(px: seq<Pixel>): nat {
    if High(px) == Lowest(px) then 0
    else Pack(ColourIndices(px, Palette(High(px), Lowest(px), true)), 2)
  }

  function ColourBlock(px: seq<Pixel>): (s: seq<byte>)
    ensures |s| == 8
  {
    ToLE(High(px), 2) + ToLE(Lowest(px), 2) + ToLE(ColourBits(px), 4)
  }

  // ---- Alpha ----

  /** The six entries between the endpoints. Their weights add up to 8 over 7. */
  function EightAlphas(a0: byte, a1: byte): (t: seq<nat>)
    ensures |t| == 8
  {
    [a0, a1, (7 * a0 + a1) / 7, (6 * a0 + 2 * a1) / 7, (5 * a0 + 3 * a1) / 7, (4 * a0 + 4 * a1) / 7,
     (3 * a0 + 5 * a1) / 7, (2 * a0 + 6 * a1) / 7]
  }

  /** The decoder's table. Where the endpoints are not in order, weights adding up to 6 over 5, and 0 and 255. */
  function AlphaTable(a0: byte, a1: byte): (t: seq<nat>)
    ensures |t| == 8
  {
    if a0 > a1 then EightAlphas(a0, a1)
    else [a0, a1, (5 * a0 + a1) / 5, (4 * a0 + 2 * a1) / 5, (3 * a0 + 3 * a1) / 5, (2 * a0 + 4 * a1) / 5, 0, 255]
  }

  function Gap(a: int, b: int): nat {
    if a < b then b - a else a - b
  }

  function AlphaDists(a: byte, table: seq<nat>): (ds: seq<nat>)
    ensures |ds| == |table| && forall k :: 0 <= k < |table| ==> ds[k] == Gap(a, table[k])
  {
    seq(|table|, k requires 0 <= k < |table| => Gap(a, table[k]))
  }

  function AlphaIndices(px: seq<Pixel>, table: seq<nat>): (ix: seq<nat>)
    requires table != []
    ensures |ix| == |px| && forall i :: 0 <= i < |px| ==> ix[i] == Nearest(AlphaDists(px[i].a, table))
  {
    seq(|px|, i requires 0 <= i < |px| => Nearest(AlphaDists(px[i].a, table)))
  }

  function AlphaBits(px: seq<Pixel>): nat {
    if Most(px, 3) == Least(px, 3) then 0
    else Pack(AlphaIndices(px, EightAlphas(Most(px, 3), Least(px, 3))), 3)
  }

  function AlphaBlock(px: seq<Pixel>): (s: seq<byte>)
    ensures |s| == 8
  {
    [Most(px, 3), Least(px, 3)] + ToLE(AlphaBits(px), 6)
  }

  // ---- Blocks and images ----

  /** How many blocks wide, or high. */
  function Blocks(n: nat): (b: nat)
    ensures b >= 1 && n <= 4 * b
  {
    Max(1, (n + 3) / 4)
  }

  /** The bytes the encoder writes for a block: only DXT5 gets an alpha half. */
  function Written(format: nat): nat {
    if format == DXT5 then 16 else 8
  }

  function Block(px: seq<Pixel>, format: nat): (s: seq<byte>)
    ensures |s| == Written(format)
  {
    if format == DXT5 then AlphaBlock(px) + ColourBlock(px) else ColourBlock(px)
  }

  /** Sixteen pixels, with the image's edge repeated where it does not reach a multiple of four. */
  function BlockAt(img: Image, w: nat, h: nat, col: nat, row: nat): (px: seq<Pixel>)
    requires Sized(img, w, h) && w > 0 && h > 0
    ensures |px| == 16
    ensures forall i :: 0 <= i < 16 ==> px[i] == img[Min(row * 4 + i / 4, h - 1)][Min(col * 4 + i % 4, w - 1)]
  {
    seq(16, i requires 0 <= i < 16 => img[Min(row * 4 + i / 4, h - 1)][Min(col * 4 + i % 4, w - 1)])
  }

  function RowBytes(img: Image, w: nat, h: nat, format: nat, row: nat, n: nat): seq<byte>
    requires Sized(img, w, h) && w > 0 && h > 0
  {
    if n == 0 then [] else RowBytes(img, w, h, format, row, n - 1) + Block(BlockAt(img, w, h, n - 1, row), format)
  }

  function RowsBytes(img: Image, w: nat, h: nat, format: nat, n: nat): seq<byte>
    requires Sized(img, w, h) && w > 0 && h > 0
  {
    if n == 0 then [] else RowsBytes(img, w, h, format, n - 1) + RowBytes(img, w, h, format, n - 1, Blocks(w))
  }

  function Encoded(img: Image, w: nat, h: nat, format: nat): seq<byte>
    requires Sized(img, w, h) && w > 0 && h > 0
  {
    RowsBytes(img, w, h, format, Blocks(h))
  }

  // ---- The encoder ----

  method GatherBlock(img: Image, w: nat, h: nat, col: nat, row: nat) returns (px: seq<Pixel>)
    requires Sized(img, w, h) && w > 0 && h > 0
    ensures px == BlockAt(img, w, h, col, row)
  {
    px := [];
    for i := 0 to 16
      invariant px == BlockAt(img, w, h, col, row)[..i]
    {
      px := px + [img[Min(row * 4 + i / 4, h - 1)][Min(col * 4 + i % 4, w - 1)]];
    }
  }

  method Extremes(px: seq<Pixel>) returns (lo: Pixel, hi: Pixel)
    ensures lo == Pixel(Least(px, 0), Least(px, 1), Least(px, 2), Least(px, 3))
    ensures hi == Pixel(Most(px, 0), Most(px, 1), Most(px, 2), Most(px, 3))
  {
    lo, hi := Pixel(255, 255, 255, 255), Pixel(0, 0, 0, 0);
    for i := 0 to |px|
      invariant lo == Pixel(Least(px[..i], 0), Least(px[..i], 1), Least(px[..i], 2), Least(px[..i], 3))
      invariant hi == Pixel(Most(px[..i], 0), Most(px[..i], 1), Most(px[..i], 2), Most(px[..i], 3))
    {
      assert px[..i + 1][..i] == px[..i];
      var p := px[i];
      lo := Pixel(Min(lo.r, p.r), Min(lo.g, p.g), Min(lo.b, p.b), Min(lo.a, p.a));
      hi := Pixel(Max(hi.r, p.r), Max(hi.g, p.g), Max(hi.b, p.b), Max(hi.a, p.a));
    }
    assert px[..|px|] == px;
  }

  lemma {:induction false} DistFits(p: Pixel, q: Rgb)
    requires q.r < 256 && q.g < 256 && q.b < 256
    ensures Dist(p, q) < 0x4000_0000
  {
    SquareFits(p.r - q.r);
    SquareFits(p.g - q.g);
    SquareFits(p.b - q.b);
  }

  lemma {:induction false} SquareFits(n: int)
    requires -256 < n < 256
    ensures Square(n) <= 65025
  {
    assert (255 - n) * (255 + n) >= 0;
  }

  /** The search for the nearest entry, starting from a distance nothing reaches. */
  method Search(ds: seq<nat>) returns (best: nat)
    requires ds != [] && ds[0] < 0x4000_0000
    ensures best == Nearest(ds)
  {
    var bestD := 0x4000_0000;
    best := 0;
    for k := 0 to |ds|
      invariant k == 0 ==> best == 0 && bestD == 0x4000_0000
      invariant k > 0 ==> best == Nearest(ds[..k]) && bestD == ds[best]
    {
      assert k > 0 ==> ds[..k + 1][..k] == ds[..k];
      if ds[k] < bestD {
        best, bestD := k, ds[k];
      }
    }
    assert ds[..|ds|] == ds;
  }

  lemma {:induction false} PackNothing(w: nat)
    ensures Pack([], w) == 0
  {
  }

  lemma {:induction false} PackSnoc(fields: seq<nat>, w: nat, i: nat)
    requires i < |fields|
    ensures Pack(fields[..i + 1], w) == Pack(fields[..i], w) + Shl(fields[i], w * i)
  {
    hide Shl;
    assert fields[..i + 1][..i] == fields[..i];
  }

  lemma {:induction false} GapFits(a: byte, a0: byte, a1: byte)
    ensures Gap(a, EightAlphas(a0, a1)[0]) < 0x4000_0000
  {
  }

  method FindColourBits(px: seq<Pixel>, c0: nat, c1: nat) returns (bits: nat)
    requires c0 == High(px) && c1 == Lowest(px)
    ensures bits == ColourBits(px)
  {
    hide Nearest, High, Lowest, Palette, Dist, Pack, Shl;
    bits := 0;
    PackNothing(2);
    if c0 != c1 {
      var pal := Palette(c0, c1, true);
      PaletteFits(c0, c1, true);
      ghost var ix := ColourIndices(px, pal);
      for i := 0 to |px|
        invariant bits == Pack(ix[..i], 2)
      {
        PackSnoc(ix, 2, i);
        DistFits(px[i], pal[0]);
        var best := Search(Dists(px[i], pal));
        bits := bits + Shl(best, 2 * i);
      }
      assert ix[..|px|] == ix;
    }
  }

  lemma {:induction false} PaletteFits(c0: nat, c1: nat, four: bool)
    ensures forall k :: 0 <= k < 4 ==>
              Palette(c0, c1, four)[k].r < 256 && Palette(c0, c1, four)[k].g < 256 && Palette(c0, c1, four)[k].b < 256
  {
    hide From565;
  }

  method FindAlphaBits(px: seq<Pixel>, a0: byte, a1: byte) returns (bits: nat)
    requires a0 == Most(px, 3) && a1 == Least(px, 3)
    ensures bits == AlphaBits(px)
  {
    hide Nearest, Most, Least, Pack, Shl, EightAlphas, Gap;
    bits := 0;
    PackNothing(3);
    if a0 != a1 {
      var table := EightAlphas(a0, a1);
      ghost var ix := AlphaIndices(px, table);
      for i := 0 to |px|
        invariant bits == Pack(ix[..i], 3)
      {
        PackSnoc(ix, 3, i);
        GapFits(px[i].a, a0, a1);
        var best := Search(AlphaDists(px[i].a, table));
        bits := bits + Shl(best, 3 * i);
      }
      assert ix[..|px|] == ix;
    }
  }

  lemma {:induction false} ShrByte(n: nat)
    ensures Shr(n, 8) == n / 256
  {
    assert Shr(n, 8) == Shr(n / 2 / 2, 6);
    assert Shr(n / 4, 6) == Shr(n / 4 / 2 / 2, 4);
    assert Shr(n / 16, 4) == Shr(n / 16 / 2 / 2, 2);
    assert Shr(n / 64, 2) == Shr(n / 64 / 2, 1) == Shr(n / 64 / 2 / 2, 0);
  }

  lemma {:induction false} NextByte(bits: nat, i: nat)
    requires i < 6
    ensures ToLE(Shr(bits, 8 * i), 6 - i) == [Shr(bits, 8 * i) % 256] + ToLE(Shr(bits, 8 * (i + 1)), 6 - (i + 1))
  {
    hide Shr;
    ShrTwice(bits, 8 * i, 8);
    ShrByte(Shr(bits, 8 * i));
    assert 8 * i + 8 == 8 * (i + 1);
  }

  /** The alpha bits as six bytes, lowest first. */
  method SixBytes(bits: nat) returns (out: seq<byte>)
    ensures out == ToLE(bits, 6)
  {
    hide Shr, ToLE;
    out := [];
    Unshifted(bits);
    for i := 0 to 6
      invariant out + ToLE(Shr(bits, 8 * i), 6 - i) == ToLE(bits, 6)
    {
      NextByte(bits, i);
      var b: byte := Shr(bits, 8 * i) % 256;
      ghost var more := ToLE(Shr(bits, 8 * (i + 1)), 6 - (i + 1));
      assert out + ([b] + more) == out + [b] + more;
      out := out + [b];
    }
    assert ToLE(Shr(bits, 8 * 6), 0) == [];
  }

  lemma {:induction false} Unshifted(bits: nat)
    ensures Shr(bits, 8 * 0) == bits
  {
  }

  method EncodeBlock(px: seq<Pixel>, format: nat) returns (out: seq<byte>)
    ensures out == Block(px, format)
  {
    hide Most, Least, ColourBits, AlphaBits, To565, ToLE;
    var lo, hi := Extremes(px);
    var hi5, lo5 := To565(hi.r, hi.g, hi.b), To565(lo.r, lo.g, lo.b);
    var c0, c1 := Max(hi5, lo5), Min(hi5, lo5);
    var cbits := FindColourBits(px, c0, c1);
    out := ToLE(c0, 2) + ToLE(c1, 2) + ToLE(cbits, 4);
    if format == DXT5 {
      var abits := FindAlphaBits(px, hi.a, lo.a);
      var six := SixBytes(abits);
      out := [hi.a, lo.a] + six + out;
    }
  }

  method Encode(img: Image, w: nat, h: nat, format: nat) returns (out: seq<byte>)
    requires Sized(img, w, h) && w > 0 && h > 0
    ensures out == Encoded(img, w, h, format)
  {
    hide BlockAt, Block;
    var bw, bh := Blocks(w), Blocks(h);
    out := [];
    for row := 0 to bh
      invariant out == RowsBytes(img, w, h, format, row)
    {
      for col := 0 to bw
        invariant out == RowsBytes(img, w, h, format, row) + RowBytes(img, w, h, format, row, col)
      {
        var px := GatherBlock(img, w, h, col, row);
        var bytes := EncodeBlock(px, format);
        out := out + bytes;
      }
    }
  }

  // ---- The decoder ----

  /** The bytes of a block as the container counts them. */
  function BlockBytes(format: nat): nat {
    if format == DXT1 then 8 else if format == DXT3 || format == DXT5 then 16 else 0
  }

  /** Pixel i of a block. */
  function BlockPixel(blk: seq<byte>, format: nat, i: nat): Pixel
    requires |blk| == BlockBytes(format) >= 8
  {
    var coff := if format == DXT5 then 8 else 0;
    var c0, c1 := FromLE(blk[coff..coff + 2]), FromLE(blk[coff + 2..coff + 4]);
    var four := c0 > c1 || format == DXT5;
    var k := Field(FromLE(blk[coff + 4..coff + 8]), 2, i);
    var q := Palette(c0, c1, four)[k];
    var a := if format == DXT5 then AlphaTable(blk[0], blk[1])[Field(FromLE(blk[2..8]), 3, i)]
             else if format == DXT1 && !four && k == 3 then 0 else 255;
    Pixel(q.r % 256, q.g % 256, q.b % 256, a % 256)
  }

  function Clear(): Pixel {
    Pixel(0, 0, 0, 0)
  }

  /** The pixel at (x, y): clear where its block is not wholly there. */
  function PixelAt(data: seq<byte>, w: nat, format: nat, x: nat, y: nat): Pixel
    requires BlockBytes(format) >= 8
  {
    var off := (y / 4 * Blocks(w) + x / 4) * BlockBytes(format);
    if off + BlockBytes(format) > |data| then Clear()
    else BlockPixel(data[off..off + BlockBytes(format)], format, Number(x, y))
  }

  /** Where a pixel lies: its block's column and row, and its number in the block. */
  predicate InBlock(x: nat, y: nat, col: nat, row: nat) {
    x / 4 == col && y / 4 == row
  }

  function Number(x: nat, y: nat): (i: nat)
    ensures i < 16
  {
    x % 4 + y % 4 * 4
  }

  method ReadAlphas(blk: seq<byte>) returns (alpha: seq<nat>)
    requires |blk| == 16
    ensures |alpha| == 16
    ensures forall i :: 0 <= i < 16 ==> alpha[i] == AlphaTable(blk[0], blk[1])[Field(FromLE(blk[2..8]), 3, i)]
  {
    hide FromLE, Field, AlphaTable;
    var bits, table := FromLE(blk[2..8]), AlphaTable(blk[0], blk[1]);
    alpha := [];
    for i := 0 to 16
      invariant |alpha| == i
      invariant forall j :: 0 <= j < i ==> alpha[j] == table[Field(bits, 3, j)]
    {
      alpha := alpha + [table[Field(bits, 3, i)]];
    }
  }

  /** One block painted: its own pixels, where the image reaches, and no others. */
  method Paint(img: array2<Pixel>, blk: seq<byte>, format: nat, col: nat, row: nat)
    requires |blk| == BlockBytes(format) >= 8
    modifies img
    ensures forall y, x :: 0 <= y < img.Length0 && 0 <= x < img.Length1 ==>
              img[y, x] == if InBlock(x, y, col, row) then BlockPixel(blk, format, Number(x, y)) else old(img[y, x])
  {
    hide FromLE, Palette, AlphaTable;
    var alpha := seq(16, _ => 255);
    var coff := 0;
    if format == DXT5 {
      alpha := ReadAlphas(blk);
      coff := 8;
    }
    var c0, c1 := FromLE(blk[coff..coff + 2]), FromLE(blk[coff + 2..coff + 4]);
    var bits := FromLE(blk[coff + 4..coff + 8]);
    var four := c0 > c1 || format == DXT5;
    var pal := Palette(c0, c1, four);
    for i := 0 to 16
      invariant forall y, x :: 0 <= y < img.Length0 && 0 <= x < img.Length1 ==>
                  img[y, x] == if InBlock(x, y, col, row) && Number(x, y) < i then BlockPixel(blk, format, Number(x, y))
                               else old(img[y, x])
    {
      var x, y := col * 4 + i % 4, row * 4 + i / 4;
      assert Number(x, y) == i && InBlock(x, y, col, row);
      if x < img.Length1 && y < img.Length0 {
        var k := Field(bits, 2, i);
        var a := alpha[i];
        if format == DXT1 && !four && k == 3 {
          a := 0;
        }
        var p := Pixel(pal[k].r % 256, pal[k].g % 256, pal[k].b % 256, a % 256);
        assert p == BlockPixel(blk, format, i);
        img[y, x] := p;
      }
      OnePlace(col, row, i);
    }
  }

  /** No two places in a block have one number. */
  lemma {:induction false} OnePlace(col: nat, row: nat, i: nat)
    requires i < 16
    ensures forall x: nat, y: nat ::
              InBlock(x, y, col, row) && Number(x, y) == i ==> x == col * 4 + i % 4 && y == row * 4 + i / 4
  {
  }

  method Decode(data: seq<byte>, w: nat, h: nat, format: nat) returns (img: array2<Pixel>)
    requires BlockBytes(format) >= 8
    ensures fresh(img) && img.Length0 == h && img.Length1 == w
    ensures forall y, x :: 0 <= y < h && 0 <= x < w ==> img[y, x] == PixelAt(data, w, format, x, y)
  {
    hide BlockPixel, PixelAt, Blocks, BlockBytes, Number;
    img := new Pixel[h, w]((_, _) => Clear());
    var bw, bh, bb := Blocks(w), Blocks(h), BlockBytes(format);
    for row := 0 to bh
      invariant forall y, x :: 0 <= y < h && 0 <= x < w ==>
                  img[y, x] == if y / 4 < row then PixelAt(data, w, format, x, y) else Clear()
    {
      for col := 0 to bw
        invariant forall y, x :: 0 <= y < h && 0 <= x < w ==>
                    img[y, x] ==
                    if y / 4 < row || (y / 4 == row && x / 4 < col) then PixelAt(data, w, format, x, y) else Clear()
      {
        var off := (row * bw + col) * bb;
        if off + bb > |data| {
          RestIsClear(data, w, format, row, col, off);
          return;
        }
        ThisBlock(data, w, format, row, col, off);
        Paint(img, data[off..off + bb], format, col, row);
      }
    }
  }

  lemma {:induction false} PixelOf(data: seq<byte>, w: nat, format: nat, x: nat, y: nat, off: nat)
    requires BlockBytes(format) >= 8 && off == (y / 4 * Blocks(w) + x / 4) * BlockBytes(format)
    ensures PixelAt(data, w, format, x, y) ==
            if off + BlockBytes(format) > |data| then Clear()
            else BlockPixel(data[off..off + BlockBytes(format)], format, Number(x, y))
  {
  }

  /** Behind a block that is not wholly there nothing is. */
  lemma {:induction false} RestIsClear(data: seq<byte>, w: nat, format: nat, row: nat, col: nat, off: nat)
    requires BlockBytes(format) >= 8 && col <= Blocks(w) && off == (row * Blocks(w) + col) * BlockBytes(format)
    requires off + BlockBytes(format) > |data|
    ensures forall y: nat, x: nat ::
              y / 4 > row || (y / 4 == row && x / 4 >= col) ==> PixelAt(data, w, format, x, y) == Clear()
  {
    hide BlockPixel, PixelAt, Blocks, BlockBytes;
    forall y: nat, x: nat | y / 4 > row || (y / 4 == row && x / 4 >= col)
      ensures PixelAt(data, w, format, x, y) == Clear()
    {
      LaterBlock(row, col, y / 4, x / 4, Blocks(w), BlockBytes(format));
      PixelOf(data, w, format, x, y, (y / 4 * Blocks(w) + x / 4) * BlockBytes(format));
    }
  }

  lemma {:induction false} ThisBlock(data: seq<byte>, w: nat, format: nat, row: nat, col: nat, off: nat)
    requires BlockBytes(format) >= 8 && off == (row * Blocks(w) + col) * BlockBytes(format)
    requires off + BlockBytes(format) <= |data|
    ensures forall y: nat, x: nat :: InBlock(x, y, col, row) ==>
              PixelAt(data, w, format, x, y) == BlockPixel(data[off..off + BlockBytes(format)], format, Number(x, y))
  {
    hide BlockPixel, PixelAt, Blocks, BlockBytes, Number;
    forall y: nat, x: nat | InBlock(x, y, col, row)
      ensures PixelAt(data, w, format, x, y) == BlockPixel(data[off..off + BlockBytes(format)], format, Number(x, y))
    {
      PixelOf(data, w, format, x, y, off);
    }
  }

  lemma {:induction false} LaterBlock(row: nat, col: nat, row': nat, col': nat, bw: nat, bb: nat)
    requires col <= bw && (row < row' || (row == row' && col <= col'))
    ensures (row * bw + col) * bb <= (row' * bw + col') * bb
  {
    if row < row' {
      Scaled(row + 1, row', bw);
      assert (row + 1) * bw == row * bw + bw;
    }
    Scaled(row * bw + col, row' * bw + col', bb);
  }

  lemma {:induction false} Scaled(a: nat, b: nat, c: nat)
    requires a <= b
    ensures a * c <= b * c
  {
    assert (b - a) * c >= 0;
  }
}
