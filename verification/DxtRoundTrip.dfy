/** Encoding and then decoding: which pixel comes out for each pixel that went in. The decoder's palette is the
    encoder's, so a pixel comes back as the nearest entry of its own block; the fields that hold the indices are
    taken apart again, and each block is found where the decoder looks for it. */
module DxtRoundTrip {
  import opened Bytes
  import opened BitFields
  import opened Dxt

  /** The formats the codec both writes and reads. */
  predicate Coded(format: nat) {
    format == DXT1 || format == DXT5
  }

  function Colour(p: Pixel): Rgb {
    Rgb(p.r, p.g, p.b)
  }

  /** The colours a decoder has for a block. */
  function Entries(px: seq<Pixel>, format: nat): (pal: seq<Rgb>)
    ensures |pal| == 4
  {
    Palette(High(px), Lowest(px), High(px) > Lowest(px) || format == DXT5)
  }

  /** The alphas a decoder has for a block. */
  function Alphas(px: seq<Pixel>): (t: seq<nat>)
    ensures |t| == 8
  {
    AlphaTable(Most(px, 3), Least(px, 3))
  }

  /** The decoded colour is one the decoder has, and none it has is closer to the original. */
  predicate ColourKept(p: Pixel, out: Pixel, pal: seq<Rgb>) {
    Colour(out) in pal && forall q :: q in pal ==> Dist(p, Colour(out)) <= Dist(p, q)
  }

  /** DXT1 never yields transparency. DXT5 yields the closest alpha it has, within the block's own range;
      the smallest and the largest alpha of a block come back as they were. */
  predicate AlphaKept(px: seq<Pixel>, p: Pixel, out: Pixel, format: nat) {
    if format == DXT1 then out.a == 255
    else
      && out.a in Alphas(px) && (forall t :: t in Alphas(px) ==> Gap(p.a, out.a) <= Gap(p.a, t))
      && Least(px, 3) <= out.a <= Most(px, 3)
      && (p.a == Most(px, 3) || p.a == Least(px, 3) ==> out.a == p.a)
  }

  // ---- Reading a block's fields back ----

  lemma {:induction false} ShlPair(n: nat)
    ensures Shl(n, 2) == 4 * n
  {
    assert Shl(n, 1) == 2 * Shl(n, 0);
  }

  lemma {:induction false} ShlByte(n: nat)
    ensures Shl(n, 8) == 256 * n
  {
    ShlPair(n);
    ShlPair(4 * n);
    ShlPair(16 * n);
    ShlPair(64 * n);
    ShlTwice(n, 2, 2);
    ShlTwice(n, 4, 2);
    ShlTwice(n, 6, 2);
  }

  lemma {:induction false} Widest()
    ensures Shl(1, 2) == 4 && Shl(1, 3) == 8 && Shl(1, 32) == 0x1_0000_0000 && Shl(1, 48) == 0x1_0000_0000_0000
  {
    ShlByte(1);
    forall k: nat ensures Shl(1, k + 8) == 256 * Shl(1, k) {
      ShlTwice(1, k, 8);
      ShlByte(Shl(1, k));
    }
    assert Shl(1, 8 + 8) == 256 * Shl(1, 8);
    assert Shl(1, 16 + 8) == 256 * Shl(1, 16);
    assert Shl(1, 24 + 8) == 256 * Shl(1, 24);
    assert Shl(1, 32 + 8) == 256 * Shl(1, 32);
    assert Shl(1, 40 + 8) == 256 * Shl(1, 40);
  }

  lemma {:induction false} ShrZero(k: nat)
    ensures Shr(0, k) == 0
  {
    if k > 0 {
      ShrZero(k - 1);
    }
  }

  lemma {:induction false} NoField(w: nat, i: nat)
    ensures Field(0, w, i) == 0
  {
    ShrZero(w * i);
    LowZero(w);
  }

  lemma {:induction false} LowZero(k: nat)
    ensures Low(0, k) == 0
  {
    if k > 0 {
      LowZero(k - 1);
    }
  }

  lemma {:induction false} ColourFields(px: seq<Pixel>, i: nat)
    requires |px| == 16 && i < 16
    ensures ColourBits(px) < 0x1_0000_0000
    ensures Field(ColourBits(px), 2, i) ==
            if High(px) == Lowest(px) then 0 else Nearest(Dists(px[i], Palette(High(px), Lowest(px), true)))
  {
    hide Pack, Field, Shl, Nearest, Palette, Dist, High, Lowest;
    Widest();
    if High(px) == Lowest(px) {
      NoField(2, i);
    } else {
      var ix := ColourIndices(px, Palette(High(px), Lowest(px), true));
      assert forall j :: 0 <= j < 16 ==> ix[j] < 4;
      FieldsReadBack(ix, 2, i);
      PackFits(ix, 2);
    }
  }

  lemma {:induction false} AlphaFields(px: seq<Pixel>, i: nat)
    requires |px| == 16 && i < 16
    ensures AlphaBits(px) < 0x1_0000_0000_0000
    ensures Field(AlphaBits(px), 3, i) ==
            if Most(px, 3) == Least(px, 3) then 0
            else Nearest(AlphaDists(px[i].a, EightAlphas(Most(px, 3), Least(px, 3))))
  {
    hide Pack, Field, Shl, Nearest, EightAlphas, Gap, Most, Least;
    Widest();
    if Most(px, 3) == Least(px, 3) {
      NoField(3, i);
    } else {
      var ix := AlphaIndices(px, EightAlphas(Most(px, 3), Least(px, 3)));
      assert forall j :: 0 <= j < 16 ==> ix[j] < 8;
      FieldsReadBack(ix, 3, i);
      PackFits(ix, 3);
    }
  }

  lemma {:induction false} ColourParts(px: seq<Pixel>)
    requires |px| == 16
    ensures var s := ColourBlock(px);
            FromLE(s[..2]) == High(px) && FromLE(s[2..4]) == Lowest(px) && FromLE(s[4..8]) == ColourBits(px)
  {
    hide ToLE, FromLE, High, Lowest, ColourBits;
    var s := ColourBlock(px);
    Bounds(px);
    Widths();
    ColourFields(px, 0);
    UnpackPack(High(px), 2);
    UnpackPack(Lowest(px), 2);
    UnpackPack(ColourBits(px), 4);
    assert s[..2] == ToLE(High(px), 2) && s[2..4] == ToLE(Lowest(px), 2) && s[4..8] == ToLE(ColourBits(px), 4);
  }

  lemma {:induction false} Bounds(px: seq<Pixel>)
    ensures Lowest(px) <= High(px) < 0x1_0000
  {
  }

  lemma {:induction false} AlphaParts(px: seq<Pixel>)
    requires |px| == 16
    ensures var s := AlphaBlock(px);
            s[0] == Most(px, 3) && s[1] == Least(px, 3) && FromLE(s[2..8]) == AlphaBits(px)
  {
    hide ToLE, FromLE, Most, Least, AlphaBits;
    var s := AlphaBlock(px);
    Widths();
    AlphaFields(px, 0);
    UnpackPack(AlphaBits(px), 6);
    assert s[2..8] == ToLE(AlphaBits(px), 6);
  }

  // ---- Solid blocks ----

  /** Channels of one quantum are at least as close to its colour as to black. */
  lemma {:induction false} QuantumBeatsBlack(v: byte, e: nat)
    requires e <= 2 * v
    ensures Square(v - e) <= Square(v)
  {
  }

  lemma {:induction false} QuantaAgree(a: Pixel, b: Pixel)
    requires To565(a.r, a.g, a.b) == To565(b.r, b.g, b.b)
    ensures a.r / 8 == b.r / 8 && a.g / 4 == b.g / 4 && a.b / 8 == b.b / 8
  {
  }

  lemma {:induction false} Digits565(a: nat, b: nat, c: nat)
    requires a < 32 && b < 64 && c < 32
    ensures var n := a * 2048 + b * 32 + c; n / 2048 == a && n / 32 % 64 == b && n % 32 == c
  {
  }

  lemma {:induction false} Expand(a: nat, b: nat, c: nat)
    requires a < 32 && b < 64 && c < 32
    ensures From565(a * 2048 + b * 32 + c) == Rgb(Wide5(a), Wide6(b), Wide5(c))
  {
    hide Wide5, Wide6;
    Digits565(a, b, c);
  }

  lemma {:induction false} QuantumOf(p: Pixel)
    ensures From565(To565(p.r, p.g, p.b)) == Rgb(Wide5(p.r / 8), Wide6(p.g / 4), Wide5(p.b / 8))
  {
    hide From565, Wide5, Wide6;
    Expand(p.r / 8, p.g / 4, p.b / 8);
  }

  /** In a solid block the endpoint is as close to every pixel as anything the decoder has. */
  lemma {:induction false} SolidIsNearest(px: seq<Pixel>, i: nat, four: bool)
    requires i < |px| && High(px) == Lowest(px)
    ensures forall k :: 0 <= k < 4 ==>
              Dist(px[i], Palette(High(px), Lowest(px), four)[0]) <= Dist(px[i], Palette(High(px), Lowest(px), four)[k])
  {
    hide From565, To565, Most, Least, High, Lowest, Square;
    var p, e := px[i], From565(High(px));
    SolidQuantum(px, i);
    QuantumBeatsBlack(p.r, e.r);
    QuantumBeatsBlack(p.g, e.g);
    QuantumBeatsBlack(p.b, e.b);
    assert Third(e, e) == Middle(e, e) == e;
  }

  lemma {:induction false} SolidQuantum(px: seq<Pixel>, i: nat)
    requires i < |px| && High(px) == Lowest(px)
    ensures var p, e := px[i], From565(High(px)); e.r <= 2 * p.r && e.g <= 2 * p.g && e.b <= 2 * p.b
  {
    hide From565, To565, Most, Least, Wide5, Wide6;
    var p := px[i];
    var hi, lo := Pixel(Most(px, 0), Most(px, 1), Most(px, 2), 0), Pixel(Least(px, 0), Least(px, 1), Least(px, 2), 0);
    assert lo.r == Least(px, 0) <= Channel(p, 0) <= hi.r;
    assert lo.g == Least(px, 1) <= Channel(p, 1) <= hi.g;
    assert lo.b == Least(px, 2) <= Channel(p, 2) <= hi.b;
    assert To565(hi.r, hi.g, hi.b) == To565(lo.r, lo.g, lo.b) == High(px);
    QuantaAgree(hi, lo);
    QuantumOf(hi);
    FiveBelow(p.r, hi.r);
    SixBelow(p.g, hi.g);
    FiveBelow(p.b, hi.b);
  }

  lemma {:induction false} FiveBelow(v: byte, top: byte)
    requires top / 8 == v / 8
    ensures Wide5(top / 8) <= 2 * v
  {
  }

  lemma {:induction false} SixBelow(v: byte, top: byte)
    requires top / 4 == v / 4
    ensures Wide6(top / 4) <= 2 * v
  {
  }

  // ---- The tables ----

  predicate Steps(a: nat, x: nat, y: nat, b: nat) {
    a >= x >= y >= b || a <= x <= y <= b
  }

  /** The two interpolated colours lie between the endpoints, the first one nearer to the first. */
  lemma {:induction false} PaletteSteps(c0: nat, c1: nat)
    ensures var p := Palette(c0, c1, true);
            && Steps(p[0].r, p[2].r, p[3].r, p[1].r) && Steps(p[0].g, p[2].g, p[3].g, p[1].g)
            && Steps(p[0].b, p[2].b, p[3].b, p[1].b)
  {
    hide From565;
    var a, b := From565(c0), From565(c1);
    ThirdsStep(a.r, b.r);
    ThirdsStep(a.g, b.g);
    ThirdsStep(a.b, b.b);
  }

  lemma {:induction false} ThirdsStep(a: nat, b: nat)
    ensures Steps(a, (2 * a + b) / 3, (2 * b + a) / 3, b)
  {
  }

  /** The six interpolated alphas step down from one endpoint to the other, and may start above both: with
      weights that add up to 8 over 7, an entry can be larger than any byte. */
  lemma {:induction false} AlphasStepDown(a0: byte, a1: byte)
    requires a1 <= a0
    ensures forall k :: 2 <= k < 7 ==> EightAlphas(a0, a1)[k] >= EightAlphas(a0, a1)[k + 1]
    ensures EightAlphas(a0, a1)[7] >= a1
    ensures EightAlphas(255, 254)[2] > 255
  {
    var t := EightAlphas(a0, a1);
    assert t[2] >= t[3] && t[3] >= t[4] && t[4] >= t[5] && t[5] >= t[6] && t[6] >= t[7];
  }

  // ---- One block ----

  /** Pixel i of a block, encoded and decoded. */
  function Back(px: seq<Pixel>, i: nat, format: nat): Pixel
    requires Coded(format)
  {
    BlockPixel(Block(px, format), format, i)
  }

  lemma {:induction false} ColourOfBlock(px: seq<Pixel>, i: nat, format: nat)
    requires |px| == 16 && i < 16 && Coded(format)
    ensures ColourKept(px[i], Back(px, i, format), Entries(px, format))
    ensures format == DXT1 ==> Back(px, i, format).a == 255
  {
    hide ColourBlock, AlphaBlock, FromLE, Nearest, Field, ColourBits, High, Lowest, Palette, AlphaTable, Dist;
    var blk := Block(px, format);
    var coff := if format == DXT5 then 8 else 0;
    var s := ColourBlock(px);
    assert blk[coff..coff + 2] == s[..2] && blk[coff + 2..coff + 4] == s[2..4] && blk[coff + 4..coff + 8] == s[4..8];
    ColourParts(px);
    ColourFields(px, i);
    Bounds(px);
    var c0, c1 := High(px), Lowest(px);
    var four := c0 > c1 || format == DXT5;
    PaletteFits(c0, c1, four);
    var pal, k := Palette(c0, c1, four), Field(ColourBits(px), 2, i);
    if c0 == c1 {
      SolidIsNearest(px, i, four);
    }
    assert forall j :: 0 <= j < 4 ==> Dist(px[i], pal[k]) <= Dist(px[i], pal[j]);
    assert Colour(Back(px, i, format)) == pal[k];
  }

  /** The closest entry to a value between the endpoints lies between them, whatever the other entries are. */
  lemma {:induction false} ClosestIsBetween(a0: byte, a1: byte, v: byte, t: nat)
    requires a1 <= v <= a0 && a1 <= t && Gap(v, t) <= Gap(v, a0) && Gap(v, t) <= Gap(v, a1)
    ensures a1 <= t <= a0
    ensures v == a0 || v == a1 ==> t == v
  {
  }

  lemma {:induction false} AllAboveLeast(a0: byte, a1: byte, k: nat)
    requires a1 <= a0 && k < 8
    ensures EightAlphas(a0, a1)[k] >= a1
  {
  }

  /** What the decoder takes for pixel i's alpha. */
  lemma {:induction false} AlphaTaken(px: seq<Pixel>, i: nat)
    requires |px| == 16 && i < 16
    ensures Back(px, i, DXT5).a == Alphas(px)[Field(AlphaBits(px), 3, i)] % 256
  {
    hide ColourBlock, AlphaBlock, FromLE, Field, AlphaBits, Most, Least, Palette, AlphaTable;
    var blk, s := Block(px, DXT5), AlphaBlock(px);
    assert blk[0] == s[0] && blk[1] == s[1] && blk[2..8] == s[2..8];
    AlphaParts(px);
  }

  lemma {:induction false} NearestAlpha(a0: byte, a1: byte, v: byte)
    requires a1 < a0 && a1 <= v <= a0
    ensures var t := EightAlphas(a0, a1);
            var k := Nearest(AlphaDists(v, t));
            && k < 8 && (forall j :: 0 <= j < 8 ==> Gap(v, t[k]) <= Gap(v, t[j]))
            && a1 <= t[k] <= a0 && (v == a0 || v == a1 ==> t[k] == v)
  {
    hide Nearest, EightAlphas, Gap;
    var t := EightAlphas(a0, a1);
    var k := Nearest(AlphaDists(v, t));
    AllAboveLeast(a0, a1, k);
    EndpointsFirst(a0, a1);
    assert forall j :: 0 <= j < 8 ==> Gap(v, t[k]) <= Gap(v, t[j]);
    assert Gap(v, t[k]) <= Gap(v, t[0]) && Gap(v, t[k]) <= Gap(v, t[1]);
    ClosestIsBetween(a0, a1, v, t[k]);
  }

  lemma {:induction false} AlphaOfBlock(px: seq<Pixel>, i: nat)
    requires |px| == 16 && i < 16
    ensures AlphaKept(px, px[i], Back(px, i, DXT5), DXT5)
  {
    hide Back, Nearest, Field, AlphaBits, Most, Least, EightAlphas, Gap, AlphaDists;
    AlphaTaken(px, i);
    AlphaFields(px, i);
    var a0, a1, v := Most(px, 3), Least(px, 3), px[i].a;
    assert a1 <= Channel(px[i], 3) <= a0;
    if a0 > a1 {
      NearestAlpha(a0, a1, v);
    } else {
      NoGap(v);
    }
  }

  lemma {:induction false} NoGap(v: nat)
    ensures Gap(v, v) == 0
  {
  }

  lemma {:induction false} EndpointsFirst(a0: byte, a1: byte)
    ensures EightAlphas(a0, a1)[0] == a0 && EightAlphas(a0, a1)[1] == a1
  {
  }

  // ---- The image ----

  lemma {:induction false} NextUp(n: nat, c: nat)
    ensures (n + 1) * c == n * c + c
  {
  }

  lemma {:induction false} LastPart(s: seq<byte>, t: seq<byte>, n: nat, k: nat)
    requires |s| == n * k && |t| == k
    ensures |s + t| == (n + 1) * k && (s + t)[n * k..(n + 1) * k] == t
  {
  }

  lemma {:induction false} EarlierPart(s: seq<byte>, t: seq<byte>, n: nat, k: nat, i: nat)
    requires |s| == n * k && i < n
    ensures 0 <= i * k <= (i + 1) * k <= |s| && (s + t)[i * k..(i + 1) * k] == s[i * k..(i + 1) * k]
  {
  }

  lemma {:induction false} RowLength(img: Image, w: nat, h: nat, format: nat, row: nat, n: nat)
    requires Sized(img, w, h) && w > 0 && h > 0
    ensures |RowBytes(img, w, h, format, row, n)| == n * Written(format)
    decreases n
  {
    hide Block, BlockAt, Written;
    if n > 0 {
      RowLength(img, w, h, format, row, n - 1);
      NextUp(n - 1, Written(format));
    }
  }

  lemma {:induction false} RowSlice(img: Image, w: nat, h: nat, format: nat, row: nat, n: nat, col: nat, k: nat)
    requires Sized(img, w, h) && w > 0 && h > 0 && col < n && k == Written(format)
    ensures var s := RowBytes(img, w, h, format, row, n);
            && |s| == n * k && 0 <= col * k <= (col + 1) * k <= |s|
            && s[col * k..(col + 1) * k] == Block(BlockAt(img, w, h, col, row), format)
    decreases n
  {
    hide Block, BlockAt, Written;
    var s, t := RowBytes(img, w, h, format, row, n - 1), Block(BlockAt(img, w, h, n - 1, row), format);
    RowLength(img, w, h, format, row, n - 1);
    LastPart(s, t, n - 1, k);
    if col < n - 1 {
      RowSlice(img, w, h, format, row, n - 1, col, k);
      EarlierPart(s, t, n - 1, k, col);
    } else {
      NextUp(col, k);
    }
  }

  lemma {:induction false} RowsLength(img: Image, w: nat, h: nat, format: nat, n: nat, k: nat)
    requires Sized(img, w, h) && w > 0 && h > 0 && k == Blocks(w) * Written(format)
    ensures |RowsBytes(img, w, h, format, n)| == n * k
    decreases n
  {
    hide RowBytes, Written, Blocks;
    if n > 0 {
      RowsLength(img, w, h, format, n - 1, k);
      RowLength(img, w, h, format, n - 1, Blocks(w));
      NextUp(n - 1, k);
    }
  }

  lemma {:induction false} RowsSlice(img: Image, w: nat, h: nat, format: nat, n: nat, row: nat, k: nat)
    requires Sized(img, w, h) && w > 0 && h > 0 && row < n && k == Blocks(w) * Written(format)
    ensures var s := RowsBytes(img, w, h, format, n);
            && |s| == n * k && 0 <= row * k <= (row + 1) * k <= |s|
            && s[row * k..(row + 1) * k] == RowBytes(img, w, h, format, row, Blocks(w))
    decreases n
  {
    hide RowBytes, Written, Blocks;
    var s, t := RowsBytes(img, w, h, format, n - 1), RowBytes(img, w, h, format, n - 1, Blocks(w));
    RowsLength(img, w, h, format, n - 1, k);
    RowLength(img, w, h, format, n - 1, Blocks(w));
    LastPart(s, t, n - 1, k);
    if row < n - 1 {
      RowsSlice(img, w, h, format, n - 1, row, k);
      EarlierPart(s, t, n - 1, k, row);
    } else {
      NextUp(row, k);
    }
  }

  /** What the encoder writes is as long as its blocks. */
  lemma {:induction false} EncodedLength(img: Image, w: nat, h: nat, format: nat)
    requires Sized(img, w, h) && w > 0 && h > 0
    ensures |Encoded(img, w, h, format)| == Blocks(h) * (Blocks(w) * Written(format))
  {
    hide RowsBytes, Blocks, Written;
    RowsLength(img, w, h, format, Blocks(h), Blocks(w) * Written(format));
  }

  lemma {:induction false} SliceInSlice(s: seq<byte>, a: nat, b: nat, c: nat, d: nat)
    requires a <= b <= |s| && c <= d <= b - a
    ensures s[a..b][c..d] == s[a + c..a + d]
  {
    var t := s[a..b];
    assert forall i :: 0 <= i < d - c ==> t[c..d][i] == t[c + i] == s[a + (c + i)] == s[a + c..a + d][i];
    assert t[c..d] == s[a + c..a + d];
  }

  /** Each block lies where the decoder looks for it. */
  lemma {:induction false} BlockSlice(img: Image, w: nat, h: nat, format: nat, col: nat, row: nat, off: nat)
    requires Sized(img, w, h) && w > 0 && h > 0 && col < Blocks(w) && row < Blocks(h)
    requires off == (row * Blocks(w) + col) * Written(format)
    ensures off + Written(format) <= |Encoded(img, w, h, format)|
    ensures Encoded(img, w, h, format)[off..off + Written(format)] == Block(BlockAt(img, w, h, col, row), format)
  {
    hide RowsBytes, RowBytes, Block, BlockAt, Blocks, Written;
    var k, bw := Written(format), Blocks(w);
    Offsets(row, bw, col, k);
    WithinRow(img, w, h, format, col, row, bw * k, row * (bw * k), col * k);
  }

  lemma {:induction false} WithinRow(img: Image, w: nat, h: nat, format: nat, col: nat, row: nat, r: nat, a: nat,
         c: nat)
    requires Sized(img, w, h) && w > 0 && h > 0 && col < Blocks(w) && row < Blocks(h)
    requires r == Blocks(w) * Written(format) && a == row * r && c == col * Written(format)
    ensures a + c + Written(format) <= |Encoded(img, w, h, format)|
    ensures Encoded(img, w, h, format)[a + c..a + c + Written(format)] == Block(BlockAt(img, w, h, col, row), format)
  {
    hide RowsBytes, RowBytes, Block, BlockAt, Blocks, Written;
    var s, k := Encoded(img, w, h, format), Written(format);
    RowsSlice(img, w, h, format, Blocks(h), row, r);
    RowSlice(img, w, h, format, row, Blocks(w), col, k);
    NextUp(col, k);
    NextUp(row, r);
    SliceInSlice(s, a, a + r, c, c + k);
  }

  lemma {:induction false} Offsets(row: nat, bw: nat, col: nat, k: nat)
    ensures (row * bw + col) * k == row * (bw * k) + col * k
  {
  }

  /** Images of any size: every pixel decodes to the closest colour and the closest alpha of its own block. */
  lemma {:induction false} DecodedIsNearest(img: Image, w: nat, h: nat, format: nat, x: nat, y: nat)
    requires Sized(img, w, h) && x < w && y < h && Coded(format)
    ensures var px := BlockAt(img, w, h, x / 4, y / 4);
            var out := PixelAt(Encoded(img, w, h, format), w, format, x, y);
            ColourKept(img[y][x], out, Entries(px, format)) && AlphaKept(px, img[y][x], out, format)
  {
    hide BlockPixel, Block, BlockAt, Encoded, ColourKept, AlphaKept, Entries, Blocks, Written, BlockBytes;
    var px, i := BlockAt(img, w, h, x / 4, y / 4), Number(x, y);
    Inside(x, w);
    Inside(y, h);
    SameWidth(format);
    BlockSlice(img, w, h, format, x / 4, y / 4, (y / 4 * Blocks(w) + x / 4) * BlockBytes(format));
    OwnPixel(img, w, h, x, y);
    ColourOfBlock(px, i, format);
    if format == DXT5 {
      AlphaOfBlock(px, i);
    } else {
      AlwaysSolid(px, px[i], Back(px, i, format), format);
    }
  }

  lemma {:induction false} SameWidth(format: nat)
    requires Coded(format)
    ensures BlockBytes(format) == Written(format) >= 8
  {
  }

  lemma {:induction false} AlwaysSolid(px: seq<Pixel>, p: Pixel, out: Pixel, format: nat)
    requires format == DXT1 && out.a == 255
    ensures AlphaKept(px, p, out, format)
  {
  }

  lemma {:induction false} OwnPixel(img: Image, w: nat, h: nat, x: nat, y: nat)
    requires Sized(img, w, h) && x < w && y < h
    ensures BlockAt(img, w, h, x / 4, y / 4)[Number(x, y)] == img[y][x]
  {
  }

  lemma {:induction false} Inside(x: nat, w: nat)
    requires x < w
    ensures x / 4 < Blocks(w)
  {
  }

  /** Cut off anywhere, what is decoded is each pixel as before, or clear. */
  lemma {:induction false} TruncatedIsClear(data: seq<byte>, n: nat, w: nat, format: nat, x: nat, y: nat)
    requires n <= |data| && BlockBytes(format) >= 8
    ensures PixelAt(data[..n], w, format, x, y) in {PixelAt(data, w, format, x, y), Clear()}
  {
    hide BlockPixel, Blocks, BlockBytes;
    var bb := BlockBytes(format);
    var off := (y / 4 * Blocks(w) + x / 4) * bb;
    if off + bb <= n {
      assert data[..n][off..off + bb] == data[off..off + bb];
    }
  }

  // ---- Solid colours survive a second pass ----

  /** Expanding a packed colour and packing it again gives the packed colour. */
  lemma {:induction false} RepackIsSame(c: nat)
    requires c < 0x1_0000
    ensures var q := From565(c); To565(q.r, q.g, q.b) == c
  {
    var a, b, d := c / 2048, c / 32 % 64, c % 32;
    assert c == a * 2048 + b * 32 + d;
    Expand(a, b, d);
    FiveBits(a);
    SixBits(b);
    FiveBits(d);
  }

  lemma {:induction false} FiveBits(v: nat)
    requires v < 32
    ensures Wide5(v) < 256 && Wide5(v) / 8 == v
  {
  }

  lemma {:induction false} SixBits(v: nat)
    requires v < 64
    ensures Wide6(v) < 256 && Wide6(v) / 4 == v
  {
  }
}
