/** What the container keeps: the mip chain's shape, sizes that readers and writer agree on or not, the header,
    the full-size image at the end, and the range of the colours. */
module VtfLaws {
  import opened Options
  import opened Bytes
  import opened WordBytes
  import opened BitFields
  import opened Dxt
  import opened DxtRoundTrip
  import opened Vtf

  // ---- The mip chain ----

  lemma {:induction false} HalfShift(n: nat, i: nat)
    requires n > 0
    ensures Max(1, Shr(Half(n), i)) == Max(1, Shr(n, i + 1))
  {
    if n == 1 {
      ShrZero(i);
      ShrOne(i);
    }
  }

  lemma {:induction false} ShrOne(i: nat)
    ensures Shr(1, i) <= 1
  {
    if i > 0 {
      ShrZero(i - 1);
    }
  }

  /** Level i has the dimensions shifted right by i, never below 1; the chain stops at its first 1 by 1. */
  lemma {:induction false} LevelShape(l: Level, i: nat)
    requires Proper(l) && i < |Levels(l)|
    ensures Levels(l)[i].w == Max(1, Shr(l.w, i)) && Levels(l)[i].h == Max(1, Shr(l.h, i))
    ensures (Levels(l)[i].w == 1 && Levels(l)[i].h == 1) <==> i == |Levels(l)| - 1
    decreases i
  {
    hide Halved, Shr, Sized, Half;
    if i == 0 {
      assert Shr(l.w, 0) == l.w && Shr(l.h, 0) == l.h by { ShrNone(l.w, 0); ShrNone(l.h, 0); }
    } else {
      var next := Level(Halved(l.img, l.w, l.h), Half(l.w), Half(l.h));
      assert Levels(l)[i] == Levels(next)[i - 1];
      LevelShape(next, i - 1);
      HalfShift(l.w, i - 1);
      HalfShift(l.h, i - 1);
    }
  }

  /** Sides of k bits make at most k levels; so the count of every writable image fits its byte. */
  lemma {:induction false} LevelCount(l: Level, k: nat)
    requires Proper(l) && l.w < Shl(1, k) && l.h < Shl(1, k)
    ensures |Levels(l)| <= k
    decreases k
  {
    hide Halved, Sized;
    if l.w > 1 || l.h > 1 {
      assert k > 1;
      LevelCount(Level(Halved(l.img, l.w, l.h), Half(l.w), Half(l.h)), k - 1);
    }
  }

  lemma {:induction false} SixteenBits()
    ensures Shl(1, 16) == 0x1_0000
  {
    ShlByte(1);
    ShlByte(256);
    ShlTwice(1, 8, 8);
  }

  // ---- Sizes ----

  /** The formats in which a level takes the bytes readers expect. */
  predicate Agreed(format: nat) {
    format in {RGBA8888, BGRA8888, DXT1, DXT5}
  }

  lemma {:induction false} RawRowLength(row: seq<Pixel>, format: nat)
    ensures |RawRow(row, format)| == 4 * |row|
  {
    if row != [] {
      RawRowLength(row[..|row| - 1], format);
    }
  }

  lemma {:induction false} RawLength(img: Image, w: nat, h: nat, format: nat)
    requires Sized(img, w, h)
    ensures |Raw(img, format)| == h * (4 * w)
  {
    if h > 0 {
      assert forall y :: 0 <= y < h - 1 ==> img[..h - 1][y] == img[y];
      RawLength(img[..h - 1], w, h - 1, format);
      RawRowLength(img[h - 1], format);
      NextUp(h - 1, 4 * w);
    }
  }

  lemma {:induction false} LevelLength(l: Level, format: nat)
    requires Proper(l)
    ensures |EncodedLevel(l, format)| ==
            if BlockBytes(format) != 0 then Blocks(l.h) * (Blocks(l.w) * Written(format)) else l.h * (4 * l.w)
  {
    hide Encoded, Raw, Blocks, Written;
    if BlockBytes(format) != 0 {
      EncodedLength(l.img, l.w, l.h, format);
    } else {
      RawLength(l.img, l.w, l.h, format);
    }
  }

  lemma {:induction false} Area(a: nat, b: nat, c: nat)
    ensures a * (b * c) == b * a * c == c * (b * a)
  {
  }

  lemma {:induction false} Positive(a: nat, b: nat)
    requires a > 0 && b > 0
    ensures a * b > 0
  {
  }

  /** A level takes the bytes readers expect if and only if its format is one of four. DXT3 takes half of
      them, RGBA16161616F half of them, and a number that names no format takes bytes where none are expected. */
  lemma {:induction false} SizeMatchesExactly(l: Level, format: nat)
    requires Proper(l)
    ensures |EncodedLevel(l, format)| == MipSize(format, l.w, l.h) <==> Agreed(format)
  {
    hide EncodedLevel, Blocks;
    LevelLength(l, format);
    Area(Blocks(l.h), Blocks(l.w), Written(format));
    Area(Blocks(l.h), Blocks(l.w), BlockBytes(format));
    Area(l.h, l.w, 4);
    Area(l.h, 4, l.w);
    Area(l.h, l.w, PixelBytes(format));
    Positive(Blocks(l.w), Blocks(l.h));
    Positive(l.w, l.h);
    var n, m := Blocks(l.w) * Blocks(l.h), l.w * l.h;
    assert |EncodedLevel(l, format)| == if BlockBytes(format) != 0 then n * Written(format) else 4 * m;
    assert MipSize(format, l.w, l.h) ==
        if BlockBytes(format) != 0 then n * BlockBytes(format) else m * PixelBytes(format);
  }

  /** The bytes readers expect for a whole chain. */
  function ChainSize(format: nat, w: nat, h: nat): nat
    requires w > 0 && h > 0
    decreases w + h
  {
    MipSize(format, w, h) + if w > 1 || h > 1 then ChainSize(format, Half(w), Half(h)) else 0
  }

  /** In an agreed format the mips together take the sum of the sizes readers expect of them. */
  lemma {:induction false} BodyLength(l: Level, format: nat)
    requires Proper(l) && Agreed(format)
    ensures |Body(Levels(l), format)| == ChainSize(format, l.w, l.h)
    decreases l.w + l.h
  {
    hide Halved, EncodedLevel, MipSize, Sized;
    SizeMatchesExactly(l, format);
    var ls := Levels(l);
    if l.w > 1 || l.h > 1 {
      var next := Level(Halved(l.img, l.w, l.h), Half(l.w), Half(l.h));
      assert ls[1..] == Levels(next);
      BodyLength(next, format);
    } else {
      assert ls[1..] == [];
    }
  }

  // ---- The header ----

  /** Settings whose numbers are the 32-bit ones the program holds. */
  predicate Words(s: Settings) {
    s.format < 0x1_0000_0000 && s.flags < 0x1_0000_0000 && s.major < 0x1_0000_0000 && s.minor < 0x1_0000_0000
    && s.bump < 0x1_0000_0000 && s.red < 0x1_0000_0000 && s.green < 0x1_0000_0000 && s.blue < 0x1_0000_0000
  }

  lemma {:induction false} StartFields(s: Settings)
    requires Words(s)
    ensures var b := Start(s);
            b[..4] == Magic() && FromLE(b[4..8]) == s.major && FromLE(b[8..12]) == s.minor
                && FromLE(b[12..16]) == HEADER_SIZE
  {
    hide ToLE, FromLE, Magic;
    var b := Start(s);
    Widths();
    UnpackPack(s.major, 4);
    UnpackPack(s.minor, 4);
    UnpackPack(HEADER_SIZE, 4);
    assert b[4..8] == ToLE(s.major, 4) && b[8..12] == ToLE(s.minor, 4) && b[12..16] == ToLE(HEADER_SIZE, 4);
  }

  lemma {:induction false} ShapeFields(s: Settings, w: nat, h: nat)
    requires Words(s) && w < 0x1_0000 && h < 0x1_0000
    ensures var b := Shape(s, w, h);
            FromLE(b[..2]) == w && FromLE(b[2..4]) == h && FromLE(b[4..8]) == s.flags && FromLE(b[8..10]) == 1
  {
    hide ToLE, FromLE;
    var b := Shape(s, w, h);
    Widths();
    UnpackPack(w, 2);
    UnpackPack(h, 2);
    UnpackPack(s.flags, 4);
    UnpackPack(1, 2);
    assert b[..2] == ToLE(w, 2) && b[2..4] == ToLE(h, 2) && b[4..8] == ToLE(s.flags, 4) && b[8..10] == ToLE(1, 2);
  }

  lemma {:induction false} LightFields(s: Settings)
    requires Words(s)
    ensures var b := Light(s); FromLE(b[..4]) == s.red && FromLE(b[4..8]) == s.green && FromLE(b[8..12]) == s.blue
  {
    hide ToLE, FromLE;
    var b := Light(s);
    Widths();
    UnpackPack(s.red, 4);
    UnpackPack(s.green, 4);
    UnpackPack(s.blue, 4);
    assert b[..4] == ToLE(s.red, 4) && b[4..8] == ToLE(s.green, 4) && b[8..12] == ToLE(s.blue, 4);
  }

  lemma {:induction false} LayoutFields(s: Settings, levels: nat)
    requires Words(s) && levels < 256
    ensures var b := Layout(s, levels);
            && FromLE(b[..4]) == s.bump && FromLE(b[4..8]) == s.format && b[8] == levels
            && FromLE(b[9..13]) == 0xFFFF_FFFF && b[13] == 0 && b[14] == 0 && FromLE(b[15..17]) == 1
  {
    hide ToLE, FromLE;
    var b := Layout(s, levels);
    Widths();
    OneByte(levels);
    UnpackPack(s.bump, 4);
    UnpackPack(s.format, 4);
    UnpackPack(0xFFFF_FFFF, 4);
    UnpackPack(1, 2);
    assert b[..4] == ToLE(s.bump, 4) && b[4..8] == ToLE(s.format, 4);
    assert b[9..13] == ToLE(0xFFFF_FFFF, 4) && b[15..17] == ToLE(1, 2);
  }

  /** Every field comes back as written, whatever follows the header: one frame, no low-resolution image, depth 1. */
  lemma {:induction false} HeaderReadsBack(s: Settings, w: nat, h: nat, levels: nat, rest: seq<byte>)
    requires Words(s) && w < 0x1_0000 && h < 0x1_0000 && levels < 256
    ensures ReadHeader(HeaderBytes(s, w, h, levels) + rest) ==
            Some(Header(s.major, s.minor, HEADER_SIZE, w, h, s.flags, 1, s.red, s.green, s.blue, s.bump, s.format,
                        levels, -1, 0, 0, 1))
  {
    hide FromLE, Start, Shape, Light, Layout, Magic;
    var a, b, c, e := Start(s), Shape(s, w, h), Light(s), Layout(s, levels);
    var d := HeaderBytes(s, w, h, levels) + rest;
    StartFields(s);
    ShapeFields(s, w, h);
    LightFields(s);
    LayoutFields(s, levels);
    assert d == a + b + c + e + rest;
    assert d[..4] == a[..4] && d[4..8] == a[4..8] && d[8..12] == a[8..12] && d[12..16] == a[12..16];
    assert d[16..18] == b[..2] && d[18..20] == b[2..4] && d[20..24] == b[4..8] && d[24..26] == b[8..10];
    assert d[32..36] == c[..4] && d[36..40] == c[4..8] && d[40..44] == c[8..12];
    assert d[48..52] == e[..4] && d[52..56] == e[4..8] && d[57..61] == e[9..13] && d[63..65] == e[15..17];
    assert d[56] == e[8] && d[61] == e[13] && d[62] == e[14];
  }

  // ---- Out and back ----

  /** The full-size image is the last chunk of the file. */
  lemma {:induction false} FullSizeIsLast(img: Image, w: nat, h: nat, s: Settings, mipmaps: bool)
    requires Proper(Level(img, w, h))
    ensures var file, top := VtfFile(img, w, h, s, mipmaps), EncodedLevel(Level(img, w, h), s.format);
            |top| <= |file| && file[|file| - |top|..] == top
  {
    hide EncodedLevel, HeaderBytes, Levels, Sized;
    var ls := Mips(img, w, h, mipmaps);
    var file, top := VtfFile(img, w, h, s, mipmaps), EncodedLevel(ls[0], s.format);
    assert file == HeaderBytes(s, w % 0x1_0000, h % 0x1_0000, |ls| % 256) + Body(ls[1..], s.format) + top;
  }

  lemma {:induction false} ReadOwnHeader(img: Image, w: nat, h: nat, s: Settings, mipmaps: bool)
    requires Proper(Level(img, w, h)) && w < 0x1_0000 && h < 0x1_0000 && Words(s)
    ensures ReadHeader(VtfFile(img, w, h, s, mipmaps)).Some?
    ensures var hdr := ReadHeader(VtfFile(img, w, h, s, mipmaps)).value;
            hdr.width == w && hdr.height == h && hdr.format == s.format && hdr.mipmaps == |Mips(img, w, h, mipmaps)|
  {
    hide EncodedLevel, HeaderBytes, Levels, Sized, Body, ReadHeader;
    var ls := Mips(img, w, h, mipmaps);
    if mipmaps {
      SixteenBits();
      LevelCount(Level(img, w, h), 16);
    }
    HeaderReadsBack(s, w, h, |ls|, Body(ls, s.format));
  }

  /** The converter gets back the bytes the encoder wrote for the full-size image if and only if the format
      is DXT1 or DXT5. It hands other bytes of a DXT3 file to the decoder, or takes the file for a short one. */
  lemma {:induction false} UnpackedExactly(img: Image, w: nat, h: nat, s: Settings, mipmaps: bool)
    requires Proper(Level(img, w, h)) && w < 0x1_0000 && h < 0x1_0000 && Words(s)
    ensures Unpack(VtfFile(img, w, h, s, mipmaps)) == Pixels(w, h, s.format, EncodedLevel(Level(img, w, h), s.format))
            <==> Coded(s.format)
  {
    hide EncodedLevel, VtfFile, ReadHeader, MipSize, Sized;
    ReadOwnHeader(img, w, h, s, mipmaps);
    FullSizeIsLast(img, w, h, s, mipmaps);
    SizeMatchesExactly(Level(img, w, h), s.format);
  }

  /** Written and read back, at any size the header can hold: every pixel is the closest its block has. */
  lemma {:induction false} ReadBackIsNearest(img: Image, w: nat, h: nat, s: Settings, mipmaps: bool, x: nat, y: nat)
    requires Proper(Level(img, w, h)) && w < 0x1_0000 && h < 0x1_0000 && Words(s) && Coded(s.format) && x < w && y < h
    ensures var r := Unpack(VtfFile(img, w, h, s, mipmaps));
            && r.Pixels? && r.w == w && r.h == h
            && var px := BlockAt(img, w, h, x / 4, y / 4);
               var out := PixelAt(r.data, r.w, r.format, x, y);
               ColourKept(img[y][x], out, Entries(px, s.format)) && AlphaKept(px, img[y][x], out, s.format)
  {
    hide VtfFile, Unpack, Encoded, PixelAt, ColourKept, AlphaKept, Entries, BlockAt;
    UnpackedExactly(img, w, h, s, mipmaps);
    DecodedIsNearest(img, w, h, s.format, x, y);
  }

  // ---- Colours stay in range ----

  predicate Between(p: Pixel, lo: Pixel, hi: Pixel) {
    lo.r <= p.r <= hi.r && lo.g <= p.g <= hi.g && lo.b <= p.b <= hi.b && lo.a <= p.a <= hi.a
  }

  predicate AllBetween(img: Image, lo: Pixel, hi: Pixel) {
    forall y, x :: 0 <= y < |img| && 0 <= x < |img[y]| ==> Between(img[y][x], lo, hi)
  }

  lemma {:induction false} SumBetween(ps: seq<Pixel>, lo: Pixel, hi: Pixel, c: nat)
    requires forall p :: p in ps ==> Between(p, lo, hi)
    ensures |ps| * Channel(lo, c) <= Sum(ps, c) <= |ps| * Channel(hi, c)
  {
    if ps != [] {
      var n := |ps| - 1;
      assert Between(ps[n], lo, hi);
      SumBetween(ps[..n], lo, hi, c);
      NextUp(n, Channel(lo, c));
      NextUp(n, Channel(hi, c));
    }
  }

  lemma {:induction false} QuotientBetween(s: nat, n: nat, lo: nat, hi: nat)
    requires n > 0 && n * lo <= s <= n * hi
    ensures lo <= s / n <= hi
  {
    var q, r := s / n, s % n;
    QuotientBounds(s, n, q, r, lo, hi);
  }

  lemma {:induction false} QuotientBounds(s: nat, n: nat, q: nat, r: nat, lo: nat, hi: nat)
    requires n > 0 && s == n * q + r && r < n && n * lo <= s <= n * hi
    ensures lo <= q <= hi
  {
    NextUp(q, n);
    if q < lo {
      Scaled(q + 1, lo, n);
    }
    if hi < q {
      Scaled(hi + 1, q, n);
      NextUp(hi, n);
    }
  }

  lemma {:induction false} MeanBetween(ps: seq<Pixel>, lo: Pixel, hi: Pixel, c: nat)
    requires ps != [] && forall p :: p in ps ==> Between(p, lo, hi)
    ensures Channel(lo, c) <= Mean(ps, c) <= Channel(hi, c)
  {
    hide Sum, Channel, Between;
    SumBetween(ps, lo, hi, c);
    QuotientBetween(Sum(ps, c), |ps|, Channel(lo, c), Channel(hi, c));
  }

  lemma {:induction false} AverageBetween(ps: seq<Pixel>, lo: Pixel, hi: Pixel)
    requires ps != [] && forall p :: p in ps ==> Between(p, lo, hi)
    ensures Between(Average(ps), lo, hi)
  {
    hide Mean;
    MeanBetween(ps, lo, hi, 0);
    MeanBetween(ps, lo, hi, 1);
    MeanBetween(ps, lo, hi, 2);
    MeanBetween(ps, lo, hi, 3);
  }

  lemma {:induction false} HalvedBetween(img: Image, w: nat, h: nat, lo: Pixel, hi: Pixel)
    requires Sized(img, w, h) && w > 0 && h > 0 && AllBetween(img, lo, hi)
    ensures AllBetween(Halved(img, w, h), lo, hi)
  {
    hide Under, Between, Average, Halved;
    var dst := Halved(img, w, h);
    forall y, x | 0 <= y < |dst| && 0 <= x < |dst[y]| ensures Between(dst[y][x], lo, hi) {
      var ps := Under(img, w, h, x, y, 4);
      forall p | p in ps ensures Between(p, lo, hi) {
        var y', x' :| 0 <= y' < h && 0 <= x' < w && img[y'][x'] == p;
      }
      AverageBetween(ps, lo, hi);
    }
  }

  /** No mip has a channel outside the source's range. */
  lemma {:induction false} MipsStayInRange(l: Level, lo: Pixel, hi: Pixel, i: nat)
    requires Proper(l) && AllBetween(l.img, lo, hi) && i < |Levels(l)|
    ensures AllBetween(Levels(l)[i].img, lo, hi)
    decreases i
  {
    hide Halved, AllBetween, Sized;
    if i > 0 {
      var next := Level(Halved(l.img, l.w, l.h), Half(l.w), Half(l.h));
      assert Levels(l)[i] == Levels(next)[i - 1];
      HalvedBetween(l.img, l.w, l.h, lo, hi);
      MipsStayInRange(next, lo, hi, i - 1);
    }
  }

  /** The last column and the last row of an odd side never reach a mip. */
  lemma {:induction false} OddEdgeIsDropped(img: Image, img': Image, w: nat, h: nat)
    requires Sized(img, w, h) && Sized(img', w, h) && w >= 2 && h >= 2
    requires forall y, x :: 0 <= y < h / 2 * 2 && 0 <= x < w / 2 * 2 ==> img[y][x] == img'[y][x]
    ensures Halved(img, w, h) == Halved(img', w, h)
  {
    hide Average, Under;
    var a, b := Halved(img, w, h), Halved(img', w, h);
    forall y, x | 0 <= y < Half(h) && 0 <= x < Half(w) ensures a[y][x] == b[y][x] {
      SameUnder(img, img', w, h, x, y, 4);
    }
    forall y | 0 <= y < Half(h) ensures a[y] == b[y] {
      assert forall x :: 0 <= x < Half(w) ==> a[y][x] == b[y][x];
    }
  }

  lemma {:induction false} SameUnder(img: Image, img': Image, w: nat, h: nat, x: nat, y: nat, k: nat)
    requires Sized(img, w, h) && Sized(img', w, h) && x < w / 2 && y < h / 2 && k <= 4
    requires forall y, x :: 0 <= y < h / 2 * 2 && 0 <= x < w / 2 * 2 ==> img[y][x] == img'[y][x]
    ensures Under(img, w, h, x, y, k) == Under(img', w, h, x, y, k)
  {
    if k > 0 {
      SameUnder(img, img', w, h, x, y, k - 1);
      assert (k - 1) % 2 < 2 && (k - 1) / 2 < 2;
    }
  }
}
