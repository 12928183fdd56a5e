/** The container in plain numbers: averages, sizes, pixels and the bytes of the header. Means and sizes are
    inequalities and products of the numbers themselves, formats are the numbers that stand in the file, and each
    field of the header is a sum of the bytes at its offset. */
module VtfNumbers {
  import opened Bytes
  import opened WordBytes
  import opened Dxt
  import opened Vtf
  import opened VtfLaws

  // ---- Halving ----

  /** m is a quarter of the sum of four numbers, rounded down. */
  predicate IsQuarter(m: nat, a: nat, b: nat, c: nat, d: nat) {
    4 * m <= a + b + c + d < 4 * m + 4
  }

  /** Each channel of m is the mean of that channel of four pixels. */
  predicate IsMean(m: Pixel, p: Pixel, q: Pixel, s: Pixel, t: Pixel) {
    && IsQuarter(m.r, p.r, q.r, s.r, t.r) && IsQuarter(m.g, p.g, q.g, s.g, t.g)
    && IsQuarter(m.b, p.b, q.b, s.b, t.b) && IsQuarter(m.a, p.a, q.a, s.a, t.a)
  }

  lemma {:induction false} SumsTo(ps: seq<Pixel>, c: nat)
    requires 0 < |ps| <= 4
    ensures |ps| == 1 ==> Sum(ps, c) == Channel(ps[0], c)
    ensures |ps| == 2 ==> Sum(ps, c) == Channel(ps[0], c) + Channel(ps[1], c)
    ensures |ps| == 4 ==>
              Sum(ps, c) == Channel(ps[0], c) + Channel(ps[1], c) + Channel(ps[2], c) + Channel(ps[3], c)
    ensures |ps| == 3 ==> Sum(ps, c) == Channel(ps[0], c) + Channel(ps[1], c) + Channel(ps[2], c)
  {
    hide Channel;
    if |ps| > 1 {
      SumsTo(ps[..|ps| - 1], c);
    }
  }

  /** The four pixels that count: where there is one column or one row only, it counts twice. */
  predicate Counts(ps: seq<Pixel>, p: Pixel, q: Pixel, s: Pixel, t: Pixel) {
    || ps == [p, q, s, t]
    || (ps == [p, q] && s == p && t == q)
    || (ps == [p, s] && q == p && t == s)
    || (ps == [p] && q == p && s == p && t == p)
  }

  lemma {:induction false} MeanCounts(ps: seq<Pixel>, p: Pixel, q: Pixel, s: Pixel, t: Pixel, c: nat)
    requires Counts(ps, p, q, s, t)
    ensures ps != [] && IsQuarter(Mean(ps, c), Channel(p, c), Channel(q, c), Channel(s, c), Channel(t, c))
  {
    hide Sum, Channel;
    SumsTo(ps, c);
  }

  lemma {:induction false} AverageCounts(ps: seq<Pixel>, p: Pixel, q: Pixel, s: Pixel, t: Pixel)
    requires Counts(ps, p, q, s, t)
    ensures ps != [] && IsMean(Average(ps), p, q, s, t)
  {
    hide Mean, Counts, IsQuarter;
    MeanCounts(ps, p, q, s, t, 0);
    MeanCounts(ps, p, q, s, t, 1);
    MeanCounts(ps, p, q, s, t, 2);
    MeanCounts(ps, p, q, s, t, 3);
  }

  lemma {:induction false} UnderCounts(img: Image, w: nat, h: nat, x: nat, y: nat)
    requires Sized(img, w, h) && 2 * x < w && 2 * y < h && (w == 1 || 2 * x + 1 < w) && (h == 1 || 2 * y + 1 < h)
    ensures var x', y' := if w == 1 then 0 else 2 * x + 1, if h == 1 then 0 else 2 * y + 1;
            Counts(Under(img, w, h, x, y, 4), img[2 * y][2 * x], img[2 * y][x'], img[y'][2 * x], img[y'][x'])
  {
    hide Under, Pick;
    NoneUnder(img, w, h, x, y);
    NextUnder(img, w, h, x, y, 0, 0);
    NextUnder(img, w, h, x, y, 1, 0);
    NextUnder(img, w, h, x, y, 0, 1);
    NextUnder(img, w, h, x, y, 1, 1);
    Picks(img, w, h, 2 * x, 2 * y);
    Picks(img, w, h, 2 * x + 1, 2 * y);
    Picks(img, w, h, 2 * x, 2 * y + 1);
    Picks(img, w, h, 2 * x + 1, 2 * y + 1);
  }

  lemma {:induction false} Picks(img: Image, w: nat, h: nat, x: nat, y: nat)
    requires Sized(img, w, h)
    ensures x < w && y < h ==> Pick(img, w, h, x, y) == [img[y][x]]
    ensures x >= w || y >= h ==> Pick(img, w, h, x, y) == []
  {
  }

  /** A halved image has half the columns and rows, but at least one, and each of its pixels is the mean of the
      four it covers. A side of one pixel counts twice. */
  lemma {:induction false} HalvedInNumbers(img: Image, w: nat, h: nat, x: nat, y: nat)
    requires Sized(img, w, h) && w > 0 && h > 0
    requires (w == 1 && x == 0) || 2 * x + 1 < w
    requires (h == 1 && y == 0) || 2 * y + 1 < h
    ensures var dst, x', y' := Halved(img, w, h), if w == 1 then 0 else 2 * x + 1, if h == 1 then 0 else 2 * y + 1;
            && |dst| == (if h == 1 then 1 else h / 2) && y < |dst|
            && |dst[y]| == (if w == 1 then 1 else w / 2) && x < |dst[y]|
            && IsMean(dst[y][x], img[2 * y][2 * x], img[2 * y][x'], img[y'][2 * x], img[y'][x'])
  {
    hide Under, Average, IsMean, Counts;
    UnderCounts(img, w, h, x, y);
    var x', y' := if w == 1 then 0 else 2 * x + 1, if h == 1 then 0 else 2 * y + 1;
    AverageCounts(Under(img, w, h, x, y, 4), img[2 * y][2 * x], img[2 * y][x'], img[y'][2 * x], img[y'][x']);
    assert y < Half(h) && x < Half(w);
  }

  // ---- Sizes ----

  /** n pixels, or the one that an empty side counts for, lie in exactly this many groups of four. */
  predicate Groups(n: nat, b: nat) {
    4 * b - 3 <= (if n == 0 then 1 else n) <= 4 * b
  }

  /** Formats 13, 14 and 15 are DXT1, DXT3 and DXT5; 0 and 12 are RGBA8888 and BGRA8888, and 24 is RGBA16161616F. */
  lemma {:induction false} SizeInNumbers(w: nat, h: nat, across: nat, down: nat)
    requires Groups(w, across) && Groups(h, down)
    ensures MipSize(13, w, h) == across * down * 8
    ensures MipSize(14, w, h) == MipSize(15, w, h) == across * down * 16
    ensures MipSize(0, w, h) == MipSize(12, w, h) == w * h * 4
    ensures MipSize(24, w, h) == w * h * 8
    ensures forall format :: format !in {0, 12, 13, 14, 15, 24} ==> MipSize(format, w, h) == 0
  {
    assert across == Blocks(w) && down == Blocks(h);
  }

  // ---- Pixels that are not in blocks ----

  function Bytes4(p: Pixel, format: nat): (s: seq<byte>)
    ensures |s| == 4
  {
    if format == 12 then [p.b, p.g, p.r, p.a] else [p.r, p.g, p.b, p.a]
  }

  lemma {:induction false} RowLast(row: seq<Pixel>, format: nat)
    requires row != []
    ensures RawRow(row, format) == RawRow(row[..|row| - 1], format) + Bytes4(row[|row| - 1], format)
  {
  }

  lemma {:induction false} RowAt(row: seq<Pixel>, format: nat, x: nat)
    requires x < |row|
    ensures |RawRow(row, format)| == 4 * |row|
    ensures RawRow(row, format)[4 * x..4 * x + 4] == Bytes4(row[x], format)
    decreases |row|
  {
    hide RawRow, Bytes4;
    var n := |row| - 1;
    var init := RawRow(row[..n], format);
    RawRowLength(row, format);
    RawRowLength(row[..n], format);
    RowLast(row, format);
    if x < n {
      RowAt(row[..n], format, x);
      InFront(init, Bytes4(row[n], format), 4 * x, 4 * x + 4);
    } else {
      assert (init + Bytes4(row[n], format))[4 * n..] == Bytes4(row[n], format);
    }
  }

  lemma {:induction false} InFront(a: seq<byte>, b: seq<byte>, i: nat, j: nat)
    requires i <= j <= |a|
    ensures (a + b)[i..j] == a[i..j]
  {
  }

  lemma {:induction false} RawRowAt(img: Image, w: nat, h: nat, format: nat, y: nat)
    requires Sized(img, w, h) && y < h
    ensures 0 <= y * (4 * w) <= y * (4 * w) + 4 * w <= |Raw(img, format)|
    ensures Raw(img, format)[y * (4 * w)..y * (4 * w) + 4 * w] == RawRow(img[y], format)
    decreases h
  {
    hide RawRow;
    var n := h - 1;
    assert Sized(img[..n], w, n);
    RawLength(img[..n], w, n, format);
    RawRowLength(img[n], format);
    var init := Raw(img[..n], format);
    assert Raw(img, format) == init + RawRow(img[n], format);
    if y < n {
      RawRowAt(img[..n], w, n, format, y);
      InFront(init, RawRow(img[n], format), y * (4 * w), y * (4 * w) + 4 * w);
    }
  }

  lemma {:induction false} Offset(x: nat, y: nat, w: nat)
    ensures y * (4 * w) + 4 * x == 4 * (y * w + x)
  {
  }

  /** Row by row four bytes a pixel: red, green, blue and alpha, or in format 12 blue, green, red and alpha. */
  lemma {:induction false} PixelsInOrder(l: Level, format: nat, x: nat, y: nat)
    requires Proper(l) && format !in {13, 14, 15} && x < l.w && y < l.h
    ensures var s, at := EncodedLevel(l, format), 4 * (y * l.w + x);
            && at + 4 <= |s| == 4 * (l.w * l.h)
            && s[at..at + 4] == Bytes4(l.img[y][x], format)
  {
    hide RawRow, Raw;
    var s, from := Raw(l.img, format), y * (4 * l.w);
    LevelLength(l, format);
    Area(l.h, l.w, 4);
    Area(l.h, 4, l.w);
    RawRowAt(l.img, l.w, l.h, format, y);
    RowAt(l.img[y], format, x);
    Offset(x, y, l.w);
    Narrower(s, from, from + 4 * l.w, 4 * x, 4 * x + 4);
  }

  lemma {:induction false} Narrower(s: seq<byte>, from: nat, to: nat, a: nat, b: nat)
    requires from + b <= to <= |s| && a <= b
    ensures s[from..to][a..b] == s[from + a..from + b]
  {
    var t := s[from..to];
    assert forall i :: a <= i < b ==> t[a..b][i - a] == t[i] == s[from + i];
  }

  // ---- The header ----

  /** The parts of a header, each by offsets from its own start. */
  lemma {:induction false} StartInNumbers(s: Settings)
    requires Words(s)
    ensures var d := Start(s);
            d[..4] == [86, 84, 70, 0] && Four(d, 4) == s.major && Four(d, 8) == s.minor && Four(d, 12) == 80
  {
    hide ToLE, Four;
    var d := Start(s);
    FourWritten(s.major);
    FourWritten(s.minor);
    FourWritten(80);
    assert d[4..8] == ToLE(s.major, 4) && d[8..12] == ToLE(s.minor, 4) && d[12..16] == ToLE(80, 4);
    SameFour(d, 4, ToLE(s.major, 4), s.major);
    SameFour(d, 8, ToLE(s.minor, 4), s.minor);
    SameFour(d, 12, ToLE(80, 4), 80);
  }

  lemma {:induction false} ShapeInNumbers(s: Settings, w: nat, h: nat)
    requires Words(s) && w < 0x1_0000 && h < 0x1_0000
    ensures var d := Shape(s, w, h);
            && Two(d, 0) == w && Two(d, 2) == h && Four(d, 4) == s.flags && Two(d, 8) == 1
            && AllZero(d, 10, 16)
  {
    hide ToLE, Four, Two;
    var d := Shape(s, w, h);
    TwoWritten(w);
    TwoWritten(h);
    FourWritten(s.flags);
    TwoWritten(1);
    NoHalf();
    SameTwo(d, 0, ToLE(w, 2), w);
    SameTwo(d, 2, ToLE(h, 2), h);
    SameFour(d, 4, ToLE(s.flags, 4), s.flags);
    SameTwo(d, 8, ToLE(1, 2), 1);
  }

  lemma {:induction false} NoHalf()
    ensures ToLE(0, 2) == [0, 0]
  {
    OneByte(0);
  }

  lemma {:induction false} LightInNumbers(s: Settings)
    requires Words(s)
    ensures var d := Light(s);
            Four(d, 0) == s.red && Four(d, 4) == s.green && Four(d, 8) == s.blue && AllZero(d, 12, 16)
  {
    hide ToLE, Four;
    var d := Light(s);
    FourWritten(s.red);
    FourWritten(s.green);
    FourWritten(s.blue);
    SameFour(d, 0, ToLE(s.red, 4), s.red);
    SameFour(d, 4, ToLE(s.green, 4), s.green);
    SameFour(d, 8, ToLE(s.blue, 4), s.blue);
  }

  lemma {:induction false} LayoutInNumbers(s: Settings, levels: nat)
    requires Words(s) && levels < 256
    ensures var d := Layout(s, levels);
            && Four(d, 0) == s.bump && Four(d, 4) == s.format && d[8] == levels
            && d[9..13] == [255, 255, 255, 255] && d[13] == 0 && d[14] == 0 && Two(d, 15) == 1
            && AllZero(d, 17, 32)
  {
    hide ToLE, Four, Two;
    var d := Layout(s, levels);
    FourWritten(s.bump);
    FourWritten(s.format);
    OneByte(levels);
    AllOnes();
    TwoWritten(1);
    SameFour(d, 0, ToLE(s.bump, 4), s.bump);
    SameFour(d, 4, ToLE(s.format, 4), s.format);
    SameTwo(d, 15, ToLE(1, 2), 1);
  }

  lemma {:induction false} AllOnes()
    ensures ToLE(0xFFFF_FFFF, 4) == [255, 255, 255, 255]
  {
    assert ToLE(0xFFFF_FFFF, 4) == [255] + ToLE(0xFF_FFFF, 3);
    assert ToLE(0xFF_FFFF, 3) == [255] + ToLE(0xFFFF, 2);
    assert ToLE(0xFFFF, 2) == [255] + ToLE(0xFF, 1);
    OneByte(0xFF);
  }

  /** Every byte of the header by its offset. */
  lemma {:induction false} HeaderInNumbers(s: Settings, w: nat, h: nat, levels: nat)
    requires Words(s) && w < 0x1_0000 && h < 0x1_0000 && levels < 256
    ensures var d := HeaderBytes(s, w, h, levels);
            && |d| == 80
            && d[..4] == [86, 84, 70, 0] && Four(d, 4) == s.major && Four(d, 8) == s.minor && Four(d, 12) == 80
            && Two(d, 16) == w && Two(d, 18) == h && Four(d, 20) == s.flags && Two(d, 24) == 1
            && AllZero(d, 26, 32)
            && Four(d, 32) == s.red && Four(d, 36) == s.green && Four(d, 40) == s.blue && AllZero(d, 44, 48)
            && Four(d, 48) == s.bump && Four(d, 52) == s.format && d[56] == levels
            && d[57..61] == [255, 255, 255, 255] && d[61] == 0 && d[62] == 0 && Two(d, 63) == 1
            && AllZero(d, 65, 80)
  {
    hide Start, Shape, Light, Layout;
    StartInNumbers(s);
    ShapeInNumbers(s, w, h);
    LightInNumbers(s);
    LayoutInNumbers(s, levels);
    var d := HeaderBytes(s, w, h, levels);
    assert d[..4] == Start(s)[..4];
    assert forall i :: 0 <= i < 16 ==> d[i] == Start(s)[i];
    assert forall i :: 0 <= i < 16 ==> d[i + 16] == Shape(s, w, h)[i];
    assert forall i :: 0 <= i < 16 ==> d[i + 32] == Light(s)[i];
    assert forall i :: 0 <= i < 32 ==> d[i + 48] == Layout(s, levels)[i];
    assert d[57..61] == Layout(s, levels)[9..13];
  }

  /** And what a reader takes from any header: each field from its offset, the low-resolution format as a signed number,
      and a depth only from minor version 2 on. */
  lemma {:induction false} ReadInNumbers(d: seq<byte>)
    requires |d| >= 80
    ensures ReadHeader(d).Some? <==> d[..4] == [86, 84, 70, 0]
    ensures ReadHeader(d).Some? ==>
              var r := ReadHeader(d).value;
              && r.major == Four(d, 4) && r.minor == Four(d, 8) && r.headerSize == Four(d, 12)
              && r.width == Two(d, 16) && r.height == Two(d, 18) && r.flags == Four(d, 20) && r.frames == Two(d, 24)
              && r.red == Four(d, 32) && r.green == Four(d, 36) && r.blue == Four(d, 40) && r.bump == Four(d, 48)
              && r.format == Four(d, 52) && r.mipmaps == d[56] && r.lowW == d[61] && r.lowH == d[62]
              && r.lowFormat == Four(d, 57) - (if d[60] < 128 then 0 else 0x1_0000_0000)
              && r.depth == if Four(d, 8) < 2 then 1 else Two(d, 63)
  {
    hide FromLE, Four, Two;
    FourBytes(d, 4);
    FourBytes(d, 8);
    FourBytes(d, 12);
    TwoBytes(d, 16);
    TwoBytes(d, 18);
    FourBytes(d, 20);
    TwoBytes(d, 24);
    FourBytes(d, 32);
    FourBytes(d, 36);
    FourBytes(d, 40);
    FourBytes(d, 48);
    FourBytes(d, 52);
    FourBytes(d, 57);
    TwoBytes(d, 63);
    HighBit(d, 57);
  }

  lemma {:induction false} HighBit(d: seq<byte>, i: nat)
    requires i + 4 <= |d|
    ensures Four(d, i) < 0x8000_0000 <==> d[i + 3] < 128
  {
  }

  // ---- Whole files ----

  /** Without mips the image follows the header. */
  lemma {:induction false} PlainFile(img: Image, w: nat, h: nat, s: Settings)
    requires Proper(Level(img, w, h))
    ensures VtfFile(img, w, h, s, false) ==
            HeaderBytes(s, w % 0x1_0000, h % 0x1_0000, 1) + EncodedLevel(Level(img, w, h), s.format)
  {
    hide EncodedLevel, HeaderBytes, Sized;
    assert Body([], s.format) == [];
    var ls := [Level(img, w, h)];
    assert ls[1..] == [];
  }

  lemma {:induction false} BodyFrom(l: Level, format: nat, i: nat)
    requires Proper(l) && i < |Levels(l)|
    ensures Body(Levels(l)[i + 1..], format) + EncodedLevel(Levels(l)[i], format) <= Body(Levels(l), format)
    decreases i
  {
    hide EncodedLevel, Halved, Sized;
    var ls := Levels(l);
    if i > 0 {
      var next := Level(Halved(l.img, l.w, l.h), Half(l.w), Half(l.h));
      assert ls[1..] == Levels(next);
      BodyFrom(next, format, i - 1);
      assert ls[1..][i..] == ls[i + 1..];
    }
  }

  /** With mips the smallest comes first: in front of each level lie the header and every smaller one. */
  lemma {:induction false} SmallestFirst(img: Image, w: nat, h: nat, s: Settings, i: nat)
    requires Proper(Level(img, w, h)) && i < |Levels(Level(img, w, h))|
    ensures var ls, file := Levels(Level(img, w, h)), VtfFile(img, w, h, s, true);
            && HeaderBytes(s, w % 0x1_0000, h % 0x1_0000, |ls| % 256) + Body(ls[i + 1..], s.format)
               + EncodedLevel(ls[i], s.format) <= file
  {
    hide EncodedLevel, HeaderBytes, Levels, Body, Sized;
    BodyFrom(Level(img, w, h), s.format, i);
    var ls := Levels(Level(img, w, h));
    var head := HeaderBytes(s, w % 0x1_0000, h % 0x1_0000, |ls| % 256);
    var rest, body := Body(ls[i + 1..], s.format) + EncodedLevel(ls[i], s.format), Body(ls, s.format);
    assert head + Body(ls[i + 1..], s.format) + EncodedLevel(ls[i], s.format) == head + rest;
    assert body == rest + body[|rest|..];
  }

  // ---- What the converter refuses ----

  /** It refuses a file for exactly three reasons, in this order. */
  lemma {:induction false} RefusedExactly(raw: seq<byte>, format: nat, w: nat, h: nat)
    requires |raw| >= 80 ==> Four(raw, 52) == format && Two(raw, 16) == w && Two(raw, 18) == h
    ensures Unpack(raw).NotVtf? <==> |raw| < 80 || raw[..4] != [86, 84, 70, 0]
    ensures |raw| >= 80 && raw[..4] == [86, 84, 70, 0] ==>
              && (Unpack(raw).Truncated? <==> |raw| < MipSize(format, w, h))
              && (Unpack(raw).Unsupported? <==> |raw| >= MipSize(format, w, h) && format !in {13, 14, 15})
  {
    hide MipSize, FromLE, Four, Two;
    if |raw| >= 80 {
      FourBytes(raw, 52);
      TwoBytes(raw, 16);
      TwoBytes(raw, 18);
    }
  }
}
