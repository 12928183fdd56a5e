/** What the encoder writes for a block, in plain numbers: which endpoints, which index for each pixel, and where in
    the data. The four colours and the eight alphas a block can stand for are those that the decoder's inequalities
    describe. */
module DxtEncoded {
  import opened Bytes
  import opened WordBytes
  import opened Dxt
  import opened DxtNumbers
  import opened DxtRoundTrip

  /** The smallest and the largest value of each channel in a block. */
  predicate Spans(px: seq<Pixel>, lo: Pixel, hi: Pixel) {
    && (forall i :: 0 <= i < |px| ==>
          lo.r <= px[i].r <= hi.r && lo.g <= px[i].g <= hi.g && lo.b <= px[i].b <= hi.b && lo.a <= px[i].a <= hi.a)
    && (exists i :: 0 <= i < |px| && px[i].r == lo.r) && (exists i :: 0 <= i < |px| && px[i].r == hi.r)
    && (exists i :: 0 <= i < |px| && px[i].g == lo.g) && (exists i :: 0 <= i < |px| && px[i].g == hi.g)
    && (exists i :: 0 <= i < |px| && px[i].b == lo.b) && (exists i :: 0 <= i < |px| && px[i].b == hi.b)
    && (exists i :: 0 <= i < |px| && px[i].a == lo.a) && (exists i :: 0 <= i < |px| && px[i].a == hi.a)
  }

  lemma {:induction false} ExtremesAre(px: seq<Pixel>, lo: Pixel, hi: Pixel)
    requires |px| == 16 && Spans(px, lo, hi)
    ensures lo == Pixel(Least(px, 0), Least(px, 1), Least(px, 2), Least(px, 3))
    ensures hi == Pixel(Most(px, 0), Most(px, 1), Most(px, 2), Most(px, 3))
  {
    hide Most, Least, Spans;
    OneExtreme(px, lo, hi, 0);
    OneExtreme(px, lo, hi, 1);
    OneExtreme(px, lo, hi, 2);
    OneExtreme(px, lo, hi, 3);
  }

  lemma {:induction false} OneExtreme(px: seq<Pixel>, lo: Pixel, hi: Pixel, c: nat)
    requires |px| == 16 && Spans(px, lo, hi) && c < 4
    ensures Channel(lo, c) == Least(px, c) && Channel(hi, c) == Most(px, c)
  {
    hide Most, Least;
    var m, n := Most(px, c), Least(px, c);
    var i :| 0 <= i < |px| && Channel(px[i], c) == m;
    var j :| 0 <= j < |px| && Channel(px[j], c) == n;
    assert Channel(px[i], c) <= Channel(hi, c) && Channel(lo, c) <= Channel(px[j], c);
    assert exists k :: 0 <= k < |px| && Channel(px[k], c) == Channel(hi, c) by { Attained(px, lo, hi, c); }
    assert exists k :: 0 <= k < |px| && Channel(px[k], c) == Channel(lo, c) by { Attained(px, lo, hi, c); }
  }

  lemma {:induction false} Attained(px: seq<Pixel>, lo: Pixel, hi: Pixel, c: nat)
    requires Spans(px, lo, hi) && c < 4
    ensures exists k :: 0 <= k < |px| && Channel(px[k], c) == Channel(hi, c)
    ensures exists k :: 0 <= k < |px| && Channel(px[k], c) == Channel(lo, c)
  {
    if c == 0 {
      var i :| 0 <= i < |px| && px[i].r == lo.r;
      var j :| 0 <= j < |px| && px[j].r == hi.r;
      assert Channel(px[i], c) == Channel(lo, c) && Channel(px[j], c) == Channel(hi, c);
    } else if c == 1 {
      var i :| 0 <= i < |px| && px[i].g == lo.g;
      var j :| 0 <= j < |px| && px[j].g == hi.g;
      assert Channel(px[i], c) == Channel(lo, c) && Channel(px[j], c) == Channel(hi, c);
    } else if c == 2 {
      var i :| 0 <= i < |px| && px[i].b == lo.b;
      var j :| 0 <= j < |px| && px[j].b == hi.b;
      assert Channel(px[i], c) == Channel(lo, c) && Channel(px[j], c) == Channel(hi, c);
    } else {
      var i :| 0 <= i < |px| && px[i].a == lo.a;
      var j :| 0 <= j < |px| && px[j].a == hi.a;
      assert Channel(px[i], c) == Channel(lo, c) && Channel(px[j], c) == Channel(hi, c);
    }
  }

  /** A colour in 5, 6 and 5 bits: the low bits of each channel are dropped. */
  function Packed(p: Pixel): nat {
    var r: nat, g: nat, b: nat := p.r, p.g, p.b;
    r / 8 * 2048 + g / 4 * 32 + b / 8
  }

  lemma {:induction false} PackedInOrder(lo: Pixel, hi: Pixel)
    requires lo.r <= hi.r && lo.g <= hi.g && lo.b <= hi.b
    ensures Packed(lo) <= Packed(hi)
    ensures Packed(lo) == To565(lo.r, lo.g, lo.b) && Packed(hi) == To565(hi.r, hi.g, hi.b)
  {
  }

  /** The endpoints are the corners of the block's bounding box, the larger ones first. */
  lemma {:induction false} EndpointsInNumbers(px: seq<Pixel>, lo: Pixel, hi: Pixel)
    requires |px| == 16 && Spans(px, lo, hi)
    ensures Two(Block(px, 13), 0) == Packed(hi) && Two(Block(px, 13), 2) == Packed(lo)
    ensures Two(Block(px, 15), 8) == Packed(hi) && Two(Block(px, 15), 10) == Packed(lo)
    ensures Block(px, 15)[0] == hi.a && Block(px, 15)[1] == lo.a
  {
    hide Most, Least, FromLE, Spans, Packed, To565, ColourBits, AlphaBits, Two;
    ExtremesAre(px, lo, hi);
    InOrder(px, lo, hi);
    PackedInOrder(lo, hi);
    ColourParts(px);
    AlphaParts(px);
    var s, t := Block(px, 13), Block(px, 15);
    TwoBytes(s, 0);
    TwoBytes(s, 2);
    TwoBytes(t, 8);
    TwoBytes(t, 10);
    assert t[8..10] == s[0..2] && t[10..12] == s[2..4] && s[0..2] == s[..2];
  }

  lemma {:induction false} InOrder(px: seq<Pixel>, lo: Pixel, hi: Pixel)
    requires |px| == 16 && Spans(px, lo, hi)
    ensures lo.r <= hi.r && lo.g <= hi.g && lo.b <= hi.b && lo.a <= hi.a
  {
    assert lo.r <= px[0].r <= hi.r;
  }

  // ---- The nearest entry ----

  /** The sum of the squares of the differences in red, green and blue. */
  function Apart(p: Pixel, q: Pixel): int {
    var r, g, b := (p.r as int) - (q.r as int), (p.g as int) - (q.g as int), (p.b as int) - (q.b as int);
    r * r + g * g + b * b
  }

  lemma {:induction false} ApartIsDist(p: Pixel, q: Pixel)
    ensures Apart(p, q) == Dist(p, Rgb(q.r, q.g, q.b))
  {
  }

  lemma {:induction false} OneEntry(c0: nat, c1: nat, thirds: bool, q0: Rgb, q1: Rgb, k: nat, q: Pixel)
    requires c0 < 0x1_0000 && c1 < 0x1_0000 && StandsFor(c0, q0) && StandsFor(c1, q1) && k < 4
    requires Interpolated(q, q0, q1, k, thirds)
    ensures Rgb(q.r, q.g, q.b) == Palette(c0, c1, thirds)[k]
  {
    hide StandsFor, From565, Interpolated;
    Interpolates(c0, c1, thirds, q0, q1, k, q.a);
    PaletteFits(c0, c1, thirds);
    var e := Palette(c0, c1, thirds)[k];
    SameEntry(q, Pixel(e.r % 256, e.g % 256, e.b % 256, q.a), q0, q1, k, thirds);
  }

  lemma {:induction false} SameEntry(p: Pixel, q: Pixel, q0: Rgb, q1: Rgb, k: nat, thirds: bool)
    requires k < 4 && Interpolated(p, q0, q1, k, thirds) && Interpolated(q, q0, q1, k, thirds)
    ensures p.r == q.r && p.g == q.g && p.b == q.b
  {
  }

  /** Of the four colours that the written block can stand for - at the index k that is q - none is closer to the
      original pixel than the one it decodes to. */
  lemma {:induction false} NearestInNumbers(px: seq<Pixel>, i: nat, format: nat, q0: Rgb, q1: Rgb, k: nat, q: Pixel)
    requires |px| == 16 && i < 16 && (format == 13 || format == 15) && k < 4
    requires var blk := Block(px, format);
             && StandsFor(Two(blk, Colours(format)), q0) && StandsFor(Two(blk, Colours(format) + 2), q1)
             && Interpolated(q, q0, q1, k, Thirds(blk, format))
    ensures Apart(px[i], BlockPixel(Block(px, format), format, i)) <= Apart(px[i], q)
  {
    hide StandsFor, Palette, Interpolated, Dist, Apart, High, Lowest, Two, BlockPixel, Block;
    var blk, at := Block(px, format), Colours(format);
    WrittenEndpoints(px, format);
    ColourOfBlock(px, i, format);
    TwoBytes(blk, at);
    TwoBytes(blk, at + 2);
    OneEntry(Two(blk, at), Two(blk, at + 2), Thirds(blk, format), q0, q1, k, q);
    ApartIsDist(px[i], q);
    ApartIsDist(px[i], BlockPixel(blk, format, i));
    assert Palette(High(px), Lowest(px), Thirds(blk, format))[k] in Entries(px, format);
  }

  lemma {:induction false} WrittenEndpoints(px: seq<Pixel>, format: nat)
    requires |px| == 16 && (format == 13 || format == 15)
    ensures var blk, at := Block(px, format), Colours(format);
            Two(blk, at) == High(px) && Two(blk, at + 2) == Lowest(px)
  {
    hide High, Lowest, FromLE, ColourBits, AlphaBits, Two, Most, Least;
    var blk, at := Block(px, format), Colours(format);
    ColourParts(px);
    TwoBytes(blk, at);
    TwoBytes(blk, at + 2);
    var s := ColourBlock(px);
    assert blk[at..at + 2] == s[..2] && blk[at + 2..at + 4] == s[2..4];
  }

  function Off(v: int, a: int): int {
    if v < a then a - v else v - a
  }

  /** The same for alpha: none of the eight values between the block's extremes is closer. */
  lemma {:induction false} NearestAlphaInNumbers(px: seq<Pixel>, i: nat, lo: Pixel, hi: Pixel, k: nat, t: nat)
    requires |px| == 16 && i < 16 && Spans(px, lo, hi) && k < 8 && AlphaEntry(t, hi.a, lo.a, k)
    ensures Off(px[i].a, Back(px, i, 15).a) <= Off(px[i].a, t)
    ensures px[i].a == hi.a || px[i].a == lo.a ==> Back(px, i, 15).a == px[i].a
  {
    hide Spans, Back, AlphaTable, AlphaEntry, Most, Least;
    ExtremesAre(px, lo, hi);
    AlphaOfBlock(px, i);
    TableEntry(hi.a, lo.a, k);
    SameAlpha(t, AlphaTable(hi.a, lo.a)[k], hi.a, lo.a, k);
    assert AlphaTable(hi.a, lo.a)[k] in Alphas(px);
  }

  lemma {:induction false} SameAlpha(t: nat, u: nat, a0: nat, a1: nat, k: nat)
    requires k < 8 && AlphaEntry(t, a0, a1, k) && AlphaEntry(u, a0, a1, k)
    ensures t == u
  {
  }

  // ---- Where the blocks are ----

  /** The sixteen pixels from (x0, y0) on, row by row; beyond the image's edge its last column and row go on. */
  predicate Covers(px: seq<Pixel>, img: Image, w: nat, h: nat, x0: nat, y0: nat)
    requires Sized(img, w, h) && w > 0 && h > 0 && |px| == 16
  {
    forall i :: 0 <= i < 16 ==>
      px[i] == img[if y0 + i / 4 < h then y0 + i / 4 else h - 1][if x0 + i % 4 < w then x0 + i % 4 else w - 1]
  }

  lemma {:induction false} OnlyCover(px: seq<Pixel>, img: Image, w: nat, h: nat, col: nat, row: nat)
    requires Sized(img, w, h) && w > 0 && h > 0 && |px| == 16 && Covers(px, img, w, h, 4 * col, 4 * row)
    ensures px == BlockAt(img, w, h, col, row)
  {
    var qx := BlockAt(img, w, h, col, row);
    assert forall i :: 0 <= i < 16 ==> px[i] == qx[i];
  }

  /** The encoder writes the blocks row by row, each of the sixteen pixels it covers. */
  lemma {:induction false} EncodedInNumbers(img: Image, w: nat, h: nat, format: nat, size: nat, x: nat, y: nat,
         px: seq<Pixel>)
    requires Sized(img, w, h) && x < w && y < h && |px| == 16 && Covers(px, img, w, h, x / 4 * 4, y / 4 * 4)
    requires (format == 13 && size == 8) || (format == 15 && size == 16)
    ensures Place(w, x, y, size) + size <= |Encoded(img, w, h, format)|
    ensures Encoded(img, w, h, format)[Place(w, x, y, size)..Place(w, x, y, size) + size] == Block(px, format)
  {
    hide Encoded, Block, Covers;
    OnlyCover(px, img, w, h, x / 4, y / 4);
    Inside(x, w);
    Inside(y, h);
    BlockSlice(img, w, h, format, x / 4, y / 4, Place(w, x, y, size));
  }
}
