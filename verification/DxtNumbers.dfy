/** The block formats in plain numbers: what each byte of a block means for each pixel. Colours and alphas are told
    by inequalities between the decoded values and the numbers that the endpoints' bytes make, and indices by
    division, without the shifts, masks and tables of the codec. */
module DxtNumbers {
  import opened Bytes
  import opened WordBytes
  import opened BitFields
  import opened Dxt

  // ---- The numbers ----

  /** Divided by 4 this often. */
  function Down4(n: nat, c: nat): nat {
    if c == 0 then n else Down4(n / 4, c - 1)
  }

  function Down8(n: nat, c: nat): nat {
    if c == 0 then n else Down8(n / 8, c - 1)
  }

  /** q is the colour that these sixteen bits stand for: 5, 6 and 5 bits, scaled to 255 and rounded down. */
  predicate StandsFor(c: nat, q: Rgb) {
    && 31 * q.r <= 255 * (c / 2048) < 31 * q.r + 31
    && 63 * q.g <= 255 * (c / 32 % 64) < 63 * q.g + 63
    && 31 * q.b <= 255 * (c % 32) < 31 * q.b + 31
  }

  /** p is two parts of a and one of b, rounded down. */
  predicate IsThird(p: nat, a: nat, b: nat) {
    3 * p <= 2 * a + b < 3 * p + 3
  }

  predicate IsHalf(p: nat, a: nat, b: nat) {
    2 * p <= a + b < 2 * p + 2
  }

  /** What the pixel is, with the two endpoints q0 and q1 and the index k. */
  predicate Interpolated(p: Pixel, q0: Rgb, q1: Rgb, k: nat, thirds: bool) {
    && (k == 0 ==> p.r == q0.r && p.g == q0.g && p.b == q0.b)
    && (k == 1 ==> p.r == q1.r && p.g == q1.g && p.b == q1.b)
    && (k == 2 && thirds ==> IsThird(p.r, q0.r, q1.r) && IsThird(p.g, q0.g, q1.g) && IsThird(p.b, q0.b, q1.b))
    && (k == 3 && thirds ==> IsThird(p.r, q1.r, q0.r) && IsThird(p.g, q1.g, q0.g) && IsThird(p.b, q1.b, q0.b))
    && (k == 2 && !thirds ==> IsHalf(p.r, q0.r, q1.r) && IsHalf(p.g, q0.g, q1.g) && IsHalf(p.b, q0.b, q1.b))
    && (k == 3 && !thirds ==> p.r == 0 && p.g == 0 && p.b == 0)
  }

  predicate IsSeventh(t: nat, sum: nat) {
    7 * t <= sum < 7 * t + 7
  }

  predicate IsFifth(t: nat, sum: nat) {
    5 * t <= sum < 5 * t + 5
  }

  /** The value that index k stands for between two alphas, before it is cut to a byte. */
  predicate AlphaEntry(t: nat, a0: nat, a1: nat, k: nat) {
    && (k == 0 ==> t == a0)
    && (k == 1 ==> t == a1)
    && (a0 > a1 ==>
          && (k == 2 ==> IsSeventh(t, 7 * a0 + a1)) && (k == 3 ==> IsSeventh(t, 6 * a0 + 2 * a1))
          && (k == 4 ==> IsSeventh(t, 5 * a0 + 3 * a1)) && (k == 5 ==> IsSeventh(t, 4 * a0 + 4 * a1))
          && (k == 6 ==> IsSeventh(t, 3 * a0 + 5 * a1)) && (k == 7 ==> IsSeventh(t, 2 * a0 + 6 * a1)))
    && (a0 <= a1 ==>
          && (k == 2 ==> IsFifth(t, 5 * a0 + a1)) && (k == 3 ==> IsFifth(t, 4 * a0 + 2 * a1))
          && (k == 4 ==> IsFifth(t, 3 * a0 + 3 * a1)) && (k == 5 ==> IsFifth(t, 2 * a0 + 4 * a1))
          && (k == 6 ==> t == 0) && (k == 7 ==> t == 255))
  }

  // ---- The indices ----

  lemma {:induction false} LowBits(m: nat)
    ensures Low(m, 2) == m % 4 && Low(m, 3) == m % 8
  {
    assert Low(m / 2, 1) == m / 2 % 2;
    assert Low(m / 2, 2) == m / 2 % 2 + 2 * Low(m / 2 / 2, 1);
    assert Low(m / 4, 1) == m / 4 % 2;
  }

  lemma {:induction false} ShrTwo(n: nat)
    ensures Shr(n, 0) == n && Shr(n, 2) == n / 4 && Shr(n, 3) == n / 8
  {
    assert Shr(n, 2) == Shr(n / 2, 1) == Shr(n / 2 / 2, 0);
    assert Shr(n, 3) == Shr(n / 2, 2) == Shr(n / 2 / 2, 1) == Shr(n / 2 / 2 / 2, 0);
  }

  lemma {:induction false} ShrIsDown(n: nat, c: nat)
    ensures Shr(n, 2 * c) == Down4(n, c) && Shr(n, 3 * c) == Down8(n, c)
    decreases c
  {
    hide Shr;
    ShrTwo(n);
    if c > 0 {
      ShrIsDown(n / 4, c - 1);
      ShrIsDown(n / 8, c - 1);
      ShrTwice(n, 2, 2 * (c - 1));
      ShrTwice(n, 3, 3 * (c - 1));
    }
  }

  lemma {:induction false} FieldsAreDigits(n: nat, i: nat)
    ensures Field(n, 2, i) == Down4(n, i) % 4 && Field(n, 3, i) == Down8(n, i) % 8
  {
    hide Shr, Low;
    ShrIsDown(n, i);
    LowBits(Down4(n, i));
    LowBits(Down8(n, i));
  }

  function Up4(m: nat, c: nat): nat {
    if c == 0 then m else 4 * Up4(m, c - 1)
  }

  function Up8(m: nat, c: nat): nat {
    if c == 0 then m else 8 * Up8(m, c - 1)
  }

  /** What is added above a digit does not reach it, and is what is left when all below it is gone. */
  lemma {:induction false} Above4(x: nat, m: nat, c: nat)
    ensures Down4(x + Up4(m, c + 1), c) % 4 == Down4(x, c) % 4
    ensures Down4(x + Up4(m, c), c) == Down4(x, c) + m
    decreases c
  {
    if c > 0 {
      assert (x + 4 * Up4(m, c)) / 4 == x / 4 + Up4(m, c);
      assert (x + 4 * Up4(m, c - 1)) / 4 == x / 4 + Up4(m, c - 1);
      Above4(x / 4, m, c - 1);
    }
  }

  lemma {:induction false} Above8(x: nat, m: nat, c: nat)
    ensures Down8(x + Up8(m, c + 1), c) % 8 == Down8(x, c) % 8
    ensures Down8(x + Up8(m, c), c) == Down8(x, c) + m
    decreases c
  {
    if c > 0 {
      assert (x + 8 * Up8(m, c)) / 8 == x / 8 + Up8(m, c);
      assert (x + 8 * Up8(m, c - 1)) / 8 == x / 8 + Up8(m, c - 1);
      Above8(x / 8, m, c - 1);
    }
  }

  lemma {:induction false} Up4Plus(m: nat, a: nat, b: nat)
    ensures Up4(Up4(m, a), b) == Up4(m, a + b)
    decreases b
  {
    if b > 0 {
      Up4Plus(m, a, b - 1);
    }
  }

  lemma {:induction false} Up8Plus(m: nat, a: nat, b: nat)
    ensures Up8(Up8(m, a), b) == Up8(m, a + b)
    decreases b
  {
    if b > 0 {
      Up8Plus(m, a, b - 1);
    }
  }

  lemma {:induction false} Down4Plus(n: nat, a: nat, b: nat)
    ensures Down4(n, a + b) == Down4(Down4(n, a), b)
    decreases a
  {
    if a > 0 {
      Down4Plus(n / 4, a - 1, b);
    }
  }

  lemma {:induction false} Down8Plus(n: nat, a: nat, b: nat)
    ensures Down8(n, a + b) == Down8(Down8(n, a), b)
    decreases a
  {
    if a > 0 {
      Down8Plus(n / 8, a - 1, b);
    }
  }

  lemma {:induction false} ByteIsFour(x: nat, m: nat)
    ensures Up4(m, 4) == 256 * m
    ensures x < 256 ==> Down4(x, 4) == 0
  {
    assert Up4(m, 1) == 4 * Up4(m, 0) && Up4(m, 2) == 4 * Up4(m, 1);
    assert Up4(m, 3) == 4 * Up4(m, 2) && Up4(m, 4) == 4 * Up4(m, 3);
    assert Down4(x, 4) == Down4(x / 4, 3) && Down4(x / 4, 3) == Down4(x / 4 / 4, 2);
    var y := x / 4 / 4;
    assert Down4(y, 2) == Down4(y / 4, 1) && Down4(y / 4, 1) == Down4(y / 4 / 4, 0);
  }

  lemma {:induction false} ThreeAreEight(x: nat, m: nat)
    ensures Up8(m, 8) == 16777216 * m
    ensures x < 16777216 ==> Down8(x, 8) == 0
  {
    assert Up8(m, 1) == 8 * Up8(m, 0) && Up8(m, 2) == 8 * Up8(m, 1);
    assert Up8(m, 3) == 8 * Up8(m, 2) && Up8(m, 4) == 8 * Up8(m, 3);
    assert Up8(m, 5) == 8 * Up8(m, 4) && Up8(m, 6) == 8 * Up8(m, 5);
    assert Up8(m, 7) == 8 * Up8(m, 6) && Up8(m, 8) == 8 * Up8(m, 7);
    var y := x / 8 / 8;
    assert Down8(x, 8) == Down8(x / 8, 7) && Down8(x / 8, 7) == Down8(y, 6);
    var z := y / 8 / 8;
    assert Down8(y, 6) == Down8(y / 8, 5) && Down8(y / 8, 5) == Down8(z, 4);
    var u := z / 8 / 8;
    assert Down8(z, 4) == Down8(z / 8, 3) && Down8(z / 8, 3) == Down8(u, 2);
    assert Down8(u, 2) == Down8(u / 8, 1) && Down8(u / 8, 1) == Down8(u / 8 / 8, 0);
  }

  /** The colour indices: one byte for each row of four pixels, the leftmost pixel in its lowest bits. */
  lemma {:induction false} PairAt(s: seq<byte>, i: nat)
    requires i / 4 < |s|
    ensures Field(FromLE(s), 2, i) == Down4(s[i / 4], i % 4) % 4
    decreases |s|
  {
    hide Field, Down4, Up4;
    var x: nat, m := s[0], FromLE(s[1..]);
    FieldsAreDigits(x + 256 * m, i);
    ByteIsFour(x, m);
    if i < 4 {
      Up4Plus(m, 3 - i, i + 1);
      Above4(x, Up4(m, 3 - i), i);
    } else {
      PairAt(s[1..], i - 4);
      Above4(x, m, 4);
      Down4Plus(x + 256 * m, 4, i - 4);
      FieldsAreDigits(m, i - 4);
      assert s[1..][(i - 4) / 4] == s[i / 4] && (i - 4) % 4 == i % 4;
    }
  }

  lemma {:induction false} ThreeFirst(s: seq<byte>)
    requires |s| >= 3
    ensures FromLE(s) == Three(s, 0) + 16777216 * FromLE(s[3..]) && Three(s, 0) < 16777216
  {
    assert s[1..][1..] == s[2..] && s[2..][1..] == s[3..];
    assert FromLE(s[2..]) == s[2] + 256 * FromLE(s[3..]);
    assert FromLE(s[1..]) == s[1] + 256 * FromLE(s[2..]);
  }

  /** The alpha indices: three bytes for each eight pixels. */
  lemma {:induction false} TripleAt(s: seq<byte>, i: nat)
    requires |s| == 6 && i < 16
    ensures Field(FromLE(s), 3, i) == Down8(Three(s, i / 8 * 3), i % 8) % 8
  {
    hide Field, Down8, Up8, FromLE, Three;
    ThreeFirst(s);
    ThreeFirst(s[3..]);
    var x, m := Three(s, 0), FromLE(s[3..]);
    FieldsAreDigits(FromLE(s), i);
    ThreeAreEight(x, m);
    if i < 8 {
      Up8Plus(m, 7 - i, i + 1);
      Above8(x, Up8(m, 7 - i), i);
    } else {
      Above8(x, m, 8);
      Down8Plus(x + 16777216 * m, 8, i - 8);
      var y, n := Three(s[3..], 0), FromLE(s[3..][3..]);
      ThreeAreEight(y, n);
      Up8Plus(n, 7 - (i - 8), i - 8 + 1);
      Above8(y, Up8(n, 7 - (i - 8)), i - 8);
      ThreeLater(s);
    }
  }

  lemma {:induction false} ThreeLater(s: seq<byte>)
    requires |s| == 6
    ensures Three(s[3..], 0) == Three(s, 3)
  {
  }

  // ---- Colours ----

  lemma {:induction false} Unpacked(c: nat)
    requires c < 0x1_0000
    ensures StandsFor(c, From565(c))
  {
    var r, g, b := c / 2048, c / 32 % 64, c % 32;
    assert c / 2048 % 32 == r;
    assert 31 * (r * 255 / 31) <= 255 * r < 31 * (r * 255 / 31) + 31;
    assert 63 * (g * 255 / 63) <= 255 * g < 63 * (g * 255 / 63) + 63;
    assert 31 * (b * 255 / 31) <= 255 * b < 31 * (b * 255 / 31) + 31;
  }

  lemma {:induction false} OnlyOne(c: nat, q: Rgb)
    requires c < 0x1_0000 && StandsFor(c, q)
    ensures q == From565(c)
  {
    hide From565;
    Unpacked(c);
  }

  lemma {:induction false} Between(q0: Rgb, q1: Rgb)
    ensures IsThird(Third(q0, q1).r, q0.r, q1.r) && IsThird(Third(q0, q1).g, q0.g, q1.g)
    ensures IsThird(Third(q0, q1).b, q0.b, q1.b)
    ensures IsHalf(Middle(q0, q1).r, q0.r, q1.r) && IsHalf(Middle(q0, q1).g, q0.g, q1.g)
    ensures IsHalf(Middle(q0, q1).b, q0.b, q1.b)
  {
  }

  lemma {:induction false} Interpolates(c0: nat, c1: nat, four: bool, q0: Rgb, q1: Rgb, k: nat, a: byte)
    requires c0 < 0x1_0000 && c1 < 0x1_0000 && StandsFor(c0, q0) && StandsFor(c1, q1) && k < 4
    ensures var q := Palette(c0, c1, four)[k];
            Interpolated(Pixel(q.r % 256, q.g % 256, q.b % 256, a), q0, q1, k, four)
  {
    hide StandsFor, From565, Third, Middle, IsThird, IsHalf;
    OnlyOne(c0, q0);
    OnlyOne(c1, q1);
    PaletteFits(c0, c1, four);
    var q := Palette(c0, c1, four)[k];
    assert q.r % 256 == q.r && q.g % 256 == q.g && q.b % 256 == q.b;
    PaletteEntry(q0, q1, k, four);
    assert q == EntryOf(q0, q1, k, four);
  }

  function EntryOf(q0: Rgb, q1: Rgb, k: nat, four: bool): Rgb {
    if k == 0 then q0 else if k == 1 then q1
    else if k == 2 then if four then Third(q0, q1) else Middle(q0, q1)
    else if four then Third(q1, q0) else Rgb(0, 0, 0)
  }

  lemma {:induction false} PaletteEntry(q0: Rgb, q1: Rgb, k: nat, four: bool)
    requires k < 4
    ensures var q := EntryOf(q0, q1, k, four);
            (forall a: byte :: q.r < 256 && q.g < 256 && q.b < 256 ==>
               Interpolated(Pixel(q.r, q.g, q.b, a), q0, q1, k, four))
  {
    hide Third, Middle, IsThird, IsHalf;
    Between(q0, q1);
    Between(q1, q0);
  }

  /** Where the colours of a block start: formats 13 and 15 are DXT1 and DXT5. */
  function Colours(format: nat): nat {
    if format == 15 then 8 else 0
  }

  /** The colour index of pixel i. */
  function IndexOf(blk: seq<byte>, format: nat, i: nat): (k: nat)
    requires |blk| >= Colours(format) + 8 && i < 16
    ensures k < 4
  {
    Down4(blk[Colours(format) + 4 + i / 4], i % 4) % 4
  }

  /** Whether a block goes by thirds: always in DXT5, and in DXT1 where the first endpoint is the larger number. */
  predicate Thirds(blk: seq<byte>, format: nat)
    requires |blk| >= Colours(format) + 8
  {
    format == 15 || Two(blk, Colours(format)) > Two(blk, Colours(format) + 2)
  }

  lemma {:induction false} Decoded(blk: seq<byte>, format: nat, i: nat)
    requires |blk| == BlockBytes(format) && i < 16 && (format == 13 || format == 15)
    ensures var at := Colours(format);
            var q := Palette(Two(blk, at), Two(blk, at + 2), Thirds(blk, format))[IndexOf(blk, format, i)];
            var p := BlockPixel(blk, format, i);
            && p == Pixel(q.r % 256, q.g % 256, q.b % 256, p.a)
            && (format == 13 ==> p.a == if !Thirds(blk, format) && IndexOf(blk, format, i) == 3 then 0 else 255)
  {
    hide Palette, Field, FromLE, AlphaTable, Two, Down4;
    var at := Colours(format);
    TwoBytes(blk, at);
    TwoBytes(blk, at + 2);
    PairAt(blk[at + 4..at + 8], i);
  }

  /** The colour of pixel i of a block, in numbers. */
  lemma {:induction false} ColourInNumbers(blk: seq<byte>, format: nat, i: nat, q0: Rgb, q1: Rgb)
    requires (format == 13 && |blk| == 8) || (format == 15 && |blk| == 16)
    requires i < 16 && StandsFor(Two(blk, Colours(format)), q0) && StandsFor(Two(blk, Colours(format) + 2), q1)
    ensures Interpolated(BlockPixel(blk, format, i), q0, q1, IndexOf(blk, format, i), Thirds(blk, format))
    ensures format == 13 ==>
              BlockPixel(blk, format, i).a == if !Thirds(blk, format) && IndexOf(blk, format, i) == 3 then 0 else 255
  {
    hide StandsFor, Palette, BlockPixel, Interpolated, Two, IndexOf, Thirds;
    var at := Colours(format);
    TwoBytes(blk, at);
    TwoBytes(blk, at + 2);
    Decoded(blk, format, i);
    Interpolates(Two(blk, at), Two(blk, at + 2), Thirds(blk, format), q0, q1, IndexOf(blk, format, i),
                 BlockPixel(blk, format, i).a);
  }

  /** Four pixels of one block, one at each index: the first two are the endpoints, the other two lie between. */
  lemma {:induction false} FourPixels(blk: seq<byte>, format: nat, i: nat, j: nat, k: nat, l: nat)
    requires (format == 13 && |blk| == 8) || (format == 15 && |blk| == 16)
    requires i < 16 && j < 16 && k < 16 && l < 16
    requires IndexOf(blk, format, i) == 0 && IndexOf(blk, format, j) == 1
    requires IndexOf(blk, format, k) == 2 && IndexOf(blk, format, l) == 3
    ensures var p, q := BlockPixel(blk, format, i), BlockPixel(blk, format, j);
            var q0, q1 := Rgb(p.r, p.g, p.b), Rgb(q.r, q.g, q.b);
            && StandsFor(Two(blk, Colours(format)), q0) && StandsFor(Two(blk, Colours(format) + 2), q1)
            && Interpolated(BlockPixel(blk, format, k), q0, q1, 2, Thirds(blk, format))
            && Interpolated(BlockPixel(blk, format, l), q0, q1, 3, Thirds(blk, format))
  {
    hide StandsFor, BlockPixel, Two, IndexOf, From565;
    var c0, c1 := Two(blk, Colours(format)), Two(blk, Colours(format) + 2);
    TwoBytes(blk, Colours(format));
    TwoBytes(blk, Colours(format) + 2);
    Unpacked(c0);
    Unpacked(c1);
    ColourInNumbers(blk, format, i, From565(c0), From565(c1));
    ColourInNumbers(blk, format, j, From565(c0), From565(c1));
    ColourInNumbers(blk, format, k, From565(c0), From565(c1));
    ColourInNumbers(blk, format, l, From565(c0), From565(c1));
  }

  // ---- Alphas ----

  lemma {:induction false} TableEntry(a0: byte, a1: byte, k: nat)
    requires k < 8
    ensures AlphaEntry(AlphaTable(a0, a1)[k], a0, a1, k)
  {
    if a0 > a1 {
      SeventhEntry(a0, a1, k);
    } else {
      FifthEntry(a0, a1, k);
    }
  }

  lemma {:induction false} SeventhEntry(a0: byte, a1: byte, k: nat)
    requires k < 8 && a0 > a1
    ensures AlphaEntry(AlphaTable(a0, a1)[k], a0, a1, k)
  {
    hide IsSeventh, IsFifth;
    Rounds(7 * a0 + a1);
    Rounds(6 * a0 + 2 * a1);
    Rounds(5 * a0 + 3 * a1);
    Rounds(4 * a0 + 4 * a1);
    Rounds(3 * a0 + 5 * a1);
    Rounds(2 * a0 + 6 * a1);
  }

  lemma {:induction false} FifthEntry(a0: byte, a1: byte, k: nat)
    requires k < 8 && a0 <= a1
    ensures AlphaEntry(AlphaTable(a0, a1)[k], a0, a1, k)
  {
    hide IsSeventh, IsFifth;
    Rounds(5 * a0 + a1);
    Rounds(4 * a0 + 2 * a1);
    Rounds(3 * a0 + 3 * a1);
    Rounds(2 * a0 + 4 * a1);
  }

  lemma {:induction false} Rounds(sum: nat)
    ensures IsSeventh(sum / 7, sum) && IsFifth(sum / 5, sum)
  {
  }

  /** The alpha of pixel i of a DXT5 block, in numbers. */
  lemma {:induction false} AlphaInNumbers(blk: seq<byte>, i: nat) returns (t: nat)
    requires |blk| == 16 && i < 16
    ensures AlphaEntry(t, blk[0], blk[1], Down8(Three(blk, 2 + i / 8 * 3), i % 8) % 8)
    ensures BlockPixel(blk, 15, i).a == t % 256
  {
    hide AlphaTable, Field, FromLE, Palette, Down8, Three;
    var k := Down8(Three(blk, 2 + i / 8 * 3), i % 8) % 8;
    TripleAt(blk[2..8], i);
    SameThree(blk, i / 8 * 3);
    t := AlphaTable(blk[0], blk[1])[k];
    TableEntry(blk[0], blk[1], k);
  }

  lemma {:induction false} SameThree(blk: seq<byte>, at: nat)
    requires |blk| == 16 && at <= 3
    ensures Three(blk[2..8], at) == Three(blk, 2 + at)
  {
  }

  // ---- Places ----

  /** The bytes in front of the block that pixel (x, y) lies in, with blocks row by row. */
  function Place(w: nat, x: nat, y: nat, size: nat): nat {
    (y / 4 * ((w + 3) / 4) + x / 4) * size
  }

  /** Blocks are four pixels wide and high and hold their pixels row by row. A pixel whose block is not wholly there
      is clear. */
  lemma {:induction false} PlaceInNumbers(data: seq<byte>, w: nat, x: nat, y: nat, format: nat, size: nat)
    requires w > 0 && ((format == 13 && size == 8) || (format == 15 && size == 16))
    ensures PixelAt(data, w, format, x, y) ==
            if Place(w, x, y, size) + size > |data| then Pixel(0, 0, 0, 0)
            else BlockPixel(data[Place(w, x, y, size)..Place(w, x, y, size) + size], format, y % 4 * 4 + x % 4)
  {
    hide BlockPixel, Palette;
    PixelOf(data, w, format, x, y, Place(w, x, y, size));
  }
}
