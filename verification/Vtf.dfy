/** The VTF container: mip levels, their sizes and order, the header, and the way back to an image. The header
    is described in rows of bytes that together are as long as the program's buffer, with zeros where it writes
    nothing. The converter is modelled up to the call of the decoder, with the three ways it has to refuse a
    file. */
module Vtf {
  import opened Options
  import opened Bytes
  import opened Dxt

  const HEADER_SIZE := 80
  const RGBA8888 := 0
  const BGRA8888 := 12
  const RGBA16161616F := 24

  // ---- Sizes ----

  function PixelBytes(format: nat): nat {
    if format == BGRA8888 || format == RGBA8888 then 4 else if format == RGBA16161616F then 8 else 0
  }

  /** The byte count of one mip level, as readers compute it. */
  function MipSize(format: nat, w: nat, h: nat): nat {
    if BlockBytes(format) != 0 then Blocks(w) * Blocks(h) * BlockBytes(format) else w * h * PixelBytes(format)
  }

  // ---- Halving ----

  function Pick(img: Image, w: nat, h: nat, x: nat, y: nat): seq<Pixel>
    requires Sized(img, w, h)
  {
    if x >= w || y >= h then [] else [img[y][x]]
  }

  /** The pixels under a halved one, in reading order, as far as the image reaches; the first k of four. */
  function Under(img: Image, w: nat, h: nat, x: nat, y: nat, k: nat): (ps: seq<Pixel>)
    requires Sized(img, w, h)
    ensures forall p :: p in ps ==> exists y', x' :: 0 <= y' < h && 0 <= x' < w && img[y'][x'] == p
    ensures k > 0 && 2 * x < w && 2 * y < h ==> ps != []
  {
    if k == 0 then []
    else Under(img, w, h, x, y, k - 1) + Pick(img, w, h, x * 2 + (k - 1) % 2, y * 2 + (k - 1) / 2)
  }

  function Sum(ps: seq<Pixel>, c: nat): nat {
    if ps == [] then 0 else Sum(ps[..|ps| - 1], c) + Channel(ps[|ps| - 1], c)
  }

  function Mean(ps: seq<Pixel>, c: nat): byte
    requires ps != []
  {
    Sum(ps, c) / |ps| % 256
  }

  function Average(ps: seq<Pixel>): Pixel
    requires ps != []
  {
    Pixel(Mean(ps, 0), Mean(ps, 1), Mean(ps, 2), Mean(ps, 3))
  }

  function Half(n: nat): (d: nat)
    ensures d >= 1
    ensures n >= 1 ==> forall x :: 0 <= x < d ==> 2 * x < n
  {
    Max(1, n / 2)
  }

  /** A 2x2 box filter. */
  function Halved(img: Image, w: nat, h: nat): (dst: Image)
    requires Sized(img, w, h) && w > 0 && h > 0
    ensures Sized(dst, Half(w), Half(h))
    ensures forall y, x :: 0 <= y < Half(h) && 0 <= x < Half(w) ==> dst[y][x] == Average(Under(img, w, h, x, y, 4))
  {
    seq(Half(h), y requires 0 <= y < Half(h) =>
      seq(Half(w), x requires 0 <= x < Half(w) => Average(Under(img, w, h, x, y, 4))))
  }

  method HalvePixel(img: Image, w: nat, h: nat, x: nat, y: nat) returns (p: Pixel)
    requires Sized(img, w, h) && 2 * x < w && 2 * y < h
    ensures p == Average(Under(img, w, h, x, y, 4))
  {
    hide Under, Sum;
    var r, g, b, a, n := 0, 0, 0, 0, 0;
    ghost var ps := [];
    NoneUnder(img, w, h, x, y);
    for dy := 0 to 2
      invariant ps == Under(img, w, h, x, y, 2 * dy) && n == |ps|
      invariant r == Sum(ps, 0) && g == Sum(ps, 1) && b == Sum(ps, 2) && a == Sum(ps, 3)
    {
      for dx := 0 to 2
        invariant ps == Under(img, w, h, x, y, 2 * dy + dx) && n == |ps|
        invariant r == Sum(ps, 0) && g == Sum(ps, 1) && b == Sum(ps, 2) && a == Sum(ps, 3)
      {
        NextUnder(img, w, h, x, y, dx, dy);
        var sx, sy := x * 2 + dx, y * 2 + dy;
        if sx < w && sy < h {
          SumNext(ps, img[sy][sx]);
          r, g, b, a := r + img[sy][sx].r, g + img[sy][sx].g, b + img[sy][sx].b, a + img[sy][sx].a;
          ps := ps + [img[sy][sx]];
          n := n + 1;
        }
      }
    }
    p := Pixel(r / n % 256, g / n % 256, b / n % 256, a / n % 256);
  }

  lemma {:induction false} NoneUnder(img: Image, w: nat, h: nat, x: nat, y: nat)
    requires Sized(img, w, h)
    ensures Under(img, w, h, x, y, 2 * 0) == [] && forall c :: Sum([], c) == 0
  {
  }

  lemma {:induction false} NextUnder(img: Image, w: nat, h: nat, x: nat, y: nat, dx: nat, dy: nat)
    requires Sized(img, w, h) && dx < 2 && dy < 2
    ensures Under(img, w, h, x, y, 2 * dy + dx + 1) ==
            Under(img, w, h, x, y, 2 * dy + dx) + Pick(img, w, h, x * 2 + dx, y * 2 + dy)
  {
    hide Pick;
    var k := 2 * dy + dx + 1;
    assert (k - 1) % 2 == dx && (k - 1) / 2 == dy;
  }

  lemma {:induction false} SumNext(ps: seq<Pixel>, p: Pixel)
    ensures forall c :: Sum(ps + [p], c) == Sum(ps, c) + Channel(p, c)
  {
    assert (ps + [p])[..|ps|] == ps;
  }

  method Halve(img: Image, w: nat, h: nat) returns (dst: Image)
    requires Sized(img, w, h) && w > 0 && h > 0
    ensures dst == Halved(img, w, h)
  {
    hide Under, Average;
    var dw, dh := Max(1, w / 2), Max(1, h / 2);
    dst := [];
    for y := 0 to dh
      invariant dst == Halved(img, w, h)[..y]
    {
      var row := [];
      for x := 0 to dw
        invariant row == Halved(img, w, h)[y][..x]
      {
        var p := HalvePixel(img, w, h, x, y);
        row := row + [p];
      }
      assert row == Halved(img, w, h)[y];
      dst := dst + [row];
    }
  }

  // ---- Levels ----

  datatype Level = Level(img: Image, w: nat, h: nat)

  predicate Proper(l: Level) {
    Sized(l.img, l.w, l.h) && l.w > 0 && l.h > 0
  }

  /** The image and its mips, largest first. */
  function Levels(l: Level): (ls: seq<Level>)
    requires Proper(l)
    ensures ls != [] && ls[0] == l
    ensures forall i :: 0 <= i < |ls| ==> Proper(ls[i])
    decreases l.w + l.h
  {
    if l.w > 1 || l.h > 1 then [l] + Levels(Level(Halved(l.img, l.w, l.h), Half(l.w), Half(l.h))) else [l]
  }

  lemma {:induction false} NextLevel(done: seq<Level>, l: Level, next: Level)
    requires Proper(l) && (l.w > 1 || l.h > 1) && next == Level(Halved(l.img, l.w, l.h), Half(l.w), Half(l.h))
    ensures Proper(next) && done + Levels(l) == done + [l] + Levels(next)
  {
    hide Halved;
    assert done + ([l] + Levels(next)) == done + [l] + Levels(next);
  }

  lemma {:induction false} LastLevel(l: Level)
    requires Proper(l) && l.w <= 1 && l.h <= 1
    ensures Levels(l) == [l]
  {
  }

  method BuildLevels(img: Image, w: nat, h: nat, mipmaps: bool) returns (ls: seq<Level>)
    requires Proper(Level(img, w, h))
    ensures ls == if mipmaps then Levels(Level(img, w, h)) else [Level(img, w, h)]
  {
    hide Halved, Sized, Levels;
    ls := [Level(img, w, h)];
    if mipmaps {
      var cur, cw: nat, ch: nat := img, w, h;
      ghost var done: seq<Level> := [];
      while cw > 1 || ch > 1
        invariant Proper(Level(cur, cw, ch))
        invariant ls == done + [Level(cur, cw, ch)]
        invariant done + Levels(Level(cur, cw, ch)) == Levels(Level(img, w, h))
        decreases cw + ch
      {
        ghost var level := Level(cur, cw, ch);
        var next := Halve(cur, cw, ch);
        NextLevel(done, level, Level(next, Half(cw), Half(ch)));
        cur, cw, ch := next, Max(1, cw / 2), Max(1, ch / 2);
        ls := ls + [Level(cur, cw, ch)];
        done := done + [level];
      }
      LastLevel(Level(cur, cw, ch));
    }
  }

  // ---- Encoding a level ----

  function RawPixel(p: Pixel, format: nat): (s: seq<byte>)
    ensures |s| == 4
  {
    if format == BGRA8888 then [p.b, p.g, p.r, p.a] else [p.r, p.g, p.b, p.a]
  }

  function RawRow(row: seq<Pixel>, format: nat): seq<byte> {
    if row == [] then [] else RawRow(row[..|row| - 1], format) + RawPixel(row[|row| - 1], format)
  }

  function Raw(img: Image, format: nat): seq<byte> {
    if img == [] then [] else Raw(img[..|img| - 1], format) + RawRow(img[|img| - 1], format)
  }

  function EncodedLevel(l: Level, format: nat): seq<byte>
    requires Proper(l)
  {
    if BlockBytes(format) != 0 then Encoded(l.img, l.w, l.h, format) else Raw(l.img, format)
  }

  method EncodeRow(row: seq<Pixel>, format: nat) returns (out: seq<byte>)
    ensures out == RawRow(row, format)
  {
    out := [];
    for x := 0 to |row|
      invariant out == RawRow(row[..x], format)
    {
      assert row[..x + 1][..x] == row[..x];
      var p := row[x];
      out := out + if format == BGRA8888 then [p.b, p.g, p.r, p.a] else [p.r, p.g, p.b, p.a];
    }
    assert row[..|row|] == row;
  }

  method EncodeLevel(l: Level, format: nat) returns (out: seq<byte>)
    requires Proper(l)
    ensures out == EncodedLevel(l, format)
  {
    hide Encoded, RawRow;
    if BlockBytes(format) != 0 {
      out := Encode(l.img, l.w, l.h, format);
      return;
    }
    out := [];
    for y := 0 to l.h
      invariant out == Raw(l.img[..y], format)
    {
      assert l.img[..y + 1][..y] == l.img[..y];
      var row := EncodeRow(l.img[y], format);
      out := out + row;
    }
    assert l.img[..l.h] == l.img;
  }

  /** The levels' bytes, the smallest first. */
  function Body(ls: seq<Level>, format: nat): seq<byte>
    requires forall i :: 0 <= i < |ls| ==> Proper(ls[i])
  {
    if ls == [] then [] else Body(ls[1..], format) + EncodedLevel(ls[0], format)
  }

  // ---- The header ----

  /** What the caller decides; floats come as their bit patterns. */
  datatype Settings = Settings(
    format: nat, flags: nat, major: nat, minor: nat, bump: nat, red: nat, green: nat, blue: nat)

  function Zeros(n: nat): (s: seq<byte>)
    ensures |s| == n
  {
    seq(n, _ => 0)
  }

  function Magic(): (s: seq<byte>)
    ensures |s| == 4
  {
    [86, 84, 70, 0]
  }

  function Start(s: Settings): (b: seq<byte>)
    ensures |b| == 16
  {
    Magic() + ToLE(s.major, 4) + ToLE(s.minor, 4) + ToLE(HEADER_SIZE, 4)
  }

  function Shape(s: Settings, w: nat, h: nat): (b: seq<byte>)
    ensures |b| == 16
  {
    ToLE(w, 2) + ToLE(h, 2) + ToLE(s.flags, 4) + ToLE(1, 2) + ToLE(0, 2) + Zeros(4)
  }

  function Light(s: Settings): (b: seq<byte>)
    ensures |b| == 16
  {
    ToLE(s.red, 4) + ToLE(s.green, 4) + ToLE(s.blue, 4) + Zeros(4)
  }

  function Layout(s: Settings, levels: nat): (b: seq<byte>)
    ensures |b| == 32
  {
    ToLE(s.bump, 4) + ToLE(s.format, 4) + ToLE(levels, 1) + ToLE(0xFFFF_FFFF, 4) + [0, 0] + ToLE(1, 2) + Zeros(15)
  }

  function HeaderBytes(s: Settings, w: nat, h: nat, levels: nat): (b: seq<byte>)
    ensures |b| == HEADER_SIZE
  {
    Start(s) + Shape(s, w, h) + Light(s) + Layout(s, levels)
  }

  datatype Header = Header(major: nat, minor: nat, headerSize: nat, width: nat, height: nat, flags: nat, frames: nat,
                           red: nat, green: nat, blue: nat, bump: nat, format: nat, mipmaps: nat,
                           lowFormat: int, lowW: nat, lowH: nat, depth: nat)

  /** int32 of a 32-bit pattern */
  function Signed(n: nat): int {
    if n < 0x8000_0000 then n else n - 0x1_0000_0000
  }

  function ReadHeader(d: seq<byte>): Option<Header> {
    if |d| < HEADER_SIZE || d[..4] != Magic() then None
    else
      var minor := FromLE(d[8..12]);
      Some(Header(FromLE(d[4..8]), minor, FromLE(d[12..16]), FromLE(d[16..18]), FromLE(d[18..20]), FromLE(d[20..24]),
                  FromLE(d[24..26]), FromLE(d[32..36]), FromLE(d[36..40]), FromLE(d[40..44]), FromLE(d[48..52]),
                  FromLE(d[52..56]), d[56], Signed(FromLE(d[57..61])), d[61], d[62],
                  if minor >= 2 then FromLE(d[63..65]) else 1))
  }

  // ---- Writing and reading a file ----

  function Mips(img: Image, w: nat, h: nat, mipmaps: bool): (ls: seq<Level>)
    requires Proper(Level(img, w, h))
    ensures ls != [] && ls[0] == Level(img, w, h)
    ensures forall i :: 0 <= i < |ls| ==> Proper(ls[i])
  {
    if mipmaps then Levels(Level(img, w, h)) else [Level(img, w, h)]
  }

  function VtfFile(img: Image, w: nat, h: nat, s: Settings, mipmaps: bool): seq<byte>
    requires Proper(Level(img, w, h))
  {
    var ls := Mips(img, w, h, mipmaps);
    HeaderBytes(s, w % 0x1_0000, h % 0x1_0000, |ls| % 256) + Body(ls, s.format)
  }

  method WriteVtf(img: Image, w: nat, h: nat, s: Settings, mipmaps: bool) returns (out: seq<byte>)
    requires Proper(Level(img, w, h))
    ensures out == VtfFile(img, w, h, s, mipmaps)
  {
    hide Levels, EncodedLevel, HeaderBytes, Proper;
    var ls := BuildLevels(img, w, h, mipmaps);
    assert ls == Mips(img, w, h, mipmaps);
    var body := [];
    var i := |ls|;
    while i > 0
      invariant 0 <= i <= |ls|
      invariant body == Body(ls[i..], s.format)
    {
      i := i - 1;
      assert ls[i..][1..] == ls[i + 1..];
      var level := EncodeLevel(ls[i], s.format);
      body := body + level;
    }
    assert ls[0..] == ls;
    out := HeaderBytes(s, w % 0x1_0000, h % 0x1_0000, |ls| % 256) + body;
  }

  datatype Unpacked = NotVtf | Truncated | Unsupported | Pixels(w: nat, h: nat, format: nat, data: seq<byte>)

  /** vtf2png, up to the call of the decoder: the full-size image is the last chunk. */
  function Unpack(raw: seq<byte>): (r: Unpacked)
    ensures r.Pixels? ==> BlockBytes(r.format) >= 8
  {
    match ReadHeader(raw)
    case None => NotVtf
    case Some(hdr) =>
      var top := MipSize(hdr.format, hdr.width, hdr.height);
      if |raw| < top then Truncated
      else if BlockBytes(hdr.format) == 0 then Unsupported
      else Pixels(hdr.width, hdr.height, hdr.format, raw[|raw| - top..])
  }
}
