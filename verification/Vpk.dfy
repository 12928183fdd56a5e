/** The three-level directory of a VPK: how the packer writes it, and how two independent readers read it. */
module VpkTree {
  import opened Bytes

  type Name = seq<byte>

  const NUL: byte := 0
  const RECORD := 18
  const TERMINATOR := 0xFFFF

  /** One entry of the directory as it is written and read. */
  datatype Rec = Rec(ext: Name, path: Name, base: Name, crc: nat, offset: nat, length: nat)

  datatype PathGroup = PathGroup(path: Name, recs: seq<Rec>)
  datatype ExtGroup = ExtGroup(ext: Name, paths: seq<PathGroup>)

  // ---- Writing ----

  /** struct.pack("<IHHIIH", crc, 0, 0, offset, length, 0xFFFF) */
  function Record(r: Rec): (s: seq<byte>)
    ensures |s| == RECORD
  {
    ToLE(r.crc, 4) + ToLE(0, 2) + ToLE(0, 2) + ToLE(r.offset, 4) + ToLE(r.length, 4) + ToLE(TERMINATOR, 2)
  }

  function WriteNames(recs: seq<Rec>): seq<byte> {
    if recs == [] then [NUL] else recs[0].base + [NUL] + Record(recs[0]) + WriteNames(recs[1..])
  }

  function WritePaths(ps: seq<PathGroup>): seq<byte> {
    if ps == [] then [NUL] else ps[0].path + [NUL] + WriteNames(ps[0].recs) + WritePaths(ps[1..])
  }

  function WriteExts(es: seq<ExtGroup>): seq<byte> {
    if es == [] then [NUL] else es[0].ext + [NUL] + WritePaths(es[0].paths) + WriteExts(es[1..])
  }

  // ---- Reading ----

  /** The position of the first NUL, or the length. */
  function NulAt(t: seq<byte>): (i: nat)
    ensures i <= |t|
    ensures i < |t| ==> t[i] == NUL
    ensures forall j :: 0 <= j < i ==> t[j] != NUL
  {
    if t == [] || t[0] == NUL then 0 else 1 + NulAt(t[1..])
  }

  datatype Level = ExtLevel | PathLevel | NameLevel

  /** What was read before the reader stopped, and whether it stopped at the end of the directory or
      because it ran off the bytes. */
  datatype Scanned = Scanned(recs: seq<Rec>, complete: bool)

  function Preload(rest: seq<byte>): nat
    requires |rest| >= RECORD
  {
    FromLE(rest[4..6])
  }

  function Skip(rest: seq<byte>, n: nat): (r: seq<byte>)
    ensures |r| <= |rest|
  {
    if n <= |rest| then rest[n..] else []
  }

  function ReadRec(ext: Name, path: Name, base: Name, rest: seq<byte>): Rec
    requires |rest| >= RECORD
  {
    Rec(ext, path, base, FromLE(rest[..4]), FromLE(rest[8..12]), FromLE(rest[12..16]))
  }

  /** One string read: the reader stops, or goes on from `rest` at a level and under the names it has. */
  datatype Turned =
    | Stop(complete: bool)
    | Go(recs: seq<Rec>, rest: seq<byte>, level: Level, ext: Name, path: Name)

  function Turn(t: seq<byte>, level: Level, ext: Name, path: Name): (r: Turned)
    ensures r.Go? ==> |r.rest| < |t|
  {
    var i := NulAt(t);
    if i == |t| then Stop(false)
    else
      var s, rest := t[..i], t[i + 1..];
      match level
      case ExtLevel => if s == [] then Stop(true) else Go([], rest, PathLevel, s, [])
      case PathLevel => if s == [] then Go([], rest, ExtLevel, [], []) else Go([], rest, NameLevel, ext, s)
      case NameLevel =>
        if s == [] then Go([], rest, PathLevel, ext, [])
        else if |rest| < RECORD then Stop(false)
        else Go([ReadRec(ext, path, s, rest)], Skip(rest, RECORD + Preload(rest)), NameLevel, ext, path)
  }

  function Ahead(recs: seq<Rec>, more: Scanned): Scanned {
    Scanned(recs + more.recs, more.complete)
  }

  /** The readers' nested loops as one scanner. */
  function Scan(t: seq<byte>, level: Level, ext: Name, path: Name): (r: Scanned)
    decreases |t|
  {
    match Turn(t, level, ext, path)
    case Stop(complete) => Scanned([], complete)
    case Go(recs, rest, level', ext', path') => Ahead(recs, Scan(rest, level', ext', path'))
  }

  // ---- What is written is what is read ----

  predicate Readable(n: Name) {
    n != [] && NUL !in n
  }

  predicate Fits(r: Rec) {
    r.crc < 0x1_0000_0000 && r.offset < 0x1_0000_0000 && r.length < 0x1_0000_0000
  }

  predicate GoodNames(ext: Name, path: Name, recs: seq<Rec>) {
    forall i :: 0 <= i < |recs| ==>
      Readable(recs[i].base) && Fits(recs[i]) && recs[i].ext == ext && recs[i].path == path
  }

  predicate GoodPaths(ext: Name, ps: seq<PathGroup>) {
    forall i :: 0 <= i < |ps| ==> Readable(ps[i].path) && GoodNames(ext, ps[i].path, ps[i].recs)
  }

  predicate GoodExts(es: seq<ExtGroup>) {
    forall i :: 0 <= i < |es| ==> Readable(es[i].ext) && GoodPaths(es[i].ext, es[i].paths)
  }

  function FlatPaths(ps: seq<PathGroup>): seq<Rec> {
    if ps == [] then [] else ps[0].recs + FlatPaths(ps[1..])
  }

  function FlatExts(es: seq<ExtGroup>): seq<Rec> {
    if es == [] then [] else FlatPaths(es[0].paths) + FlatExts(es[1..])
  }

  lemma {:induction false} NulFound(n: Name, rest: seq<byte>)
    requires NUL !in n
    ensures var t := n + [NUL] + rest; NulAt(t) == |n| && t[..|n|] == n && t[|n| + 1..] == rest
  {
    hide NulAt;
    var t := n + [NUL] + rest;
    assert forall j :: 0 <= j < |n| ==> t[j] == n[j];
    assert t[|n|] == NUL;
  }

  lemma {:induction false} RecordFields(r: Rec, rest: seq<byte>)
    requires Fits(r)
    ensures var t := Record(r) + rest;
            && ReadRec(r.ext, r.path, r.base, t) == r
            && Preload(t) == 0
            && Skip(t, RECORD) == rest
  {
    hide ToLE, FromLE;
    var t := Record(r) + rest;
    Widths();
    UnpackPack(r.crc, 4);
    UnpackPack(0, 2);
    UnpackPack(r.offset, 4);
    UnpackPack(r.length, 4);
    assert t[..4] == ToLE(r.crc, 4);
    assert t[4..6] == ToLE(0, 2);
    assert t[8..12] == ToLE(r.offset, 4);
    assert t[12..16] == ToLE(r.length, 4);
    assert t[18..] == rest;
  }

  lemma {:induction false} StepExt(n: Name, rest: seq<byte>, ext: Name, path: Name)
    requires NUL !in n
    ensures Scan(n + [NUL] + rest, ExtLevel, ext, path) ==
            if n == [] then Scanned([], true) else Scan(rest, PathLevel, n, [])
  {
    NulFound(n, rest);
    AheadTwice([], [], Scan(rest, PathLevel, n, []));
  }

  lemma {:induction false} StepPath(n: Name, rest: seq<byte>, ext: Name, path: Name)
    requires NUL !in n
    ensures Scan(n + [NUL] + rest, PathLevel, ext, path) ==
            if n == [] then Scan(rest, ExtLevel, [], []) else Scan(rest, NameLevel, ext, n)
  {
    NulFound(n, rest);
    AheadTwice([], [], Scan(rest, ExtLevel, [], []));
    AheadTwice([], [], Scan(rest, NameLevel, ext, n));
  }

  lemma {:induction false} StepLastName(rest: seq<byte>, ext: Name, path: Name)
    ensures Scan([NUL] + rest, NameLevel, ext, path) == Scan(rest, PathLevel, ext, [])
  {
  }

  lemma {:induction false} AheadTwice(a: seq<Rec>, b: seq<Rec>, more: Scanned)
    ensures Ahead(a, Ahead(b, more)) == Ahead(a + b, more)
    ensures Ahead([], more) == more
  {
  }

  lemma {:induction false} StepRecord(r: Rec, rest: seq<byte>)
    requires Readable(r.base) && Fits(r)
    ensures Scan(r.base + [NUL] + (Record(r) + rest), NameLevel, r.ext, r.path) ==
            Ahead([r], Scan(rest, NameLevel, r.ext, r.path))
  {
    hide ReadRec, Record, Preload, Skip;
    NulFound(r.base, Record(r) + rest);
    RecordFields(r, rest);
  }

  lemma {:induction false} NamesReadBack(ext: Name, path: Name, recs: seq<Rec>, rest: seq<byte>)
    requires GoodNames(ext, path, recs)
    ensures Scan(WriteNames(recs) + rest, NameLevel, ext, path) == Ahead(recs, Scan(rest, PathLevel, ext, []))
    decreases |recs|
  {
    hide Scan, Record;
    var more := Scan(rest, PathLevel, ext, []);
    if recs == [] {
      StepLastName(rest, ext, path);
      AheadTwice([], [], more);
    } else {
      var tail := WriteNames(recs[1..]) + rest;
      assert WriteNames(recs) + rest == recs[0].base + [NUL] + (Record(recs[0]) + tail);
      StepRecord(recs[0], tail);
      NamesReadBack(ext, path, recs[1..], rest);
      AheadTwice([recs[0]], recs[1..], more);
      assert [recs[0]] + recs[1..] == recs;
    }
  }

  lemma {:induction false} PathsReadBack(ext: Name, ps: seq<PathGroup>, rest: seq<byte>)
    requires GoodPaths(ext, ps)
    ensures Scan(WritePaths(ps) + rest, PathLevel, ext, []) == Ahead(FlatPaths(ps), Scan(rest, ExtLevel, [], []))
    decreases |ps|
  {
    hide Scan, WriteNames;
    var more := Scan(rest, ExtLevel, [], []);
    if ps == [] {
      assert WritePaths(ps) + rest == [] + [NUL] + rest;
      StepPath([], rest, ext, []);
      AheadTwice([], [], more);
    } else {
      var tail := WritePaths(ps[1..]) + rest;
      assert WritePaths(ps) + rest == ps[0].path + [NUL] + (WriteNames(ps[0].recs) + tail);
      StepPath(ps[0].path, WriteNames(ps[0].recs) + tail, ext, []);
      NamesReadBack(ext, ps[0].path, ps[0].recs, tail);
      PathsReadBack(ext, ps[1..], rest);
      AheadTwice(ps[0].recs, FlatPaths(ps[1..]), more);
    }
  }

  /** Reading a written directory yields its records, in order, up to its end and no further, whatever
      bytes come after it. */
  lemma {:induction false} TreeReadsBack(es: seq<ExtGroup>, rest: seq<byte>)
    requires GoodExts(es)
    ensures Scan(WriteExts(es) + rest, ExtLevel, [], []) == Scanned(FlatExts(es), true)
    decreases |es|
  {
    hide Scan, WritePaths;
    if es == [] {
      assert WriteExts(es) + rest == [] + [NUL] + rest;
      StepExt([], rest, [], []);
    } else {
      var tail := WriteExts(es[1..]) + rest;
      assert WriteExts(es) + rest == es[0].ext + [NUL] + (WritePaths(es[0].paths) + tail);
      StepExt(es[0].ext, WritePaths(es[0].paths) + tail, [], []);
      PathsReadBack(es[0].ext, es[0].paths, tail);
      TreeReadsBack(es[1..], rest);
    }
  }

  // ---- Damaged directories ----

  lemma {:induction false} NulInPrefix(t: seq<byte>, k: nat)
    requires k <= |t|
    ensures NulAt(t[..k]) == if NulAt(t) < k then NulAt(t) else k
  {
  }

  lemma {:induction false} SkipPrefix(t: seq<byte>, n: nat, k: nat)
    requires k <= |t|
    ensures Skip(t[..k], n) <= Skip(t, n)
  {
  }

  /** On truncated bytes the reader stops early, or does what it does on the whole and goes on from a
      truncated rest. */
  lemma {:induction false} TurnTruncated(t: seq<byte>, k: nat, level: Level, ext: Name, path: Name)
    requires k <= |t|
    ensures var whole, cut := Turn(t, level, ext, path), Turn(t[..k], level, ext, path);
            || cut == Stop(false)
            || (cut.Stop? && whole == cut)
            || (whole.Go? && cut.Go? && cut == whole.(rest := cut.rest) && cut.rest <= whole.rest)
  {
    hide ReadRec, Preload, Skip;
    var i := NulAt(t);
    NulInPrefix(t, k);
    if i < k {
      var s, rest, m := t[..i], t[i + 1..], k - i - 1;
      assert t[..k][..i] == s && t[..k][i + 1..] == rest[..m];
      if level.NameLevel? && s != [] && m >= RECORD {
        SameRecord(ext, path, s, rest, m);
        SkipPrefix(rest, RECORD + Preload(rest), m);
      }
    }
  }

  /** Cut off anywhere, any bytes at all read as a prefix of what they read as whole: a damaged directory
      never yields an entry the undamaged one does not have, nor in another order. */
  lemma {:induction false} TruncationIsPrefix(t: seq<byte>, t': seq<byte>, level: Level, ext: Name, path: Name)
    requires t' <= t
    ensures Scan(t', level, ext, path).recs <= Scan(t, level, ext, path).recs
    decreases |t|
  {
    hide Turn;
    assert t' == t[..|t'|];
    TurnTruncated(t, |t'|, level, ext, path);
    var whole, cut := Turn(t, level, ext, path), Turn(t', level, ext, path);
    if cut.Go? {
      TruncationIsPrefix(whole.rest, cut.rest, whole.level, whole.ext, whole.path);
    }
  }

  lemma {:induction false} SameRecord(ext: Name, path: Name, base: Name, rest: seq<byte>, m: nat)
    requires RECORD <= m <= |rest|
    ensures ReadRec(ext, path, base, rest[..m]) == ReadRec(ext, path, base, rest)
    ensures Preload(rest[..m]) == Preload(rest)
  {
    assert rest[..m][..4] == rest[..4] && rest[..m][4..6] == rest[4..6];
    assert rest[..m][8..12] == rest[8..12] && rest[..m][12..16] == rest[12..16];
  }

  /** No reader ever yields an entry without a name or an extension. */
  lemma {:induction false} NothingNameless(t: seq<byte>, level: Level, ext: Name, path: Name)
    requires level.ExtLevel? || ext != []
    ensures forall i :: 0 <= i < |Scan(t, level, ext, path).recs| ==>
              Scan(t, level, ext, path).recs[i].ext != [] && Scan(t, level, ext, path).recs[i].base != []
    decreases |t|
  {
    var turn := Turn(t, level, ext, path);
    if turn.Go? {
      NothingNameless(turn.rest, turn.level, turn.ext, turn.path);
    }
  }
}
