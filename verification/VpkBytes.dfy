/** A VPK byte by byte: what is written, what is read, names and their order. Each record, header and directory is
    told by the bytes at its offsets, each turn of the readers by the bytes in front of them, and each level of the
    directory by what one more name adds to it. */
module VpkBytes {
  import opened Options
  import opened Bytes
  import opened WordBytes
  import opened VpkTree
  import opened VpkReaders
  import opened VpkPack
  import opened VpkRoundTrip
  import Sorting
  import TextOrder

  // ---- What is written ----

  /** Checksum, no preloaded bytes, archive 0, offset, length, 0xFFFF. */
  lemma {:induction false} RecordInBytes(r: Rec)
    requires Fits(r)
    ensures var d := Record(r);
            && |d| == 18 && Four(d, 0) == r.crc && AllZero(d, 4, 8) && Four(d, 8) == r.offset
            && Four(d, 12) == r.length && d[16] == d[17] == 255
  {
    hide ToLE, Four;
    var d := Record(r);
    FourWritten(r.crc);
    FourWritten(r.offset);
    FourWritten(r.length);
    NoneAndAll();
    assert d[0..4] == ToLE(r.crc, 4) && d[8..12] == ToLE(r.offset, 4) && d[12..16] == ToLE(r.length, 4);
    SameFour(d, 0, ToLE(r.crc, 4), r.crc);
    SameFour(d, 8, ToLE(r.offset, 4), r.offset);
    SameFour(d, 12, ToLE(r.length, 4), r.length);
  }

  lemma {:induction false} NoneAndAll()
    ensures ToLE(0, 2) == [0, 0] && ToLE(0xFFFF, 2) == [255, 255] && ToLE(0, 4) == [0, 0, 0, 0]
  {
    OneByte(0);
    OneByte(0xFF);
    assert ToLE(0, 4) == [0] + ToLE(0, 3) && ToLE(0, 3) == [0] + ToLE(0, 2);
  }

  /** A single file's directory: extension, path and name, each with a zero behind it, its record, and a zero for the
      end of each level. */
  lemma {:induction false} OneFileInBytes(r: Rec)
    ensures WriteExts([ExtGroup(r.ext, [PathGroup(r.path, [r])])]) ==
            r.ext + [0] + r.path + [0] + r.base + [0] + Record(r) + [0] + [0] + [0]
  {
    hide Record;
    var p := PathGroup(r.path, [r]);
    assert [r][1..] == [] && [p][1..] == [] && [ExtGroup(r.ext, [p])][1..] == [];
    assert WriteNames([r]) == r.base + [0] + Record(r) + [0];
    assert WritePaths([p]) == r.path + [0] + (r.base + [0] + Record(r) + [0]) + [0];
  }

  /** What ends the first part of a level is left out where more follows. */
  lemma {:induction false} NamesInBytes(a: seq<Rec>, b: seq<Rec>)
    ensures WriteNames(a) != [] && WriteNames(a + b) == WriteNames(a)[..|WriteNames(a)| - 1] + WriteNames(b)
  {
    hide Record;
    if a == [] {
      assert a + b == b;
    } else {
      assert (a + b)[1..] == a[1..] + b;
      NamesInBytes(a[1..], b);
    }
  }

  lemma {:induction false} PathsInBytes(a: seq<PathGroup>, b: seq<PathGroup>)
    ensures WritePaths(a) != [] && WritePaths(a + b) == WritePaths(a)[..|WritePaths(a)| - 1] + WritePaths(b)
  {
    hide WriteNames;
    if a == [] {
      assert a + b == b;
    } else {
      assert (a + b)[1..] == a[1..] + b;
      PathsInBytes(a[1..], b);
    }
  }

  lemma {:induction false} ExtsInBytes(a: seq<ExtGroup>, b: seq<ExtGroup>)
    ensures WriteExts(a) != [] && WriteExts(a + b) == WriteExts(a)[..|WriteExts(a)| - 1] + WriteExts(b)
  {
    hide WritePaths;
    if a == [] {
      assert a + b == b;
    } else {
      assert (a + b)[1..] == a[1..] + b;
      ExtsInBytes(a[1..], b);
    }
  }

  /** Signature 0x55AA1234, version 2, the tree's size, two sections of no bytes, one of 48, and one of none. */
  lemma {:induction false} HeaderInBytes(n: nat)
    requires n < 0x1_0000_0000
    ensures var d := Header(n);
            && |d| == 28 && d[..4] == [0x34, 0x12, 0xAA, 0x55] && Four(d, 4) == 2 && Four(d, 8) == n
            && AllZero(d, 12, 20) && Four(d, 20) == 48 && AllZero(d, 24, 28)
  {
    hide ToLE, Four;
    var d := Header(n);
    Signature();
    NoneAndAll();
    FourWritten(2);
    FourWritten(n);
    FourWritten(48);
    assert d[4..8] == ToLE(2, 4) && d[8..12] == ToLE(n, 4) && d[20..24] == ToLE(48, 4);
    SameFour(d, 4, ToLE(2, 4), 2);
    SameFour(d, 8, ToLE(n, 4), n);
    SameFour(d, 20, ToLE(48, 4), 48);
  }

  lemma {:induction false} Signature()
    ensures ToLE(0x55AA1234, 4) == [0x34, 0x12, 0xAA, 0x55]
  {
    assert ToLE(0x55AA1234, 4) == [0x34] + ToLE(0x55AA12, 3);
    assert ToLE(0x55AA12, 3) == [0x12] + ToLE(0x55AA, 2);
    assert ToLE(0x55AA, 2) == [0xAA] + ToLE(0x55, 1);
    OneByte(0x55);
  }

  /** Header, tree, and three checksums of 16 bytes: of the tree, of nothing, and of all that lies before it. */
  lemma {:induction false} DirectoryInBytes(tree: seq<byte>, md5: Md5)
    requires forall x :: |md5(x)| == 16
    ensures var d, n := DirFile(tree, md5), 28 + |tree|;
            && |d| == n + 48 && d[..28] == Header(|tree|) && d[28..n] == tree
            && d[n..n + 16] == md5(tree) && d[n + 16..n + 32] == md5([]) && d[n + 32..] == md5(d[..n + 32])
  {
    hide Header;
    var body := Header(|tree|) + tree + (md5(tree) + md5([]));
    assert DirFile(tree, md5)[..28 + |tree| + 32] == body;
  }

  // ---- What is read ----

  /** At each level a name goes one level down, and no name goes one up, or at the top ends the directory. */
  lemma {:induction false} LevelsInBytes(n: Name, rest: seq<byte>, ext: Name, path: Name)
    requires 0 !in n
    ensures Scan(n + [0] + rest, ExtLevel, ext, path) ==
            if n == [] then Scanned([], true) else Scan(rest, PathLevel, n, [])
    ensures Scan(n + [0] + rest, PathLevel, ext, path) ==
            if n == [] then Scan(rest, ExtLevel, [], []) else Scan(rest, NameLevel, ext, n)
    ensures Scan([0] + rest, NameLevel, ext, path) == Scan(rest, PathLevel, ext, [])
    ensures Scan(n, ExtLevel, ext, path) == Scan(n, PathLevel, ext, path) == Scan(n, NameLevel, ext, path)
            == Scanned([], false)
  {
    hide Scan, Turn;
    StepExt(n, rest, ext, path);
    StepPath(n, rest, ext, path);
    StepLastName(rest, ext, path);
    NoTurn(n, ExtLevel, ext, path);
    NoTurn(n, PathLevel, ext, path);
    NoTurn(n, NameLevel, ext, path);
  }

  /** A name is followed by 18 bytes and by as many preloaded ones as they say, which are skipped as far as there
      are any. */
  lemma {:induction false} NameInBytes(n: Name, d: seq<byte>, rest: seq<byte>, ext: Name, path: Name)
    requires 0 !in n && n != [] && |d| == 18
    ensures Scan(n + [0] + d + rest, NameLevel, ext, path) ==
            Ahead([Rec(ext, path, n, Four(d, 0), Four(d, 8), Four(d, 12))],
                  Scan(if Two(d, 4) <= |rest| then rest[Two(d, 4)..] else [], NameLevel, ext, path))
  {
    hide Scan, Turn, NulAt, Ahead, FromLE, Two, Four, Skip;
    var t := n + [0] + d + rest;
    var after := d + rest;
    assert t == n + [0] + after;
    NulFound(n, after);
    TurnRecord(t, after, ext, path, n);
    FieldsOf(d, rest, ext, path, n);
    OneScan(t, ext, path);
  }

  lemma {:induction false} OneScan(t: seq<byte>, ext: Name, path: Name)
    requires Turn(t, NameLevel, ext, path).Go?
    ensures var go := Turn(t, NameLevel, ext, path);
            Scan(t, NameLevel, ext, path) == Ahead(go.recs, Scan(go.rest, go.level, go.ext, go.path))
  {
    hide Turn, Ahead;
  }

  lemma {:induction false} FieldsOf(d: seq<byte>, rest: seq<byte>, ext: Name, path: Name, n: Name)
    requires |d| == 18
    ensures ReadRec(ext, path, n, d + rest) == Rec(ext, path, n, Four(d, 0), Four(d, 8), Four(d, 12))
    ensures Preload(d + rest) == Two(d, 4)
    ensures Skip(d + rest, 18 + Two(d, 4)) == if Two(d, 4) <= |rest| then rest[Two(d, 4)..] else []
  {
    hide FromLE, Four, Two;
    var t := d + rest;
    FourBytes(d, 0);
    FourBytes(d, 8);
    FourBytes(d, 12);
    TwoBytes(d, 4);
    assert t[..4] == d[0..4] && t[8..12] == d[8..12] && t[12..16] == d[12..16] && t[4..6] == d[4..6];
    if Two(d, 4) <= |rest| {
      assert t[18 + Two(d, 4)..] == rest[Two(d, 4)..];
    }
  }

  /** With fewer than 18 bytes behind a name the reader stops. */
  lemma {:induction false} ShortRecord(n: Name, d: seq<byte>, ext: Name, path: Name)
    requires 0 !in n && n != [] && |d| < 18
    ensures Scan(n + [0] + d, NameLevel, ext, path) == Scanned([], false)
  {
    hide NulAt, Ahead, Skip;
    NulFound(n, d);
    TurnRecord(n + [0] + d, d, ext, path, n);
  }

  /** The content index takes the tree from byte 12 on in version 1 and from byte 28 on in every other, as far as the
      file goes. */
  lemma {:induction false} ContentInBytes(file: seq<byte>, from: nat, to: nat)
    requires |file| >= 12 ==>
               from == (if Four(file, 4) == 1 then 12 else 28) && to == from + Four(file, 8)
    ensures |file| < 12 || file[..4] != [0x34, 0x12, 0xAA, 0x55] ==> ContentEntries(file) == []
    ensures |file| >= 12 && file[..4] == [0x34, 0x12, 0xAA, 0x55] ==>
              var tree := if from >= |file| then [] else if to >= |file| then file[from..] else file[from..to];
              ContentEntries(file) == FullNames(Scan(tree, ExtLevel, [], []).recs)
  {
    hide Scan, FromLE, Four, FullName;
    if |file| >= 12 {
      FourBytes(file, 0);
      FourBytes(file, 4);
      FourBytes(file, 8);
      SignatureRead(file);
      assert file[..4] == file[0..4];
    }
  }

  lemma {:induction false} SignatureRead(file: seq<byte>)
    requires |file| >= 12
    ensures Four(file, 0) == 0x55AA1234 <==> file[..4] == [0x34, 0x12, 0xAA, 0x55]
  {
    var a: nat, b: nat, c: nat, e: nat := file[0], file[1], file[2], file[3];
    assert file[..4] == [file[0], file[1], file[2], file[3]];
    assert Four(file, 0) == a + 256 * b + 65536 * c + 0x100_0000 * e;
  }

  // ---- Names ----

  /** 47 is the slash, 46 the dot, and 32 the space that stands for the root. */
  lemma {:induction false} NameInWords(r: Rec)
    ensures FullName(r) == (if r.path == [] || r.path == [32] then [] else r.path + [47]) + r.base + [46] + r.ext
  {
  }

  lemma {:induction false} LastFound(a: Name, b: byte, c: Name)
    requires b !in c
    ensures LastOf(a + [b] + c, b) == |a| && LastOf(c, b) == -1
  {
    var s := a + [b] + c;
    assert s[|a|] == b;
    assert forall j :: |a| < j < |s| ==> s[j] == c[j - |a| - 1];
  }

  /** A path is taken apart at its last slash, and what is behind that at its last dot. */
  lemma {:induction false} SplitInWords(dir: Name, base: Name, ext: Name, data: seq<byte>)
    requires 47 !in base && 47 !in ext && 46 !in ext
    ensures Split(File(dir + [47] + base + [46] + ext, data)) ==
            Some(Entry(ext, if dir == [] then [32] else dir, base, data))
    ensures Split(File(base + [46] + ext, data)) == Some(Entry(ext, [32], base, data))
    ensures Split(File(dir + [47] + ext, data)).None? && Split(File(ext, data)).None?
  {
    hide LastOf;
    var leaf := base + [46] + ext;
    var rel := dir + [47] + base + [46] + ext;
    assert rel == dir + [47] + leaf;
    LastFound(dir, 47, leaf);
    LastFound(dir, 47, ext);
    LastFound(base, 46, ext);
    assert rel[|dir| + 1..] == leaf && rel[..|dir|] == dir;
    assert (dir + [47] + ext)[|dir| + 1..] == ext;
    assert leaf[|base| + 1..] == ext && leaf[..|base|] == base;
    assert leaf[0..] == leaf && ext[0..] == ext;
  }

  // ---- Order ----

  /** One name is the beginning of the other, or has the smaller byte at the first place where they differ. */
  ghost predicate NotAfter(a: Name, b: Name) {
    exists i: nat :: DiffersAt(a, b, i)
  }

  predicate DiffersAt(a: Name, b: Name, i: nat) {
    i <= |a| && i <= |b| && a[..i] == b[..i] && (i == |a| || (i < |b| && a[i] < b[i]))
  }

  lemma {:induction false} SortedNames(s: seq<Name>, i: nat)
    requires 0 < i < |Sort(s)|
    ensures NotAfter(Sort(s)[i - 1], Sort(s)[i])
  {
    hide Sort, Sorting.Lexicographic;
    var a, b := Sort(s)[i - 1], Sort(s)[i];
    var before := (x: byte, y: byte) => x < y;
    SortSorts(s);
    assert Leq(a, b);
    TextOrder.LexicographicExactly(a, b, before);
    var k: nat :| TextOrder.SplitsAt(a, b, k, before);
    assert DiffersAt(a, b, k);
  }

  /** At each level of the directory the names stand in the order of their bytes. */
  lemma {:induction false} DirectoryInOrder(es: seq<Entry>, crc: Crc, i: nat, j: nat, k: nat)
    ensures var gs := Groups(es, crc);
            && (0 < i < |gs| ==> NotAfter(gs[i - 1].ext, gs[i].ext))
            && (i < |gs| && 0 < j < |gs[i].paths| ==> NotAfter(gs[i].paths[j - 1].path, gs[i].paths[j].path))
            && (i < |gs| && j < |gs[i].paths| && 0 < k < |gs[i].paths[j].recs| ==>
                  NotAfter(gs[i].paths[j].recs[k - 1].base, gs[i].paths[j].recs[k].base))
  {
    hide NotAfter, Sort, Metas, ExtsOf, PathsOf, BasesOf;
    var gs := Groups(es, crc);
    if 0 < i < |gs| {
      SortedNames(ExtsOf(es), i);
    }
    if i < |gs| && 0 < j < |gs[i].paths| {
      SortedNames(PathsOf(es, gs[i].ext), j);
    }
    if i < |gs| && j < |gs[i].paths| && 0 < k < |gs[i].paths[j].recs| {
      SortedNames(BasesOf(es, gs[i].ext, gs[i].paths[j].path), k);
    }
  }

  // ---- verify ----

  /** What verify asks of a directory file before it reads the tree: signature, version, and the two checksums where
      the sizes in the header put them. */
  lemma {:induction false} HeaderChecked(d: seq<byte>, md5: Md5, n: nat, off: nat)
    requires forall x :: |md5(x)| == 16
    requires |d| >= 28 ==> n == Four(d, 8) && off == 28 + n + Four(d, 12) + Four(d, 16)
    ensures HeaderOk(d, md5) <==>
            && |d| >= 28 && d[..4] == [0x34, 0x12, 0xAA, 0x55] && Four(d, 4) == 2 && off + 48 <= |d|
            && md5(d[28..28 + n]) == d[off..off + 16] && md5(d[..off + 32]) == d[off + 32..off + 48]
  {
    hide FromLE, Four, Slice;
    if |d| >= 28 {
      HeaderWords(d);
      SignatureRead(d);
      SliceInside(d, 28, 28 + n);
      SliceInside(d, off, off + 16);
      SliceInside(d, 0, off + 32);
      SliceInside(d, off + 32, off + 48);
    }
  }

  lemma {:induction false} HeaderWords(d: seq<byte>)
    requires |d| >= 28
    ensures FromLE(d[..4]) == Four(d, 0) && FromLE(d[4..8]) == Four(d, 4) && FromLE(d[8..12]) == Four(d, 8)
    ensures FromLE(d[12..16]) == Four(d, 12) && FromLE(d[16..20]) == Four(d, 16)
  {
    hide FromLE, Four;
    FourBytes(d, 0);
    FourBytes(d, 4);
    FourBytes(d, 8);
    FourBytes(d, 12);
    FourBytes(d, 16);
    assert d[..4] == d[0..4];
  }

  lemma {:induction false} SliceInside(s: seq<byte>, from: nat, to: nat)
    requires from <= to
    ensures to <= |s| ==> Slice(s, from, to) == s[from..to]
    ensures to > |s| && from < to ==> |Slice(s, from, to)| < to - from
  {
  }

  // ---- What can be packed ----

  /** No later entry goes under the same key. */
  predicate LastOfKey(es: seq<Entry>, i: nat)
    requires i < |es|
  {
    forall j :: i < j < |es| ==> KeyOf(es[j]) != KeyOf(es[i])
  }

  lemma {:induction false} LastMeta(es: seq<Entry>, crc: Crc, i: nat)
    requires i < |es| && LastOfKey(es, i)
    ensures KeyOf(es[i]) in Metas(es, crc) && Metas(es, crc)[KeyOf(es[i])] == MetaFor(es, i, crc)
  {
    hide Archive;
    var n := |es| - 1;
    if i < n {
      assert forall j :: 0 <= j < n ==> es[..n][j] == es[j];
      LastMeta(es[..n], crc, i);
      assert es[..n][..i] == es[..i];
    }
  }

  lemma {:induction false} LastThere(es: seq<Entry>, k: EntryKey) returns (i: nat)
    requires exists j :: 0 <= j < |es| && KeyOf(es[j]) == k
    ensures i < |es| && KeyOf(es[i]) == k && LastOfKey(es, i)
  {
    var n := |es| - 1;
    if KeyOf(es[n]) == k {
      i := n;
    } else {
      var j :| 0 <= j < |es| && KeyOf(es[j]) == k;
      assert es[..n][j] == es[j];
      i := LastThere(es[..n], k);
    }
  }

  /** The offset and the length of an entry's data fit 32 bits. */
  predicate InRange(es: seq<Entry>, i: nat)
    requires i < |es|
  {
    |Archive(es[..i])| < 0x1_0000_0000 && |es[i].data| < 0x1_0000_0000
  }

  lemma {:induction false} RecordsInRange(es: seq<Entry>, crc: Crc)
    ensures AllFit(FlatExts(Groups(es, crc))) <==>
            forall i :: 0 <= i < |es| && LastOfKey(es, i) ==> InRange(es, i)
  {
    hide FlatExts, Groups, CountKey, CountEntries, Metas, Archive, LastOfKey, Sort, ExtsOf;
    var recs := FlatExts(Groups(es, crc));
    RecordsFromMeta(es, crc);
    if AllFit(recs) {
      forall i | 0 <= i < |es| && LastOfKey(es, i) ensures InRange(es, i) {
        CountedEntry(es, i);
        GroupsCount(es, crc, KeyOf(es[i]));
        CountPositive(recs, KeyOf(es[i]));
        var j :| 0 <= j < |recs| && KeyOfRec(recs[j]) == KeyOf(es[i]);
        LastMeta(es, crc, i);
        assert Fits(recs[j]);
      }
    }
    if forall i :: 0 <= i < |es| && LastOfKey(es, i) ==> InRange(es, i) {
      forall j | 0 <= j < |recs| ensures Fits(recs[j]) {
        var k := KeyOfRec(recs[j]);
        GroupsCount(es, crc, k);
        CountPositive(recs, k);
        if forall i :: 0 <= i < |es| ==> KeyOf(es[i]) != k {
          CountNone(es, k);
        }
        var i := LastThere(es, k);
        LastMeta(es, crc, i);
      }
    }
  }

  lemma {:induction false} RecordsFromMeta(es: seq<Entry>, crc: Crc)
    ensures FromMeta(FlatExts(Groups(es, crc)), Metas(es, crc))
  {
    hide FlatExts, ExtGroups, Metas, Sort, ExtsOf;
    ExtsFromMeta(es, Sort(ExtsOf(es)), Metas(es, crc));
  }

  /** Packing fails exactly where there is nothing to pack, a file's name has no dot behind its last slash, an offset or
      a length that goes into the directory takes more than 32 bits, or the directory's own size does. */
  lemma {:induction false} PacksExactly(files: seq<File>, crc: Crc)
    ensures (forall i :: 0 <= i < |files| ==> Split(files[i]).Some?) <==> Collect(files).Some?
    ensures CanBuild(files, crc) <==>
            && files != [] && Collect(files).Some?
            && var es := Collect(files).value;
               && |Tree(es, crc)| < 0x1_0000_0000
               && forall i :: 0 <= i < |es| && LastOfKey(es, i) ==> InRange(es, i)
  {
    hide Split, Collect, Tree, Groups, FlatExts, AllFit, InRange, LastOfKey;
    if Collect(files).Some? {
      RecordsInRange(Collect(files).value, crc);
    }
  }
}
