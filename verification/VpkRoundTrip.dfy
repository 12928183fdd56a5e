/** Building a VPK and verifying it: every packed file comes back, and when it does not. The writer's loops are
    proved against the functions that describe the directory and the archive, the verifier against one scan of the
    bytes, and the two meet in the records, each of which is counted on both sides. */
module VpkRoundTrip {
  import opened Options
  import opened Bytes
  import opened VpkTree
  import opened VpkReaders
  import opened VpkPack

  const SIGNATURE := 0x55AA1234
  const HEADER_SIZE := 28

  type Md5 = seq<byte> -> seq<byte>

  // ---- Building ----

  function Header(treeSize: nat): (h: seq<byte>)
    ensures |h| == HEADER_SIZE
  {
    ToLE(SIGNATURE, 4) + ToLE(2, 4) + ToLE(treeSize, 4) + ToLE(0, 4) + ToLE(0, 4) + ToLE(48, 4) + ToLE(0, 4)
  }

  function DirFile(tree: seq<byte>, md5: Md5): seq<byte> {
    var body := Header(|tree|) + tree + (md5(tree) + md5([]));
    body + md5(body)
  }

  predicate AllFit(recs: seq<Rec>) {
    forall i :: 0 <= i < |recs| ==> Fits(recs[i])
  }

  function Tree(es: seq<Entry>, crc: Crc): seq<byte> {
    WriteExts(Groups(es, crc))
  }

  /** Packing fails where a name has no dot, where there is nothing to pack, or where a number does not fit
      its 32 bits. */
  predicate CanBuild(files: seq<File>, crc: Crc) {
    Collect(files).Some? && files != []
    && AllFit(FlatExts(Groups(Collect(files).value, crc)))
    && |Tree(Collect(files).value, crc)| < 0x1_0000_0000
  }

  method Layout(es: seq<Entry>, crc: Crc) returns (archive: seq<byte>, meta: map<EntryKey, Meta>)
    ensures archive == Archive(es) && meta == Metas(es, crc)
  {
    archive, meta := [], map[];
    var i := 0;
    while i < |es|
      invariant i <= |es|
      invariant archive == Archive(es[..i]) && meta == Metas(es[..i], crc)
    {
      assert es[..i + 1][..i] == es[..i];
      var data := es[i].data;
      meta := meta[KeyOf(es[i]) := Meta(crc(data) % 0x1_0000_0000, |archive|, |data|)];
      archive := archive + data;
      i := i + 1;
    }
    assert es[..i] == es;
  }

  lemma {:induction false} NamesFrom(recs: seq<Rec>, i: nat)
    requires i <= |recs|
    ensures WriteNames(recs[i..]) ==
            if i == |recs| then [NUL]
            else recs[i].base + [NUL] + Record(recs[i]) + WriteNames(recs[i + 1..])
  {
    hide Record;
    if i < |recs| {
      assert recs[i..][1..] == recs[i + 1..];
    }
  }

  method WriteNameLevel(recs: seq<Rec>) returns (ok: bool, out: seq<byte>)
    ensures ok <==> AllFit(recs)
    ensures ok ==> out == WriteNames(recs)
  {
    hide Record, WriteNames, Fits;
    out := [];
    var i := 0;
    assert recs[0..] == recs;
    while i < |recs|
      invariant i <= |recs|
      invariant forall k :: 0 <= k < i ==> Fits(recs[k])
      invariant out + WriteNames(recs[i..]) == WriteNames(recs)
    {
      if !Fits(recs[i]) {
        return false, [];
      }
      NamesFrom(recs, i);
      out := out + (recs[i].base + [NUL] + Record(recs[i]));
      i := i + 1;
    }
    NamesFrom(recs, i);
    ok, out := true, out + [NUL];
  }

  lemma {:induction false} FitsInPaths(ps: seq<PathGroup>)
    ensures AllFit(FlatPaths(ps)) <==> forall i :: 0 <= i < |ps| ==> AllFit(ps[i].recs)
  {
    if ps != [] {
      FitsInPaths(ps[1..]);
      var a, b := ps[0].recs, FlatPaths(ps[1..]);
      FitsConcat(a, b);
      assert forall i :: 0 <= i < |ps[1..]| ==> ps[1..][i] == ps[i + 1];
      assert forall i :: 1 <= i < |ps| ==> ps[i] == ps[1..][i - 1];
    }
  }

  lemma {:induction false} FitsInExts(es: seq<ExtGroup>)
    ensures AllFit(FlatExts(es)) <==> forall i :: 0 <= i < |es| ==> AllFit(FlatPaths(es[i].paths))
  {
    if es != [] {
      FitsInExts(es[1..]);
      FitsConcat(FlatPaths(es[0].paths), FlatExts(es[1..]));
      assert forall i :: 0 <= i < |es[1..]| ==> es[1..][i] == es[i + 1];
      assert forall i :: 1 <= i < |es| ==> es[i] == es[1..][i - 1];
    }
  }

  lemma {:induction false} FitsConcat(a: seq<Rec>, b: seq<Rec>)
    ensures AllFit(a + b) <==> AllFit(a) && AllFit(b)
  {
    assert forall i :: 0 <= i < |a| ==> a[i] == (a + b)[i];
    assert forall i :: 0 <= i < |b| ==> b[i] == (a + b)[|a| + i];
  }

  lemma {:induction false} PathsFrom(ps: seq<PathGroup>, j: nat)
    requires j <= |ps|
    ensures WritePaths(ps[j..]) ==
            if j == |ps| then [NUL]
            else ps[j].path + [NUL] + WriteNames(ps[j].recs) + WritePaths(ps[j + 1..])
  {
    hide WriteNames;
    if j < |ps| {
      assert ps[j..][1..] == ps[j + 1..];
    }
  }

  method WritePathLevel(ps: seq<PathGroup>) returns (ok: bool, out: seq<byte>)
    ensures ok <==> AllFit(FlatPaths(ps))
    ensures ok ==> out == WritePaths(ps)
  {
    hide WriteNames, WritePaths, AllFit, FlatPaths;
    FitsInPaths(ps);
    out := [];
    var j := 0;
    assert ps[0..] == ps;
    while j < |ps|
      invariant j <= |ps|
      invariant forall k :: 0 <= k < j ==> AllFit(ps[k].recs)
      invariant out + WritePaths(ps[j..]) == WritePaths(ps)
    {
      var fits, names := WriteNameLevel(ps[j].recs);
      if !fits {
        return false, [];
      }
      PathsFrom(ps, j);
      out := out + (ps[j].path + [NUL] + names);
      j := j + 1;
    }
    PathsFrom(ps, j);
    ok, out := true, out + [NUL];
  }

  lemma {:induction false} ExtsFrom(es: seq<ExtGroup>, i: nat)
    requires i <= |es|
    ensures WriteExts(es[i..]) ==
            if i == |es| then [NUL]
            else es[i].ext + [NUL] + WritePaths(es[i].paths) + WriteExts(es[i + 1..])
  {
    hide WritePaths;
    if i < |es| {
      assert es[i..][1..] == es[i + 1..];
    }
  }

  method WriteTree(es: seq<ExtGroup>) returns (ok: bool, tree: seq<byte>)
    ensures ok <==> AllFit(FlatExts(es))
    ensures ok ==> tree == WriteExts(es)
  {
    hide WritePaths, WriteExts, AllFit, FlatExts, FlatPaths;
    FitsInExts(es);
    tree := [];
    var i := 0;
    assert es[0..] == es;
    while i < |es|
      invariant i <= |es|
      invariant forall k :: 0 <= k < i ==> AllFit(FlatPaths(es[k].paths))
      invariant tree + WriteExts(es[i..]) == WriteExts(es)
    {
      var fits, paths := WritePathLevel(es[i].paths);
      if !fits {
        return false, [];
      }
      ExtsFrom(es, i);
      tree := tree + (es[i].ext + [NUL] + paths);
      i := i + 1;
    }
    ExtsFrom(es, i);
    ok, tree := true, tree + [NUL];
  }

  method Build(files: seq<File>, crc: Crc, md5: Md5) returns (r: Option<(seq<byte>, seq<byte>)>)
    ensures r.Some? <==> CanBuild(files, crc)
    ensures r.Some? ==> var es := Collect(files).value; r.value == (DirFile(Tree(es, crc), md5), Archive(es))
  {
    hide Groups, WriteExts, FlatExts, Archive, Metas, AllFit;
    var collected := Collect(files);
    if collected.None? || files == [] {
      return None;
    }
    var es := collected.value;
    var archive, meta := Layout(es, crc);
    var groups := Groups(es, crc);
    var ok, tree := WriteTree(groups);
    if !ok || |tree| >= 0x1_0000_0000 {
      return None;
    }
    r := Some((DirFile(tree, md5), archive));
  }

  // ---- Reading it back ----

  predicate NulFree(es: seq<Entry>) {
    forall i :: 0 <= i < |es| ==> NUL !in es[i].ext && NUL !in es[i].path && NUL !in es[i].base
  }

  predicate Named(es: seq<Entry>) {
    forall i :: 0 <= i < |es| ==> es[i].ext != [] && es[i].base != []
  }

  lemma {:induction false} BaseFrom(es: seq<Entry>, ext: Name, path: Name, b: Name) returns (i: nat)
    requires b in BasesOf(es, ext, path)
    ensures i < |es| && es[i].ext == ext && es[i].path == path && es[i].base == b
  {
    var n := |es| - 1;
    if b in BasesOf(es[..n], ext, path) {
      i := BaseFrom(es[..n], ext, path, b);
    } else {
      i := n;
    }
  }

  lemma {:induction false} InSort(s: seq<Name>, x: Name)
    ensures x in Sort(s) <==> x in s
  {
    hide Sort;
    assert x in multiset(Sort(s)) <==> x in multiset(s);
  }

  /** The groups of named, NUL-free entries are what a directory can hold. */
  lemma {:induction false} GroupsAreGood(es: seq<Entry>, crc: Crc)
    requires NulFree(es) && Named(es) && AllFit(FlatExts(Groups(es, crc)))
    requires forall i :: 0 <= i < |es| ==> es[i].path != []
    ensures GoodExts(Groups(es, crc))
  {
    hide Sort, ExtsOf, PathsOf, BasesOf, Metas;
    var gs := Groups(es, crc);
    FitsInExts(gs);
    forall g | 0 <= g < |gs| ensures Readable(gs[g].ext) && GoodPaths(gs[g].ext, gs[g].paths) {
      var ext := gs[g].ext;
      InSort(ExtsOf(es), ext);
      assert ext in Sort(ExtsOf(es));
      PathsAreGood(es, crc, ext, gs[g].paths);
    }
  }

  lemma {:induction false} PathsAreGood(es: seq<Entry>, crc: Crc, ext: Name, ps: seq<PathGroup>)
    requires NulFree(es) && Named(es) && AllFit(FlatPaths(ps))
    requires forall i :: 0 <= i < |es| ==> es[i].path != []
    requires ps == PathGroups(es, ext, Sort(PathsOf(es, ext)), Metas(es, crc))
    ensures GoodPaths(ext, ps)
  {
    hide Sort, PathsOf, BasesOf, Metas;
    FitsInPaths(ps);
    forall p | 0 <= p < |ps| ensures Readable(ps[p].path) && GoodNames(ext, ps[p].path, ps[p].recs) {
      var path := ps[p].path;
      InSort(PathsOf(es, ext), path);
      assert path in Sort(PathsOf(es, ext));
      var bases := Sort(BasesOf(es, ext, path));
      forall b | 0 <= b < |bases| ensures Readable(bases[b]) {
        InSort(BasesOf(es, ext, path), bases[b]);
        var i := BaseFrom(es, ext, path, bases[b]);
      }
    }
  }

  lemma {:induction false} CountPositive(recs: seq<Rec>, k: EntryKey)
    ensures CountKey(recs, k) > 0 <==> exists i :: 0 <= i < |recs| && KeyOfRec(recs[i]) == k
  {
    if recs != [] {
      CountPositive(recs[1..], k);
      assert forall i :: 0 <= i < |recs| - 1 ==> recs[1..][i] == recs[i + 1];
      assert forall i :: 1 <= i < |recs| ==> recs[i] == recs[1..][i - 1];
    }
  }

  lemma {:induction false} CountedEntry(es: seq<Entry>, i: nat)
    requires i < |es|
    ensures CountEntries(es, KeyOf(es[i])) > 0
  {
    var n := |es| - 1;
    if i < n {
      CountedEntry(es[..n], i);
    }
  }

  /** The bytes, whatever follows them, read as exactly the packed entries, each as often as it was packed. */
  ghost predicate ReadsBack(es: seq<Entry>, crc: Crc, rest: seq<byte>) {
    forall k :: CountKey(Scan(Tree(es, crc) + rest, ExtLevel, [], []).recs, k) == CountEntries(es, k)
  }

  lemma {:induction false} NamelessIsLost(es: seq<Entry>, crc: Crc, rest: seq<byte>, i: nat)
    requires i < |es| && ReadsBack(es, crc, rest)
    ensures es[i].ext != [] && es[i].base != []
  {
    hide Scan, CountKey, CountEntries, Tree;
    var recs, k := Scan(Tree(es, crc) + rest, ExtLevel, [], []).recs, KeyOf(es[i]);
    CountedEntry(es, i);
    assert CountKey(recs, k) == CountEntries(es, k);
    CountPositive(recs, k);
    NothingNameless(Tree(es, crc) + rest, ExtLevel, [], []);
  }

  /** The directory reads back exactly if and only if every packed file has an extension and a name in
      front of it. */
  lemma {:induction false} ReadsBackExactly(es: seq<Entry>, crc: Crc, rest: seq<byte>)
    requires NulFree(es) && AllFit(FlatExts(Groups(es, crc)))
    requires forall i :: 0 <= i < |es| ==> es[i].path != []
    ensures ReadsBack(es, crc, rest) <==> Named(es)
  {
    hide Scan, Groups, FlatExts, AllFit, CountKey, CountEntries, Tree;
    if Named(es) {
      TreeIsRead(es, crc, rest);
      forall k ensures CountKey(Scan(Tree(es, crc) + rest, ExtLevel, [], []).recs, k) == CountEntries(es, k) {
        GroupsCount(es, crc, k);
      }
    }
    if ReadsBack(es, crc, rest) {
      forall i | 0 <= i < |es| ensures es[i].ext != [] && es[i].base != [] {
        NamelessIsLost(es, crc, rest, i);
      }
    }
  }

  lemma {:induction false} TreeIsRead(es: seq<Entry>, crc: Crc, rest: seq<byte>)
    requires NulFree(es) && Named(es) && AllFit(FlatExts(Groups(es, crc)))
    requires forall i :: 0 <= i < |es| ==> es[i].path != []
    ensures Scan(Tree(es, crc) + rest, ExtLevel, [], []) == Scanned(FlatExts(Groups(es, crc)), true)
  {
    hide Scan, Groups, FlatExts, AllFit;
    GroupsAreGood(es, crc);
    TreeReadsBack(Groups(es, crc), rest);
  }

  // ---- Records and slices ----

  function RecFor(es: seq<Entry>, i: nat, crc: Crc): Rec
    requires i < |es|
  {
    var m := MetaFor(es, i, crc);
    Rec(es[i].ext, es[i].path, es[i].base, m.crc, m.offset, m.length)
  }

  predicate FromMeta(recs: seq<Rec>, m: map<EntryKey, Meta>) {
    forall i :: 0 <= i < |recs| ==> recs[i] == MetaOf(m, KeyOfRec(recs[i]))
  }

  lemma {:induction false} PathsFromMeta(es: seq<Entry>, ext: Name, paths: seq<Name>, m: map<EntryKey, Meta>)
    ensures FromMeta(FlatPaths(PathGroups(es, ext, paths, m)), m)
    decreases |paths|
  {
    hide Sort, BasesOf;
    if paths != [] {
      var ps := PathGroups(es, ext, paths, m);
      assert ps[1..] == PathGroups(es, ext, paths[1..], m);
      PathsFromMeta(es, ext, paths[1..], m);
    }
  }

  lemma {:induction false} ExtsFromMeta(es: seq<Entry>, exts: seq<Name>, m: map<EntryKey, Meta>)
    ensures FromMeta(FlatExts(ExtGroups(es, exts, m)), m)
    decreases |exts|
  {
    hide Sort, PathsOf;
    if exts != [] {
      var gs := ExtGroups(es, exts, m);
      assert gs[1..] == ExtGroups(es, exts[1..], m);
      ExtsFromMeta(es, exts[1..], m);
      PathsFromMeta(es, exts[0], Sort(PathsOf(es, exts[0])), m);
    }
  }

  /** Each record in the directory is the record of one collected entry. */
  lemma {:induction false} RecordsAreEntries(es: seq<Entry>, crc: Crc, r: Rec) returns (i: nat)
    requires DistinctEntries(es) && r in FlatExts(Groups(es, crc))
    ensures i < |es| && r == RecFor(es, i, crc)
  {
    hide Sort, ExtsOf, FlatExts, CountKey, CountEntries, Metas, Archive, ExtGroups;
    var recs := FlatExts(Groups(es, crc));
    ExtsFromMeta(es, Sort(ExtsOf(es)), Metas(es, crc));
    GroupsCount(es, crc, KeyOfRec(r));
    CountPositive(recs, KeyOfRec(r));
    if forall i :: 0 <= i < |es| ==> KeyOf(es[i]) != KeyOfRec(r) {
      CountNone(es, KeyOfRec(r));
    }
    i :| 0 <= i < |es| && KeyOf(es[i]) == KeyOfRec(r);
    MetasAt(es, crc, i);
  }

  lemma {:induction false} EntriesAreRecords(es: seq<Entry>, crc: Crc, i: nat)
    requires DistinctEntries(es) && i < |es|
    ensures RecFor(es, i, crc) in FlatExts(Groups(es, crc))
  {
    hide Sort, ExtsOf, FlatExts, CountKey, CountEntries, Metas, Archive, ExtGroups;
    var recs := FlatExts(Groups(es, crc));
    CountedEntry(es, i);
    GroupsCount(es, crc, KeyOf(es[i]));
    CountPositive(recs, KeyOf(es[i]));
    var j :| 0 <= j < |recs| && KeyOfRec(recs[j]) == KeyOf(es[i]);
    ExtsFromMeta(es, Sort(ExtsOf(es)), Metas(es, crc));
    MetasAt(es, crc, i);
  }

  lemma {:induction false} ArchivePrefix(es: seq<Entry>, i: nat)
    requires i <= |es|
    ensures Archive(es[..i]) <= Archive(es)
  {
    if i < |es| {
      var n := |es| - 1;
      assert es[..n][..i] == es[..i];
      ArchivePrefix(es[..n], i);
    } else {
      assert es[..i] == es;
    }
  }

  /** The slices lie one after the other from the archive's start to its end, and each is its file's data. */
  lemma {:induction false} SlicesCover(es: seq<Entry>, crc: Crc, i: nat)
    requires i < |es|
    ensures var m := MetaFor(es, i, crc);
            && m.offset + m.length <= |Archive(es)|
            && Archive(es)[m.offset..m.offset + m.length] == es[i].data
            && (i == 0 ==> m.offset == 0)
            && m.offset + m.length == if i + 1 < |es| then MetaFor(es, i + 1, crc).offset else |Archive(es)|
  {
    assert es[..i + 1][..i] == es[..i];
    ArchivePrefix(es, i + 1);
    assert es[..|es|] == es;
    var a, b := Archive(es[..i]), Archive(es[..i + 1]);
    assert b == a + es[i].data;
    assert Archive(es)[|a|..|b|] == b[|a|..|b|] == es[i].data;
  }

  // ---- verify ----

  function Slice(s: seq<byte>, from: nat, to: nat): seq<byte>
    requires from <= to
  {
    if from >= |s| then [] else if to >= |s| then s[from..] else s[from..to]
  }

  function DataOf(r: Rec, arc: seq<byte>): seq<byte> {
    Slice(arc, r.offset, r.offset + r.length)
  }

  /** The files verify sees, by full name; None where a checksum differs. */
  function Seen(recs: seq<Rec>, arc: seq<byte>, crc: Crc): Option<map<Name, seq<byte>>> {
    if recs == [] then Some(map[])
    else
      var r := recs[|recs| - 1];
      match Seen(recs[..|recs| - 1], arc, crc)
      case None => None
      case Some(m) =>
        if crc(DataOf(r, arc)) % 0x1_0000_0000 != r.crc then None
        else Some(m[FullName(r) := DataOf(r, arc)])
  }

  predicate HeaderOk(dir: seq<byte>, md5: Md5) {
    |dir| >= HEADER_SIZE
    && FromLE(dir[..4]) == SIGNATURE && FromLE(dir[4..8]) == 2
    && var size := FromLE(dir[8..12]);
    var off := HEADER_SIZE + size + FromLE(dir[12..16]) + FromLE(dir[16..20]);
    && md5(Slice(dir, HEADER_SIZE, HEADER_SIZE + size)) == Slice(dir, off, off + 16)
    && md5(Slice(dir, 0, off + 32)) == Slice(dir, off + 32, off + 48)
  }

  predicate AllThere(es: seq<Entry>, seen: map<Name, seq<byte>>) {
    forall i :: 0 <= i < |es| ==> NameOf(es[i]) in seen && seen[NameOf(es[i])] == es[i].data
  }

  /** The number of files seen, or None where verify raises. */
  function Verified(dir: seq<byte>, arc: seq<byte>, es: seq<Entry>, crc: Crc, md5: Md5): Option<nat> {
    if !HeaderOk(dir, md5) then None
    else
      var scanned := Scan(dir[HEADER_SIZE..], ExtLevel, [], []);
      match Seen(scanned.recs, arc, crc)
      case None => None
      case Some(seen) => if scanned.complete && AllThere(es, seen) then Some(|seen|) else None
  }

  method See(recs: seq<Rec>, arc: seq<byte>, crc: Crc) returns (r: Option<map<Name, seq<byte>>>)
    ensures r == Seen(recs, arc, crc)
  {
    hide FullName, DataOf;
    var seen: map<Name, seq<byte>> := map[];
    var i := 0;
    while i < |recs|
      invariant i <= |recs|
      invariant Seen(recs[..i], arc, crc) == Some(seen)
    {
      assert recs[..i + 1][..i] == recs[..i];
      var data := DataOf(recs[i], arc);
      if crc(data) % 0x1_0000_0000 != recs[i].crc {
        SeenFails(recs, i + 1, arc, crc);
        return None;
      }
      seen := seen[FullName(recs[i]) := data];
      i := i + 1;
    }
    assert recs[..i] == recs;
    r := Some(seen);
  }

  method Verify(dir: seq<byte>, arc: seq<byte>, es: seq<Entry>, crc: Crc, md5: Md5) returns (r: Option<nat>)
    ensures r == Verified(dir, arc, es, crc, md5)
  {
    hide Scan, NameOf, HeaderOk, Seen;
    if !HeaderOk(dir, md5) {
      return None;
    }
    HeaderLong(dir, md5);
    var recs, complete := Entries(dir[HEADER_SIZE..]);
    var seen := See(recs, arc, crc);
    if seen.None? || !complete {
      return None;
    }
    var j := 0;
    while j < |es|
      invariant j <= |es|
      invariant forall i :: 0 <= i < j ==> NameOf(es[i]) in seen.value && seen.value[NameOf(es[i])] == es[i].data
    {
      if NameOf(es[j]) !in seen.value || seen.value[NameOf(es[j])] != es[j].data {
        return None;
      }
      j := j + 1;
    }
    r := Some(|seen.value|);
  }

  lemma {:induction false} HeaderLong(dir: seq<byte>, md5: Md5)
    requires HeaderOk(dir, md5)
    ensures |dir| >= HEADER_SIZE
  {
  }

  lemma {:induction false} SeenFails(recs: seq<Rec>, i: nat, arc: seq<byte>, crc: Crc)
    requires i <= |recs| && Seen(recs[..i], arc, crc) == None
    ensures Seen(recs, arc, crc) == None
    decreases |recs|
  {
    if i == |recs| {
      assert recs[..i] == recs;
    } else {
      var n := |recs| - 1;
      assert recs[..n][..i] == recs[..i];
      SeenFails(recs[..n], i, arc, crc);
    }
  }

  // ---- Packing, then verifying ----

  /** A path the format can hold: a name and an extension, and a directory whose name does not mean the root. */
  predicate Packable(f: File) {
    && NUL !in f.rel
    && Split(f).Some? && Split(f).value.ext != [] && Split(f).value.base != []
    && (LastOf(f.rel, SLASH) < 0 || (DirOf(f.rel) != [] && DirOf(f.rel) != [SPACE]))
  }

  predicate DistinctRels(files: seq<File>) {
    forall i, j :: 0 <= i < j < |files| ==> files[i].rel != files[j].rel
  }

  lemma {:induction false} SplitFacts(f: File)
    requires Packable(f)
    ensures var e := Split(f).value;
            && NameOf(e) == f.rel && e.data == f.data && e.path != []
            && NUL !in e.ext && NUL !in e.path && NUL !in e.base
  {
  }

  lemma {:induction false} Collected(files: seq<File>)
    requires Collect(files).Some? && DistinctRels(files) && forall i :: 0 <= i < |files| ==> Packable(files[i])
    ensures var es := Collect(files).value;
            && NulFree(es) && Named(es) && DistinctEntries(es)
            && forall i :: 0 <= i < |es| ==>
                 es[i].path != [] && NameOf(es[i]) == files[i].rel && es[i].data == files[i].data
  {
    hide Collect, Split, NameOf, LastOf, DirOf;
    var es := Collect(files).value;
    forall i | 0 <= i < |es|
      ensures es[i].path != [] && NameOf(es[i]) == files[i].rel && es[i].data == files[i].data
      ensures es[i].ext != [] && es[i].base != [] && NUL !in es[i].ext && NUL !in es[i].path && NUL !in es[i].base
    {
      assert Split(files[i]) == Some(es[i]) && Packable(files[i]);
      SplitFacts(files[i]);
    }
    forall i, j | 0 <= i < j < |es| ensures KeyOf(es[i]) != KeyOf(es[j]) {
      if KeyOf(es[i]) == KeyOf(es[j]) {
        SameKeySameName(es[i], es[j]);
      }
    }
  }

  lemma {:induction false} SameKeySameName(a: Entry, b: Entry)
    requires KeyOf(a) == KeyOf(b)
    ensures NameOf(a) == NameOf(b)
  {
  }

  lemma {:induction false} SeenAll(recs: seq<Rec>, arc: seq<byte>, crc: Crc)
    requires forall i :: 0 <= i < |recs| ==> crc(DataOf(recs[i], arc)) % 0x1_0000_0000 == recs[i].crc
    ensures Seen(recs, arc, crc).Some?
    ensures forall i :: 0 <= i < |recs| ==> FullName(recs[i]) in Seen(recs, arc, crc).value
    ensures forall k :: k in Seen(recs, arc, crc).value ==>
              exists i :: 0 <= i < |recs| && FullName(recs[i]) == k
                  && Seen(recs, arc, crc).value[k] == DataOf(recs[i], arc)
  {
    hide FullName, DataOf;
    if recs != [] {
      var n := |recs| - 1;
      SeenAll(recs[..n], arc, crc);
      var m, m' := Seen(recs[..n], arc, crc).value, Seen(recs, arc, crc).value;
      forall k | k in m'
        ensures exists i :: 0 <= i < |recs| && FullName(recs[i]) == k && m'[k] == DataOf(recs[i], arc)
      {
        if k == FullName(recs[n]) {
          assert m'[k] == DataOf(recs[n], arc);
        } else {
          var i :| 0 <= i < n && FullName(recs[..n][i]) == k && m[k] == DataOf(recs[..n][i], arc);
          assert FullName(recs[i]) == k && m'[k] == DataOf(recs[i], arc);
        }
      }
    }
  }

  /** A packed entry's record names it and its slice of the archive is its data. */
  lemma {:induction false} RecordOf(es: seq<Entry>, crc: Crc, i: nat)
    requires i < |es|
    ensures var r := RecFor(es, i, crc);
            && FullName(r) == NameOf(es[i])
            && DataOf(r, Archive(es)) == es[i].data
            && r.crc == crc(es[i].data) % 0x1_0000_0000
  {
    SlicesCover(es, crc, i);
    SameNameAnyMeta(RecFor(es, i, crc), es[i]);
  }

  lemma {:induction false} SameNameAnyMeta(r: Rec, e: Entry)
    requires r.ext == e.ext && r.path == e.path && r.base == e.base
    ensures FullName(r) == NameOf(e)
  {
  }

  lemma {:induction false} SeenIsPacked(files: seq<File>, crc: Crc)
    requires Collect(files).Some? && DistinctRels(files) && forall i :: 0 <= i < |files| ==> Packable(files[i])
    ensures var es := Collect(files).value;
            var seen := Seen(FlatExts(Groups(es, crc)), Archive(es), crc);
            && seen.Some? && AllThere(es, seen.value)
            && forall k :: k in seen.value ==> exists i :: 0 <= i < |files| && files[i].rel == k
  {
    hide Seen, FlatExts, Groups, Archive, RecFor, FullName, DataOf, Packable, Collect, NameOf;
    Collected(files);
    var es := Collect(files).value;
    var recs, arc := FlatExts(Groups(es, crc)), Archive(es);
    forall j | 0 <= j < |recs|
      ensures crc(DataOf(recs[j], arc)) % 0x1_0000_0000 == recs[j].crc
      ensures exists i :: 0 <= i < |es| && NameOf(es[i]) == FullName(recs[j]) && DataOf(recs[j], arc) == es[i].data
    {
      var i := RecordsAreEntries(es, crc, recs[j]);
      RecordOf(es, crc, i);
    }
    SeenAll(recs, arc, crc);
    var seen := Seen(recs, arc, crc).value;
    forall i | 0 <= i < |es| ensures NameOf(es[i]) in seen && seen[NameOf(es[i])] == es[i].data {
      EntriesAreRecords(es, crc, i);
      RecordOf(es, crc, i);
      var j :| 0 <= j < |recs| && recs[j] == RecFor(es, i, crc);
      assert FullName(recs[j]) == NameOf(es[i]);
      var j' :| 0 <= j' < |recs| && FullName(recs[j']) == NameOf(es[i]) && seen[NameOf(es[i])] == DataOf(recs[j'], arc);
      var i' :| 0 <= i' < |es| && NameOf(es[i']) == FullName(recs[j']) && DataOf(recs[j'], arc) == es[i'].data;
      assert files[i].rel == files[i'].rel;
      assert i == i';
    }
  }

  ghost function Rels(files: seq<File>): (s: set<Name>)
    ensures forall k :: k in s <==> exists i :: 0 <= i < |files| && files[i].rel == k
  {
    if files == [] then {}
    else
      assert forall i :: 0 <= i < |files| - 1 ==> files[..|files| - 1][i] == files[i];
      Rels(files[..|files| - 1]) + {files[|files| - 1].rel}
  }

  lemma {:induction false} DistinctCount(files: seq<File>)
    requires DistinctRels(files)
    ensures |Rels(files)| == |files|
  {
    if files != [] {
      var n := |files| - 1;
      DistinctCount(files[..n]);
      assert files[n].rel !in Rels(files[..n]);
    }
  }

  /** Distinct paths are as many as there are files, and only they are. */
  lemma {:induction false} DistinctExactly(files: seq<File>)
    ensures DistinctRels(files) <==> |Rels(files)| == |files|
  {
    if DistinctRels(files) {
      DistinctCount(files);
    } else {
      RepeatedCount(files);
    }
  }

  lemma {:induction false} RepeatedCount(files: seq<File>)
    ensures |Rels(files)| <= |files|
    ensures !DistinctRels(files) ==> |Rels(files)| < |files|
  {
    hide Rels, DistinctRels;
    if files == [] {
      NoRels();
    } else {
      var n := |files| - 1;
      RepeatedCount(files[..n]);
      OneMoreRel(files);
    }
  }

  lemma {:induction false} NoRels()
    ensures Rels([]) == {} && DistinctRels([])
  {
  }

  lemma {:induction false} OneMoreRel(files: seq<File>)
    requires files != []
    ensures var front, rel := files[..|files| - 1], files[|files| - 1].rel;
            && |Rels(files)| == |Rels(front)| + (if rel in Rels(front) then 0 else 1)
            && (DistinctRels(files) <==> DistinctRels(front) && rel !in Rels(front))
  {
    hide Rels;
    var n := |files| - 1;
    var front, rel := files[..n], files[n].rel;
    if rel in Rels(front) {
      assert Rels(files) == Rels(front);
    } else {
      assert Rels(files) == Rels(front) + {rel};
    }
  }

  lemma {:induction false} SliceParts(a: seq<byte>, b: seq<byte>, c: seq<byte>)
    ensures Slice(a + b + c, |a|, |a| + |b|) == b
    ensures Slice(a + b, |a|, |a| + |b|) == b
    ensures Slice(a + b, 0, |a|) == a
  {
  }

  lemma {:induction false} HeaderFields(n: nat, rest: seq<byte>)
    requires n < 0x1_0000_0000
    ensures var d := Header(n) + rest;
            && |d| >= HEADER_SIZE && d[HEADER_SIZE..] == rest
            && FromLE(d[..4]) == SIGNATURE && FromLE(d[4..8]) == 2 && FromLE(d[8..12]) == n
            && FromLE(d[12..16]) == 0 && FromLE(d[16..20]) == 0
  {
    hide ToLE, FromLE;
    var d := Header(n) + rest;
    Widths();
    UnpackPack(SIGNATURE, 4);
    UnpackPack(2, 4);
    UnpackPack(n, 4);
    UnpackPack(0, 4);
    assert d[..4] == ToLE(SIGNATURE, 4);
    assert d[4..8] == ToLE(2, 4);
    assert d[8..12] == ToLE(n, 4);
    assert d[12..16] == ToLE(0, 4);
    assert d[16..20] == ToLE(0, 4);
  }

  lemma {:induction false} HeaderPasses(tree: seq<byte>, md5: Md5)
    requires |tree| < 0x1_0000_0000 && forall x :: |md5(x)| == 16
    ensures HeaderOk(DirFile(tree, md5), md5)
    ensures DirFile(tree, md5)[HEADER_SIZE..] ==
            tree + (md5(tree) + md5([]) + md5(Header(|tree|) + tree + (md5(tree) + md5([]))))
  {
    hide Header, Slice, FromLE;
    var h := Header(|tree|);
    var body := h + tree + (md5(tree) + md5([]));
    var dir := body + md5(body);
    var off := HEADER_SIZE + |tree|;
    var rest := tree + (md5(tree) + md5([]) + md5(body));
    assert dir == h + rest;
    HeaderFields(|tree|, rest);
    SliceParts(h, tree, md5(tree) + md5([]) + md5(body));
    assert dir == h + tree + (md5(tree) + md5([]) + md5(body));
    SliceParts(h + tree, md5(tree), md5([]) + md5(body));
    assert dir == h + tree + md5(tree) + (md5([]) + md5(body));
    SliceParts(body, md5(body), []);
    assert |body| == off + 32;
  }

  /** Whatever is packed verifies: every file is found under its own path with its own bytes, the checksums
      agree, and exactly as many files are seen as were packed. */
  lemma {:induction false} PackedVerifies(files: seq<File>, crc: Crc, md5: Md5)
    requires CanBuild(files, crc) && DistinctRels(files) && forall i :: 0 <= i < |files| ==> Packable(files[i])
    requires forall x :: |md5(x)| == 16
    ensures var es := Collect(files).value;
            Verified(DirFile(Tree(es, crc), md5), Archive(es), es, crc, md5) == Some(|files|)
  {
    hide Packable, HeaderOk, DirFile, Seen, AllThere, Scan, Tree, Groups, FlatExts, AllFit, Archive, Collect;
    Collected(files);
    var es := Collect(files).value;
    var tree := Tree(es, crc);
    HeaderPasses(tree, md5);
    TreeIsRead(es, crc, md5(tree) + md5([]) + md5(Header(|tree|) + tree + (md5(tree) + md5([]))));
    SeenIsPacked(files, crc);
    var seen := Seen(FlatExts(Groups(es, crc)), Archive(es), crc).value;
    SeenCount(files, es, seen);
  }

  lemma {:induction false} SeenCount(files: seq<File>, es: seq<Entry>, seen: map<Name, seq<byte>>)
    requires DistinctRels(files) && AllThere(es, seen) && |es| == |files|
    requires forall i :: 0 <= i < |es| ==> NameOf(es[i]) == files[i].rel
    requires forall k :: k in seen ==> exists i :: 0 <= i < |files| && files[i].rel == k
    ensures |seen| == |files|
  {
    hide NameOf;
    DistinctCount(files);
    forall k ensures k in seen.Keys <==> k in Rels(files) {
      if k in Rels(files) {
        var i :| 0 <= i < |files| && files[i].rel == k;
        assert NameOf(es[i]) == k;
      }
    }
    assert seen.Keys == Rels(files);
  }

  // ---- The content index reads a built file, whole or cut off ----

  /** vpk_entries: the paths in a directory file, as far as it goes. */
  function ContentEntries(file: seq<byte>): seq<Name> {
    if |file| < 12 || FromLE(file[..4]) != SIGNATURE then []
    else
      var hdr := if FromLE(file[4..8]) == 1 then 12 else HEADER_SIZE;
      FullNames(Scan(Slice(file, hdr, hdr + FromLE(file[8..12])), ExtLevel, [], []).recs)
  }

  method ContentIndex(file: seq<byte>) returns (out: seq<Name>)
    ensures out == ContentEntries(file)
  {
    hide Scan;
    if |file| < 12 || FromLE(file[..4]) != SIGNATURE {
      return [];
    }
    var hdr := if FromLE(file[4..8]) == 1 then 12 else HEADER_SIZE;
    var recs, _ := Entries(Slice(file, hdr, hdr + FromLE(file[8..12])));
    out := FullNames(recs);
  }

  /** Any file at all, cut off anywhere: the paths it still yields are the first ones of those it had. */
  lemma {:induction false} DamagedFileIsPrefix(file: seq<byte>, k: nat)
    requires k <= |file|
    ensures ContentEntries(file[..k]) <= ContentEntries(file)
  {
    hide Scan, FullName, FromLE;
    var cut := file[..k];
    if k >= 12 {
      assert cut[..4] == file[..4] && cut[4..8] == file[4..8] && cut[8..12] == file[8..12];
      if FromLE(file[..4]) == SIGNATURE {
        var hdr := if FromLE(file[4..8]) == 1 then 12 else HEADER_SIZE;
        var n := FromLE(file[8..12]);
        SlicePrefix(file, k, hdr, hdr + n);
        TruncationIsPrefix(Slice(file, hdr, hdr + n), Slice(cut, hdr, hdr + n), ExtLevel, [], []);
      }
    }
  }

  lemma {:induction false} SlicePrefix(s: seq<byte>, k: nat, from: nat, to: nat)
    requires k <= |s| && from <= to
    ensures Slice(s[..k], from, to) <= Slice(s, from, to)
  {
  }

  /** A built directory file yields the path of every record, in order. */
  lemma {:induction false} ContentOfBuilt(es: seq<Entry>, crc: Crc, md5: Md5)
    requires NulFree(es) && Named(es) && AllFit(FlatExts(Groups(es, crc))) && |Tree(es, crc)| < 0x1_0000_0000
    requires forall i :: 0 <= i < |es| ==> es[i].path != []
    ensures ContentEntries(DirFile(Tree(es, crc), md5)) == FullNames(FlatExts(Groups(es, crc)))
  {
    hide Scan, FullName, Groups, FlatExts, AllFit, Header, Tree, FromLE;
    var tree := Tree(es, crc);
    var more := md5(tree) + md5([]);
    var body := Header(|tree|) + tree + more;
    var dir := body + md5(body);
    assert dir == Header(|tree|) + (tree + (more + md5(body)));
    HeaderFields(|tree|, tree + (more + md5(body)));
    assert dir == Header(|tree|) + tree + (more + md5(body));
    SliceParts(Header(|tree|), tree, more + md5(body));
    TreeIsRead(es, crc, []);
    assert tree + [] == tree;
  }
}
