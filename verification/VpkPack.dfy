/** Packing a directory of files: splitting their paths, laying out the archive, grouping the names, and why
    every file comes back. CRC-32 and MD5 are parameters. The nested dictionaries are described by the names at
    each level in the order they are first met, sorted where the program sorts them; a key is counted in the
    collected entries and in the grouped records, and the two counts agree at every level of the grouping. */
module VpkPack {
  import opened Options
  import opened Bytes
  import opened VpkTree
  import opened VpkReaders
  import Sorting

  datatype File = File(rel: Name, data: seq<byte>)
  datatype Entry = Entry(ext: Name, path: Name, base: Name, data: seq<byte>)
  datatype EntryKey = EntryKey(ext: Name, path: Name, base: Name)

  function KeyOf(e: Entry): EntryKey {
    EntryKey(e.ext, e.path, e.base)
  }

  function KeyOfRec(r: Rec): EntryKey {
    EntryKey(r.ext, r.path, r.base)
  }

  // ---- Splitting a path ----

  /** The position of the last b, or -1. */
  function LastOf(s: Name, b: byte): (i: int)
    ensures -1 <= i < |s|
    ensures i >= 0 ==> s[i] == b
    ensures forall j :: i < j < |s| ==> s[j] != b
  {
    if s == [] then -1 else if s[|s| - 1] == b then |s| - 1 else LastOf(s[..|s| - 1], b)
  }

  function DirOf(rel: Name): Name {
    var i := LastOf(rel, SLASH);
    if i < 0 then [] else rel[..i]
  }

  function LeafOf(rel: Name): Name {
    rel[LastOf(rel, SLASH) + 1..]
  }

  /** A file as the directory's three levels; None where its name has no dot. */
  function Split(f: File): Option<Entry> {
    var leaf := LeafOf(f.rel);
    var d := LastOf(leaf, DOT);
    if d < 0 then None
    else Some(Entry(leaf[d + 1..], if DirOf(f.rel) == [] then [SPACE] else DirOf(f.rel), leaf[..d], f.data))
  }

  lemma {:induction false} OneMoreFile(files: seq<File>, es: seq<Entry>, e: Entry)
    requires |files| == |es| + 1 && Split(files[|es|]) == Some(e)
    requires forall i :: 0 <= i < |es| ==> Split(files[..|es|][i]) == Some(es[i])
    ensures forall i :: 0 <= i < |files| ==> Split(files[i]) == Some((es + [e])[i])
  {
    hide Split;
    forall i | 0 <= i < |files| ensures Split(files[i]) == Some((es + [e])[i]) {
      assert i < |es| ==> files[..|es|][i] == files[i];
    }
  }

  lemma {:induction false} NoFileLost(files: seq<File>, n: nat)
    requires n <= |files| && exists i :: 0 <= i < n && Split(files[..n][i]).None?
    ensures exists i :: 0 <= i < |files| && Split(files[i]).None?
  {
    hide Split;
    var i :| 0 <= i < n && Split(files[..n][i]).None?;
    assert files[..n][i] == files[i];
  }

  function Collect(files: seq<File>): (r: Option<seq<Entry>>)
    ensures r.Some? ==> |r.value| == |files| && forall i :: 0 <= i < |files| ==> Split(files[i]) == Some(r.value[i])
    ensures r.None? ==> exists i :: 0 <= i < |files| && Split(files[i]).None?
  {
    hide Split;
    if files == [] then Some([])
    else
      var n := |files| - 1;
      match Collect(files[..n])
      case None => NoFileLost(files, n); None
      case Some(es) =>
        match Split(files[n])
        case None => None
        case Some(e) => OneMoreFile(files, es, e); Some(es + [e])
  }

  function NameOf(e: Entry): Name {
    FullName(Rec(e.ext, e.path, e.base, 0, 0, 0))
  }

  lemma {:induction false} RelParts(rel: Name)
    ensures LastOf(rel, SLASH) < 0 ==> LeafOf(rel) == rel
    ensures LastOf(rel, SLASH) >= 0 ==> rel == DirOf(rel) + [SLASH] + LeafOf(rel)
  {
    hide LastOf;
  }

  lemma {:induction false} LeafParts(f: File)
    requires Split(f).Some?
    ensures LeafOf(f.rel) == Split(f).value.base + [DOT] + Split(f).value.ext
  {
    hide LastOf, LeafOf, DirOf;
  }

  /** Joining the three levels gives the path back, unless its directory is one whose name means the root. */
  lemma {:induction false} JoinUndoesSplit(f: File)
    requires Split(f).Some?
    ensures NameOf(Split(f).value) == f.rel <==>
            (LastOf(f.rel, SLASH) < 0 || (DirOf(f.rel) != [] && DirOf(f.rel) != [SPACE]))
  {
    hide LastOf, FullName, NameOf, LeafOf;
    LeafParts(f);
    RelParts(f.rel);
    FullNameIs(Split(f).value, LeafOf(f.rel));
  }

  lemma {:induction false} FullNameIs(e: Entry, leaf: Name)
    requires leaf == e.base + [DOT] + e.ext
    ensures NameOf(e) == if e.path == [] || e.path == [SPACE] then leaf else e.path + [SLASH] + leaf
  {
    assert e.path + [SLASH] + e.base + [DOT] + e.ext == e.path + [SLASH] + (e.base + [DOT] + e.ext);
  }

  // ---- Sorting names ----

  predicate Leq(a: Name, b: Name) {
    Sorting.Lexicographic(a, b, (x: byte, y: byte) => x < y)
  }

  /** sorted(s) */
  function Sort(s: seq<Name>): (r: seq<Name>)
    ensures multiset(r) == multiset(s)
  {
    Sorting.Sort(s, Leq)
  }

  lemma {:induction false} SortSorts(s: seq<Name>)
    ensures Sorting.Sorted(Sort(s), Leq)
  {
    forall a, b ensures Leq(a, b) || Leq(b, a) {
      Sorting.LexicographicTotal(a, b, (x: byte, y: byte) => x < y);
    }
    Sorting.SortSorts(s, Leq);
  }

  // ---- Archive and metadata ----

  function Archive(es: seq<Entry>): seq<byte> {
    if es == [] then [] else Archive(es[..|es| - 1]) + es[|es| - 1].data
  }

  datatype Meta = Meta(crc: nat, offset: nat, length: nat)

  type Crc = seq<byte> -> nat

  function MetaFor(es: seq<Entry>, i: nat, crc: Crc): Meta
    requires i < |es|
  {
    Meta(crc(es[i].data) % 0x1_0000_0000, |Archive(es[..i])|, |es[i].data|)
  }

  /** The metadata by key: a later entry under the same key replaces an earlier one's. */
  function Metas(es: seq<Entry>, crc: Crc): map<EntryKey, Meta> {
    if es == [] then map[]
    else Metas(es[..|es| - 1], crc)[KeyOf(es[|es| - 1]) := MetaFor(es, |es| - 1, crc)]
  }

  predicate DistinctEntries(es: seq<Entry>) {
    forall i, j :: 0 <= i < j < |es| ==> KeyOf(es[i]) != KeyOf(es[j])
  }

  lemma {:induction false} MetasAt(es: seq<Entry>, crc: Crc, i: nat)
    requires DistinctEntries(es) && i < |es|
    ensures KeyOf(es[i]) in Metas(es, crc) && Metas(es, crc)[KeyOf(es[i])] == MetaFor(es, i, crc)
  {
    var n := |es| - 1;
    if i < n {
      MetasAt(es[..n], crc, i);
      assert es[..n][..i] == es[..i];
    }
  }

  // ---- Grouping ----

  function AddNew(s: seq<Name>, n: Name): seq<Name> {
    if n in s then s else s + [n]
  }

  /** The keys of the outer dictionary, in the order they are first met. */
  function ExtsOf(es: seq<Entry>): (r: seq<Name>)
    ensures Sorting.NoDup(r) && forall x :: x in r <==> exists i :: 0 <= i < |es| && es[i].ext == x
  {
    if es == [] then [] else
    assert forall i :: 0 <= i < |es| - 1 ==> es[..|es| - 1][i] == es[i];
    AddNew(ExtsOf(es[..|es| - 1]), es[|es| - 1].ext)
  }

  function PathsOf(es: seq<Entry>, ext: Name): (r: seq<Name>)
    ensures Sorting.NoDup(r) && forall x :: x in r <==> exists i :: 0 <= i < |es| && es[i].ext == ext && es[i].path == x
  {
    if es == [] then [] else
    assert forall i :: 0 <= i < |es| - 1 ==> es[..|es| - 1][i] == es[i];
    var r := PathsOf(es[..|es| - 1], ext);
    if es[|es| - 1].ext == ext then AddNew(r, es[|es| - 1].path) else r
  }

  function BasesOf(es: seq<Entry>, ext: Name, path: Name): seq<Name> {
    if es == [] then []
    else
      var r, e := BasesOf(es[..|es| - 1], ext, path), es[|es| - 1];
      if e.ext == ext && e.path == path then r + [e.base] else r
  }

  function MetaOf(m: map<EntryKey, Meta>, k: EntryKey): Rec {
    var v := if k in m then m[k] else Meta(0, 0, 0);
    Rec(k.ext, k.path, k.base, v.crc, v.offset, v.length)
  }

  function RecsFor(bases: seq<Name>, ext: Name, path: Name, m: map<EntryKey, Meta>): (r: seq<Rec>)
    ensures |r| == |bases|
    ensures forall i :: 0 <= i < |bases| ==> r[i] == MetaOf(m, EntryKey(ext, path, bases[i]))
  {
    seq(|bases|, i requires 0 <= i < |bases| => MetaOf(m, EntryKey(ext, path, bases[i])))
  }

  function PathGroups(es: seq<Entry>, ext: Name, paths: seq<Name>, m: map<EntryKey, Meta>): (r: seq<PathGroup>)
    ensures |r| == |paths|
    ensures forall i :: 0 <= i < |paths| ==>
              r[i] == PathGroup(paths[i], RecsFor(Sort(BasesOf(es, ext, paths[i])), ext, paths[i], m))
  {
    seq(|paths|, i requires 0 <= i < |paths| =>
      PathGroup(paths[i], RecsFor(Sort(BasesOf(es, ext, paths[i])), ext, paths[i], m)))
  }

  function ExtGroups(es: seq<Entry>, exts: seq<Name>, m: map<EntryKey, Meta>): (r: seq<ExtGroup>)
    ensures |r| == |exts|
    ensures forall i :: 0 <= i < |exts| ==>
              r[i] == ExtGroup(exts[i], PathGroups(es, exts[i], Sort(PathsOf(es, exts[i])), m))
  {
    seq(|exts|, i requires 0 <= i < |exts| => ExtGroup(exts[i], PathGroups(es, exts[i], Sort(PathsOf(es, exts[i])), m)))
  }

  /** The whole directory: names in sorted order at each level. */
  function Groups(es: seq<Entry>, crc: Crc): seq<ExtGroup> {
    ExtGroups(es, Sort(ExtsOf(es)), Metas(es, crc))
  }

  // ---- Nothing is lost in the grouping ----

  function CountKey(recs: seq<Rec>, k: EntryKey): nat {
    if recs == [] then 0 else (if KeyOfRec(recs[0]) == k then 1 else 0) + CountKey(recs[1..], k)
  }

  function CountEntries(es: seq<Entry>, k: EntryKey): nat {
    if es == [] then 0 else CountEntries(es[..|es| - 1], k) + (if KeyOf(es[|es| - 1]) == k then 1 else 0)
  }

  lemma {:induction false} CountConcat(a: seq<Rec>, b: seq<Rec>, k: EntryKey)
    ensures CountKey(a + b, k) == CountKey(a, k) + CountKey(b, k)
  {
    if a == [] {
      assert a + b == b;
    } else {
      assert (a + b)[1..] == a[1..] + b;
      CountConcat(a[1..], b, k);
    }
  }

  lemma {:induction false} CountBases(es: seq<Entry>, k: EntryKey)
    ensures multiset(BasesOf(es, k.ext, k.path))[k.base] == CountEntries(es, k)
  {
    if es != [] {
      CountBases(es[..|es| - 1], k);
    }
  }

  lemma {:induction false} CountRecs(bases: seq<Name>, ext: Name, path: Name, m: map<EntryKey, Meta>, k: EntryKey)
    ensures CountKey(RecsFor(bases, ext, path, m), k) ==
            if k.ext == ext && k.path == path then multiset(bases)[k.base] else 0
    decreases |bases|
  {
    if bases != [] {
      CountRecs(bases[1..], ext, path, m, k);
      assert RecsFor(bases, ext, path, m)[1..] == RecsFor(bases[1..], ext, path, m);
      assert bases == [bases[0]] + bases[1..];
      assert multiset(bases) == multiset{bases[0]} + multiset(bases[1..]);
    }
  }

  lemma {:induction false} TailNoDup(s: seq<Name>, x: Name)
    requires s != [] && Sorting.NoDup(s)
    ensures Sorting.NoDup(s[1..]) && s[0] !in s[1..]
    ensures x in s <==> x == s[0] || x in s[1..]
  {
    assert s == [s[0]] + s[1..];
    assert forall i :: 0 <= i < |s| - 1 ==> s[1..][i] == s[i + 1];
  }

  lemma {:induction false} CountGroup(es: seq<Entry>, ext: Name, path: Name, m: map<EntryKey, Meta>, k: EntryKey)
    ensures CountKey(RecsFor(Sort(BasesOf(es, ext, path)), ext, path, m), k) ==
            if k.ext == ext && k.path == path then CountEntries(es, k) else 0
  {
    hide Sort, RecsFor, BasesOf, CountEntries, CountKey;
    CountRecs(Sort(BasesOf(es, ext, path)), ext, path, m, k);
    CountBases(es, k);
  }

  lemma {:induction false} CountPaths(es: seq<Entry>, ext: Name, paths: seq<Name>, m: map<EntryKey, Meta>, k: EntryKey)
    requires Sorting.NoDup(paths)
    ensures CountKey(FlatPaths(PathGroups(es, ext, paths, m)), k) ==
            if k.ext == ext && k.path in paths then CountEntries(es, k) else 0
    decreases |paths|
  {
    hide Sort, RecsFor, BasesOf, CountEntries, Sorting.NoDup;
    if paths != [] {
      var ps := PathGroups(es, ext, paths, m);
      assert ps[1..] == PathGroups(es, ext, paths[1..], m);
      TailNoDup(paths, k.path);
      CountPaths(es, ext, paths[1..], m, k);
      CountConcat(ps[0].recs, FlatPaths(ps[1..]), k);
      CountGroup(es, ext, paths[0], m, k);
    }
  }

  lemma {:induction false} CountNone(es: seq<Entry>, k: EntryKey)
    requires forall i :: 0 <= i < |es| ==> KeyOf(es[i]) != k
    ensures CountEntries(es, k) == 0
  {
    if es != [] {
      CountNone(es[..|es| - 1], k);
    }
  }

  lemma {:induction false} SortNoDup(s: seq<Name>)
    requires Sorting.NoDup(s)
    ensures Sorting.NoDup(Sort(s)) && forall x :: x in Sort(s) <==> x in s
  {
    hide Sort;
    NoDupCounts(s);
    var r := Sort(s);
    forall x ensures x in r <==> x in s {
      assert x in multiset(r) <==> x in multiset(s);
    }
    forall i, j | 0 <= i < j < |r| ensures r[i] != r[j] {
      if r[i] == r[j] {
        TwiceCounts(r, i, j);
      }
    }
  }

  lemma {:induction false} NoDupCounts(s: seq<Name>)
    requires Sorting.NoDup(s)
    ensures forall x :: multiset(s)[x] <= 1
  {
    if s != [] {
      var n := |s| - 1;
      NoDupCounts(s[..n]);
      assert s == s[..n] + [s[n]];
      assert s[n] !in multiset(s[..n]);
    }
  }

  lemma {:induction false} TwiceCounts(s: seq<Name>, i: nat, j: nat)
    requires i < j < |s| && s[i] == s[j]
    ensures multiset(s)[s[i]] >= 2
  {
    assert s == s[..i] + [s[i]] + s[i + 1..j] + [s[j]] + s[j + 1..];
    var x := s[i];
    assert multiset(s) == multiset(s[..i]) + multiset{x} + multiset(s[i + 1..j]) + multiset{x} + multiset(s[j + 1..]);
  }

  lemma {:induction false} CountExts(es: seq<Entry>, exts: seq<Name>, m: map<EntryKey, Meta>, k: EntryKey)
    requires Sorting.NoDup(exts)
    ensures CountKey(FlatExts(ExtGroups(es, exts, m)), k) == if k.ext in exts then CountEntries(es, k) else 0
    decreases |exts|
  {
    hide Sort, PathsOf, FlatPaths, PathGroups, CountEntries, Sorting.NoDup;
    if exts != [] {
      var gs, paths := ExtGroups(es, exts, m), PathsOf(es, exts[0]);
      assert gs[1..] == ExtGroups(es, exts[1..], m);
      TailNoDup(exts, k.ext);
      CountExts(es, exts[1..], m, k);
      CountConcat(FlatPaths(gs[0].paths), FlatExts(gs[1..]), k);
      SortNoDup(paths);
      CountPaths(es, exts[0], Sort(paths), m, k);
      if k.ext == exts[0] {
        NotListed(es, k);
      }
    }
  }

  lemma {:induction false} NotListed(es: seq<Entry>, k: EntryKey)
    ensures k.path !in PathsOf(es, k.ext) ==> CountEntries(es, k) == 0
  {
    if k.path !in PathsOf(es, k.ext) {
      CountNone(es, k);
    }
  }

  /** Grouped or not, every key occurs as often as it was collected. */
  lemma {:induction false} GroupsCount(es: seq<Entry>, crc: Crc, k: EntryKey)
    ensures CountKey(FlatExts(Groups(es, crc)), k) == CountEntries(es, k)
  {
    hide Sort, ExtsOf;
    SortNoDup(ExtsOf(es));
    CountExts(es, Sort(ExtsOf(es)), Metas(es, crc), k);
    if k.ext !in ExtsOf(es) {
      CountNone(es, k);
    }
  }
}
