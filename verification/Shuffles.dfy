/** How little base order does: a merge at the top of a file beside the same merge in engine order. */
module Shuffles {
  import opened KeyValues
  import opened Rearrange
  import opened MergeLaws
  import opened BaseOrder
  import opened Lookups

  // ---- The children of one name ----

  /** The children of this name, in their order. */
  function Those(ks: seq<KV>, key: string): (r: seq<KV>)
    ensures r == [] <==> !Has(ks, key)
    ensures r != [] ==> r[0] == ks[First(ks, key)]
  {
    if ks == [] then []
    else
      PickPrefix(ks, key);
      Those(ks[..|ks| - 1], key) + if Key(ks[|ks| - 1]) == key then [ks[|ks| - 1]] else []
  }

  lemma {:induction false} ThoseSnoc(front: seq<KV>, x: KV, key: string)
    ensures Those(front + [x], key) == if Key(x) == key then Those(front, key) + [x] else Those(front, key)
  {
    assert (front + [x])[..|front|] == front;
  }

  lemma {:induction false} ThoseUpdate(ks: seq<KV>, i: nat, x: KV, key: string)
    requires i < |ks| && Key(x) == Key(ks[i]) && First(ks, Key(x)) == i
    ensures Those(ks[i := x], key) == if key == Key(x) then Those(ks, key)[0 := x] else Those(ks, key)
    decreases |ks|
  {
    hide LowerName, Those, First;
    var n := |ks| - 1;
    ThoseSnoc(ks[..n], ks[n], key);
    assert ks == ks[..n] + [ks[n]];
    FirstPrefix(ks, n, Key(x));
    if i < n {
      ThoseUpdate(ks[..n], i, x, key);
      assert ks[i := x] == ks[..n][i := x] + [ks[n]];
      ThoseSnoc(ks[..n][i := x], ks[n], key);
    } else {
      assert ks[i := x] == ks[..n] + [x];
      ThoseSnoc(ks[..n], x, key);
    }
  }

  /** One more child of a name, merged into the first of them or put behind none. */
  function Joined(mine: seq<KV>, b: KV, e: nat): seq<KV> {
    if mine == [] then [b] else mine[0 := Merge(mine[0], b, e + 1)]
  }

  lemma {:induction false} ThosePut(ts: seq<KV>, b: KV, e: nat, key: string)
    ensures Those(Put(ts, b, e), key) == if key == Key(b) then Joined(Those(ts, key), b, e) else Those(ts, key)
  {
    hide LowerName, First, Those;
    var i := First(ts, Key(b));
    if i < |ts| {
      ThoseUpdate(ts, i, Merge(ts[i], b, e + 1), key);
    } else {
      ThoseSnoc(ts, b, key);
    }
  }

  lemma {:induction false} ThoseConcat(a: seq<KV>, b: seq<KV>, key: string)
    ensures Those(a + b, key) == Those(a, key) + Those(b, key)
    decreases |b|
  {
    hide LowerName, First, Those;
    if b == [] {
      assert a + b == a;
      NoneThere(key);
    } else {
      var n := |b| - 1;
      ThoseConcat(a, b[..n], key);
      assert a + b == (a + b[..n]) + [b[n]] && b == b[..n] + [b[n]];
      ThoseSnoc(a + b[..n], b[n], key);
      ThoseSnoc(b[..n], b[n], key);
    }
  }

  /** Each name's children depend on that name's children only. */
  function AllJoined(mine: seq<KV>, theirs: seq<KV>, e: nat): seq<KV> {
    if theirs == [] then mine else Joined(AllJoined(mine, theirs[..|theirs| - 1], e), theirs[|theirs| - 1], e)
  }

  lemma {:induction false} ThoseMerged(ts: seq<KV>, bs: seq<KV>, e: nat, key: string)
    ensures Those(MergeAll(ts, bs, e), key) == AllJoined(Those(ts, key), Those(bs, key), e)
    decreases |bs|
  {
    hide LowerName, First, Merge, Joined, Those, Put;
    if bs == [] {
      NoneJoined(Those(ts, key), e);
      NoneThere(key);
    } else {
      var n := |bs| - 1;
      ThoseMerged(ts, bs[..n], e, key);
      ThosePut(MergeAll(ts, bs[..n], e), bs[n], e, key);
      assert bs == bs[..n] + [bs[n]];
      ThoseSnoc(bs[..n], bs[n], key);
      JoinedSnoc(Those(ts, key), Those(bs[..n], key), bs[n], e);
    }
  }

  lemma {:induction false} NoneThere(key: string)
    ensures Those([], key) == []
  {
  }

  lemma {:induction false} NoneJoined(mine: seq<KV>, e: nat)
    ensures AllJoined(mine, [], e) == mine
  {
  }

  lemma {:induction false} JoinedSnoc(mine: seq<KV>, theirs: seq<KV>, b: KV, e: nat)
    ensures AllJoined(mine, theirs + [b], e) == Joined(AllJoined(mine, theirs, e), b, e)
  {
    assert (theirs + [b])[..|theirs|] == theirs;
  }

  // ---- Base order moves no two children of one name past each other ----

  /** These positions are where names are first found. */
  predicate AtFirsts(ks: seq<KV>, hs: seq<nat>) {
    forall k :: 0 <= k < |hs| ==> hs[k] < |ks| && First(ks, Key(ks[hs[k]])) == hs[k]
  }

  lemma {:induction false} AtFirst(ks: seq<KV>, hs: seq<nat>, n: nat)
    requires AtFirsts(ks, hs) && n < |ks|
    ensures n in hs ==> First(ks, Key(ks[n])) == n
  {
    hide First, LowerName;
  }

  lemma {:induction false} OthersStep(ks: seq<KV>, hs: seq<nat>, n: nat)
    requires n <= |ks|
    ensures Others(ks, hs, n) ==
            if n == 0 then []
            else if n - 1 in hs then Others(ks, hs, n - 1)
            else Others(ks, hs, n - 1) + [ks[n - 1]]
  {
  }

  lemma {:induction false} ThoseOthers(ks: seq<KV>, hs: seq<nat>, n: nat, key: string)
    requires n <= |ks| && AtFirsts(ks, hs)
    ensures Those(Others(ks, hs, n), key) ==
            if First(ks, key) < n && First(ks, key) in hs then Those(ks[..n], key)[1..] else Those(ks[..n], key)
    decreases n
  {
    hide LowerName, Those, First, AtFirsts, Others;
    OthersStep(ks, hs, n);
    if n == 0 {
      NoneThere(key);
    } else {
      var x, f := ks[n - 1], First(ks, key);
      ThoseOthers(ks, hs, n - 1, key);
      assert ks[..n] == ks[..n - 1] + [x];
      FirstPrefix(ks, n - 1, key);
      ThoseSnoc(ks[..n - 1], x, key);
      AtFirst(ks, hs, n - 1);
      if n - 1 !in hs {
        ThoseSnoc(Others(ks, hs, n - 1), x, key);
        TailSnoc(Those(ks[..n - 1], key), x);
      }
    }
  }

  lemma {:induction false} TailSnoc(a: seq<KV>, x: KV)
    ensures a != [] ==> (a + [x])[1..] == a[1..] + [x]
  {
  }

  lemma {:induction false} ThoseAt(ks: seq<KV>, hs: seq<nat>, key: string)
    requires AtFirsts(ks, hs) && forall j, k :: 0 <= j < k < |hs| ==> hs[j] != hs[k]
    ensures forall k :: 0 <= k < |hs| ==> hs[k] < |ks|
    ensures Those(At(ks, hs), key) == if Has(ks, key) && First(ks, key) in hs then [ks[First(ks, key)]] else []
    decreases |hs|
  {
    hide LowerName, Those, First;
    if hs == [] {
      NoneThere(key);
    } else {
      var n := |hs| - 1;
      ThoseAt(ks, hs[..n], key);
      assert At(ks, hs) == At(ks, hs[..n]) + [ks[hs[n]]];
      ThoseSnoc(At(ks, hs[..n]), ks[hs[n]], key);
      assert hs == hs[..n] + [hs[n]];
    }
  }

  /** Rearranging moves no two children of one name past each other. */
  lemma {:induction false} ThoseArranged(ts: seq<KV>, bs: seq<KV>, e: nat, key: string)
    ensures Those(Arranged(ts, bs, e), key) == Those(MergeAll(ts, bs, e), key)
  {
    hide LowerName, Those, First, MergeAll, Hits, FirstKeys;
    var m, hs, fk := MergeAll(ts, bs, e), Hits(ts, bs, e), FirstKeys(bs);
    HitsAreFirsts(ts, bs, e);
    FirstKeysDistinct(bs);
    ThoseAt(m, hs, key);
    ThoseOthers(m, hs, |m|, key);
    ThoseConcat(At(m, hs), Others(m, hs, |m|), key);
    assert m[..|m|] == m;
  }

  lemma {:induction false} ThoseCount(ks: seq<KV>, x: KV)
    ensures multiset(ks)[x] == multiset(Those(ks, Key(x)))[x]
  {
    hide LowerName, First;
    if ks != [] {
      assert ks == ks[..|ks| - 1] + [ks[|ks| - 1]];
      ThoseCount(ks[..|ks| - 1], x);
    }
  }

  // ---- Two depths ----

  lemma {:induction false} ChildrenOf(t: KV, b: KV, depth: nat)
    requires t.Block? && b.Block?
    ensures var (ts, bs) := (t.children, b.children);
            Merge(t, b, depth) ==
            Block(t.name, if BaseOrdered(t, depth) then Arranged(ts, bs, depth) else MergeAll(ts, bs, depth))
  {
  }

  lemma {:induction false} DeepSame(t: KV, b: KV, d: nat, f: nat)
    requires d >= 2 && f >= 2
    ensures Merge(t, b, d) == Merge(t, b, f)
    decreases b, 0
  {
    if t.Block? && b.Block? {
      DeepLists(t.children, b.children, d, f);
    }
  }

  lemma {:induction false} DeepLists(ts: seq<KV>, bs: seq<KV>, e: nat, f: nat)
    requires e >= 1 && f >= 1
    ensures MergeAll(ts, bs, e) == MergeAll(ts, bs, f)
    decreases bs, 0
  {
    hide First, LowerName, Merge;
    if bs != [] {
      var n := |bs| - 1;
      DeepLists(ts, bs[..n], e, f);
      var m := MergeAll(ts, bs[..n], e);
      if Has(m, Key(bs[n])) {
        DeepSame(m[First(m, Key(bs[n]))], bs[n], e + 1, f + 1);
      }
    }
  }

  lemma {:induction false} DeepJoined(mine: seq<KV>, theirs: seq<KV>, e: nat, f: nat)
    requires e >= 1 && f >= 1
    ensures AllJoined(mine, theirs, e) == AllJoined(mine, theirs, f)
    decreases |theirs|
  {
    hide Merge;
    if theirs != [] {
      var n := |theirs| - 1;
      DeepJoined(mine, theirs[..n], e, f);
      var m := AllJoined(mine, theirs[..n], e);
      if m != [] {
        DeepSame(m[0], theirs[n], e + 1, f + 1);
      }
    }
  }

  // ---- Sections ----

  /** Two sections of one name whose children are the same ones, those of each name in the same order. */
  ghost predicate Shuffled(a: KV, b: KV) {
    a == b ||
    (a.Block? && b.Block? && a.name == b.name && forall key :: Those(a.children, key) == Those(b.children, key))
  }

  lemma {:induction false} ThoseOfMerge(x: KV, y: KV, d: nat, key: string)
    requires x.Block? && y.Block?
    ensures Those(Merge(x, y, d).children, key) == AllJoined(Those(x.children, key), Those(y.children, key), d)
  {
    hide Those, MergeAll, Arranged, AllJoined, Merge;
    ChildrenOf(x, y, d);
    ThoseArranged(x.children, y.children, d, key);
    ThoseMerged(x.children, y.children, d, key);
  }

  lemma {:induction false} ShuffledMerge(x: KV, x': KV, y: KV, y': KV, d: nat, f: nat)
    requires d >= 1 && f >= 1 && Shuffled(x, x') && Shuffled(y, y')
    ensures Shuffled(Merge(x, y, d), Merge(x', y', f))
  {
    hide Those, Merge, AllJoined;
    if x.Leaf? || y.Leaf? {
      LeafAddsNothing(x, y, d);
      LeafAddsNothing(x', y', f);
    } else {
      forall key ensures Those(Merge(x, y, d).children, key) == Those(Merge(x', y', f).children, key) {
        ThoseOfMerge(x, y, d, key);
        ThoseOfMerge(x', y', f, key);
        DeepJoined(Those(x.children, key), Those(y.children, key), d, f);
      }
    }
  }

  // ---- Files ----

  /** The same section, unless it is kept in base order: then the same up to a shuffle. */
  ghost predicate SameSection(a: KV, b: KV) {
    Key(a) == Key(b) && if Key(a) == WEAPON_UPGRADES then Shuffled(a, b) else a == b
  }

  ghost predicate SameSections(ms: seq<KV>, ns: seq<KV>) {
    |ms| == |ns| && forall i :: 0 <= i < |ms| ==> SameSection(ms[i], ns[i])
  }

  /** The same tree, but for the order in which the sections kept in base order hold their children. */
  ghost predicate SameFile(a: KV, b: KV) {
    a == b || (a.Block? && b.Block? && a.name == b.name && SameSections(a.children, b.children))
  }

  lemma {:induction false} SectionMerge(x: KV, x': KV, b: KV, b': KV, f: nat)
    requires f >= 2 && SameSection(x, x') && SameSection(b, b') && Key(x) == Key(b)
    ensures SameSection(Merge(x, b, 1), Merge(x', b', f))
  {
    hide LowerName, Shuffled, MergeAll, Arranged;
    assert Key(Merge(x, b, 1)) == Key(x) && Key(Merge(x', b', f)) == Key(x');
    if Key(x) == WEAPON_UPGRADES {
      ShuffledMerge(x, x', b, b', 1, f);
    } else if x.Block? && b.Block? {
      DeepLists(x.children, b.children, 1, f);
    }
  }

  lemma {:induction false} SameFirst(ms: seq<KV>, ns: seq<KV>, key: string)
    requires SameSections(ms, ns)
    ensures First(ms, key) == First(ns, key)
  {
    hide LowerName, Shuffled;
    var i := First(ms, key);
    assert i < |ms| ==> SameSection(ms[i], ns[i]);
    forall j | 0 <= j < i ensures Key(ns[j]) != key {
      assert SameSection(ms[j], ns[j]);
    }
    FirstUnique(ns, key, i);
  }

  lemma {:induction false} SectionsPut(ms: seq<KV>, ns: seq<KV>, b: KV, b': KV, f: nat)
    requires f >= 1 && SameSections(ms, ns) && SameSection(b, b')
    ensures SameSections(Put(ms, b, 0), Put(ns, b', f))
  {
    hide First, Merge, LowerName;
    SameFirst(ms, ns, Key(b));
    var i := First(ms, Key(b));
    if i < |ms| {
      SectionMerge(ms[i], ns[i], b, b', f + 1);
    }
  }

  lemma {:induction false} SectionsMerge(ms: seq<KV>, ns: seq<KV>, bs: seq<KV>, bs': seq<KV>, f: nat)
    requires f >= 1 && SameSections(ms, ns) && SameSections(bs, bs')
    ensures SameSections(MergeAll(ms, bs, 0), MergeAll(ns, bs', f))
    decreases |bs|
  {
    hide SameSection, Put;
    if bs != [] {
      var n := |bs| - 1;
      SectionsMerge(ms, ns, bs[..n], bs'[..n], f);
      SectionsPut(MergeAll(ms, bs[..n], 0), MergeAll(ns, bs'[..n], f), bs[n], bs'[n], f);
    }
  }

  lemma {:induction false} SectionItself(a: KV)
    ensures SameSection(a, a)
  {
  }

  lemma {:induction false} SectionsOf(a: KV, b: KV)
    requires SameFile(a, b) && a.Block?
    ensures b.Block? && a.name == b.name && SameSections(a.children, b.children)
  {
    hide SameSection;
    forall i | 0 <= i < |a.children| ensures SameSection(a.children[i], a.children[i]) {
      SectionItself(a.children[i]);
    }
  }

  // ---- Any depth ----

  /** As alike as two results of the same merge are at this depth and further down: as files, as sections, or equal. */
  ghost predicate Beside(a: KV, b: KV, depth: nat) {
    if depth == 0 then SameFile(a, b) else if depth == 1 then Shuffled(a, b) else a == b
  }

  /** Merging at any depth is merging in engine order, up to the order in which the sections kept in base order
      hold their children. */
  lemma {:induction false} BesideMerge(t: KV, t': KV, b: KV, b': KV, depth: nat)
    requires Beside(t, t', depth) && Beside(b, b', depth)
    ensures Beside(Merge(t, b, depth), Merge(t', b', 2), depth)
  {
    hide Merge, SameSections, MergeAll, Arranged, Shuffled;
    if depth >= 2 {
      DeepSame(t, b, depth, 2);
    } else if depth == 1 {
      ShuffledMerge(t, t', b, b', 1, 2);
    } else if t.Leaf? || b.Leaf? {
      LeafAddsNothing(t, b, 0);
      LeafAddsNothing(t', b', 2);
    } else {
      SectionsOf(t, t');
      SectionsOf(b, b');
      ChildrenOf(t, b, 0);
      ChildrenOf(t', b', 2);
      SectionsMerge(t.children, t'.children, b.children, b'.children, 2);
    }
  }

  lemma {:induction false} ShuffledPick(a: KV, b: KV, key: string)
    requires a.Block? && Shuffled(a, b)
    ensures b.Block? && Pick(a.children, key) == Pick(b.children, key)
  {
    hide First;
    assert a != b ==> Those(a.children, key) == Those(b.children, key);
  }

  lemma {:induction false} ShuffledAlike(a: KV, b: KV)
    requires Shuffled(a, b)
    ensures Alike(a, b)
  {
    hide Shuffled, Look, LowerName;
    forall path ensures Look(a, path) == Look(b, path) {
      if a.Block? && a != b {
        ShuffledPick(a, b, "");
        if path == [] {
          HereIsHere(a, b);
        } else {
          ShuffledPick(a, b, LowerName(path[0]));
          LookPick(a, path);
          LookPick(b, path);
        }
      } else {
        LeafShuffled(a, b);
      }
    }
  }

  lemma {:induction false} LeafShuffled(a: KV, b: KV)
    requires Shuffled(a, b) && (a.Leaf? || a == b)
    ensures a == b
  {
  }

  lemma {:induction false} FileAlike(a: KV, b: KV)
    requires SameFile(a, b)
    ensures Alike(a, b)
  {
    hide SameSections, Look, LowerName, First;
    forall path ensures Look(a, path) == Look(b, path) {
      if a.Block? {
        SectionsOf(a, b);
        if path == [] {
          HereIsHere(a, b);
        } else {
          LookPick(a, path);
          LookPick(b, path);
          PickedAlike(a.children, b.children, LowerName(path[0]), path[1..]);
        }
      }
    }
  }

  lemma {:induction false} PickedAlike(ms: seq<KV>, ns: seq<KV>, key: string, rest: seq<string>)
    requires SameSections(ms, ns)
    ensures LookIn(Pick(ms, key), rest) == LookIn(Pick(ns, key), rest)
  {
    hide Shuffled, Look, LowerName, First;
    SameFirst(ms, ns, key);
    if Has(ms, key) {
      var i := First(ms, key);
      assert SameSection(ms[i], ns[i]);
      if ms[i] != ns[i] {
        ShuffledAlike(ms[i], ns[i]);
      }
    }
  }

  /** No lookup tells at which depth a merge was made. */
  lemma {:induction false} BesideAlike(a: KV, b: KV, depth: nat)
    requires Beside(a, b, depth)
    ensures Alike(a, b)
  {
    hide Look, Shuffled, SameFile;
    if depth == 0 {
      FileAlike(a, b);
    } else if depth == 1 {
      ShuffledAlike(a, b);
    }
  }

  lemma {:induction false} BesideItself(a: KV, depth: nat)
    ensures Beside(a, a, depth)
  {
  }

  lemma {:induction false} BesideTwo(a: KV, b: KV, x: KV, depth: nat)
    requires Beside(a, x, depth) && Beside(b, x, depth)
    ensures Beside(a, b, depth)
  {
    hide Those;
    if depth == 0 && a != x && b != x {
      forall i | 0 <= i < |a.children| ensures SameSection(a.children[i], b.children[i]) {
        assert SameSection(a.children[i], x.children[i]) && SameSection(b.children[i], x.children[i]);
      }
    } else if depth == 0 && b != x {
      forall i | 0 <= i < |b.children| ensures SameSection(x.children[i], b.children[i]) {
        assert SameSection(b.children[i], x.children[i]);
      }
    }
  }

  // ---- A shuffle loses nothing ----

  lemma {:induction false} ShuffledPermutes(a: KV, b: KV)
    requires Shuffled(a, b) && a.Block?
    ensures b.Block? && multiset(a.children) == multiset(b.children)
  {
    hide Those;
    if a != b {
      forall x ensures multiset(a.children)[x] == multiset(b.children)[x] {
        ThoseCount(a.children, x);
        ThoseCount(b.children, x);
      }
    }
  }
}
