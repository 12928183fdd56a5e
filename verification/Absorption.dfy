/** A base merged in twice is a base merged in once - exactly when. */
module Absorption {
  import opened Options
  import opened KeyValues
  import opened Rearrange
  import opened MergeLaws
  import opened BaseOrder
  import opened Lookups
  import opened Overlay
  import opened Shuffles
  import opened Diamonds

  // ---- The condition ----

  function Size(bs: seq<KV>): nat {
    if bs == [] then 0 else Size(bs[..|bs| - 1]) + SizeOne(bs[|bs| - 1])
  }

  function SizeOne(b: KV): nat {
    1 + if b.Block? then Size(b.children) else 0
  }

  /** The children of every block of this name, one block's after the other's. */
  function Gathered(bs: seq<KV>, key: string): (r: seq<KV>)
    ensures Size(r) <= Size(bs) && (Has(bs, key) ==> Size(r) < Size(bs))
  {
    if bs == [] then []
    else
      var last := bs[|bs| - 1];
      var here := if last.Block? && Key(last) == key then last.children else [];
      SizeConcat(Gathered(bs[..|bs| - 1], key), here);
      PickPrefix(bs, key);
      Gathered(bs[..|bs| - 1], key) + here
  }

  lemma {:induction false} SizeConcat(a: seq<KV>, b: seq<KV>)
    ensures Size(a + b) == Size(a) + Size(b)
    decreases |b|
  {
    if b == [] {
      assert a + b == a;
    } else {
      assert (a + b)[..|a + b| - 1] == a + b[..|b| - 1];
      SizeConcat(a, b[..|b| - 1]);
    }
  }

  /** For every name: all the children of that name put together absorb each one of them, and the same goes for
      what the blocks of that name hold, put together. */
  predicate Absorbable(bs: seq<KV>, e: nat)
    decreases Size(bs), 1
  {
    forall i :: 0 <= i < |bs| ==> AbsorbableAt(bs, i, e)
  }

  predicate AbsorbableAt(bs: seq<KV>, i: nat, e: nat)
    requires i < |bs|
    decreases Size(bs), 0
  {
    && Absorbs(Folded(None, bs, Key(bs[i]), e).value, bs[i])
    && Absorbable(Gathered(bs, Key(bs[i])), e + 1)
  }

  // ---- One merge ----

  /** What is not absorbed changes something. */
  lemma {:induction false} NotAbsorbedChanges(d: KV, y: KV, depth: nat)
    requires !Absorbs(d, y)
    ensures Merge(d, y, depth) != d
  {
    var path := NotAbsorbed(d, y);
    LeadsArrive(d, y, depth, path);
  }

  /** Merging changes nothing exactly where everything is absorbed. */
  lemma {:induction false} NoOpExactly(d: KV, y: KV, depth: nat)
    requires depth >= 1 && !BaseOrdered(d, depth)
    ensures Merge(d, y, depth) == d <==> Absorbs(d, y)
  {
    hide MergeAll, LowerName, First;
    if !Absorbs(d, y) {
      NotAbsorbedChanges(d, y, depth);
    } else if d.Block? && y.Block? {
      CoveredListIsNoOp(d.children, y.children, depth);
    }
  }

  /** A child that is a block takes in what all the blocks of its name hold. */
  lemma {:induction false} FoldedBlock(u: KV, bs: seq<KV>, key: string, e: nat)
    requires u.Block? && e >= 1
    ensures Folded(Some(u), bs, key, e) == Some(Block(u.name, MergeAll(u.children, Gathered(bs, key), e + 1)))
    decreases |bs|
  {
    hide Key;
    if bs != [] {
      var n := |bs| - 1;
      var last := bs[n];
      FoldedBlock(u, bs[..n], key, e);
      var here := if last.Block? && Key(last) == key then last.children else [];
      AllConcat(u.children, Gathered(bs[..n], key), here, e + 1);
    }
  }

  lemma {:induction false} FoldedLeaf(u: KV, bs: seq<KV>, key: string, e: nat)
    requires u.Leaf?
    ensures Folded(Some(u), bs, key, e) == Some(u)
    decreases |bs|
  {
    hide Key;
    if bs != [] {
      FoldedLeaf(u, bs[..|bs| - 1], key, e);
    }
  }

  lemma {:induction false} GatheredHas(bs: seq<KV>, i: nat, y: KV)
    requires i < |bs| && bs[i].Block? && y in bs[i].children
    ensures y in Gathered(bs, Key(bs[i]))
    decreases |bs|
  {
    if i < |bs| - 1 {
      GatheredHas(bs[..|bs| - 1], i, y);
    }
  }

  lemma {:induction false} GatheredFrom(bs: seq<KV>, key: string, y: KV) returns (i: nat)
    requires y in Gathered(bs, key)
    ensures i < |bs| && bs[i].Block? && Key(bs[i]) == key && y in bs[i].children
    decreases |bs|
  {
    var n := |bs| - 1;
    if bs[n].Block? && Key(bs[n]) == key && y in bs[n].children {
      i := n;
    } else {
      i := GatheredFrom(bs[..n], key, y);
    }
  }

  // ---- Absorbable bases are absorbed ----

  lemma {:induction false} CoveredAfter(ts: seq<KV>, bs: seq<KV>, i: nat, e: nat)
    requires e >= 1 && i < |bs| && Absorbable(bs, e)
    ensures Covers(MergeAll(ts, bs, e), bs[i])
    decreases Size(bs)
  {
    hide MergeAll, First, LowerName, Folded, Gathered, Size;
    var key := Key(bs[i]);
    var c := Pick(ts, key);
    PickFold(ts, bs, e, key);
    assert AbsorbableAt(bs, i, e);
    if c.Some? && c.value.Leaf? {
      FoldedLeaf(c.value, bs, key, e);
    } else if c.Some? {
      var g := Gathered(bs, key);
      FoldedBlock(c.value, bs, key, e);
      if bs[i].Block? {
        forall j | 0 <= j < |bs[i].children| ensures Covers(MergeAll(c.value.children, g, e + 1), bs[i].children[j]) {
          GatheredHas(bs, i, bs[i].children[j]);
          var m :| 0 <= m < |g| && g[m] == bs[i].children[j];
          CoveredAfter(c.value.children, g, m, e + 1);
        }
      }
    }
  }

  /** Merging in again leaves a section in base order as the first time arranged it. */
  lemma {:induction false} ArrangedStays(ms: seq<KV>, bs: seq<KV>, e: nat)
    requires MergeAll(ms, bs, e) == ms && |FirstKeys(bs)| <= |ms|
    requires forall k :: 0 <= k < |FirstKeys(bs)| ==> Key(ms[k]) == FirstKeys(bs)[k]
    ensures Arranged(ms, bs, e) == ms
  {
    hide MergeAll, Hits, FirstKeys, LowerName, First;
    var hs, fk := Hits(ms, bs, e), FirstKeys(bs);
    HitsAreFirsts(ms, bs, e);
    FirstKeysDistinct(bs);
    forall k | 0 <= k < |hs| ensures hs[k] == k {
      FirstUnique(ms, fk[k], k);
    }
    FrontFirst(ms, hs, |ms|);
    assert Arranged(ms, bs, e) == ms[..|hs|] + ms[|hs|..];
  }

  lemma {:induction false} FrontFirst(ks: seq<KV>, hs: seq<nat>, n: nat)
    requires |hs| <= |ks| && n <= |ks| && forall k :: 0 <= k < |hs| ==> hs[k] == k
    ensures At(ks, hs) == ks[..|hs|]
    ensures Others(ks, hs, n) == if n <= |hs| then [] else ks[|hs|..n]
  {
    if n > 0 {
      FrontFirst(ks, hs, n - 1);
      assert n - 1 in hs <==> n <= |hs| by {
        if n <= |hs| { assert hs[n - 1] == n - 1; }
      }
    }
  }

  lemma {:induction false} CoversByPick(ds: seq<KV>, ms: seq<KV>, k: KV)
    requires Covers(ds, k) && Pick(ms, Key(k)) == Pick(ds, Key(k))
    ensures Covers(ms, k)
  {
    hide First, LowerName, Absorbs;
  }

  lemma {:induction false} ArrangedTwice(ts: seq<KV>, bs: seq<KV>, e: nat)
    requires e >= 1 && Absorbable(bs, e)
    ensures Arranged(Arranged(ts, bs, e), bs, e) == Arranged(ts, bs, e)
  {
    hide MergeAll, Absorbable, Arranged, FirstKeys, Covers, Pick;
    var m := Arranged(ts, bs, e);
    forall i | 0 <= i < |bs| ensures Covers(m, bs[i]) {
      CoveredAfter(ts, bs, i, e);
      ArrangedPicks(ts, bs, e, Key(bs[i]));
      CoversByPick(MergeAll(ts, bs, e), m, bs[i]);
    }
    CoveredListIsNoOp(m, bs, e);
    ArrangedShape(ts, bs, e);
    ArrangedStays(m, bs, e);
  }

  lemma {:induction false} AbsorbedTwice(t: KV, b: KV, depth: nat)
    requires depth >= 1 && (b.Leaf? || Absorbable(b.children, depth))
    ensures Merge(Merge(t, b, depth), b, depth) == Merge(t, b, depth)
  {
    hide Merge, MergeAll, Absorbable, Arranged, Covers;
    if t.Block? && b.Block? {
      var ts, bs := t.children, b.children;
      ChildrenOf(t, b, depth);
      ChildrenOf(Merge(t, b, depth), b, depth);
      if BaseOrdered(t, depth) {
        ArrangedTwice(ts, bs, depth);
      } else {
        forall i | 0 <= i < |bs| ensures Covers(MergeAll(ts, bs, depth), bs[i]) {
          CoveredAfter(ts, bs, i, depth);
        }
        CoveredListIsNoOp(MergeAll(ts, bs, depth), bs, depth);
      }
    } else {
      LeafAddsNothing(t, b, depth);
    }
  }

  // ---- Others are not ----

  /** Children that leave some of a base's children with something to add. */
  lemma {:induction false} Uncovered(bs: seq<KV>, e: nat) returns (ts: seq<KV>, i: nat)
    requires e >= 1 && !Absorbable(bs, e)
    ensures i < |bs| && !Covers(MergeAll(ts, bs, e), bs[i])
    decreases Size(bs)
  {
    hide MergeAll, First, LowerName, Folded, Gathered, Size;
    i :| i < |bs| && !AbsorbableAt(bs, i, e);
    var key := Key(bs[i]);
    if !Absorbs(Folded(None, bs, key, e).value, bs[i]) {
      ts := [];
      PickNone(key);
      PickFold(ts, bs, e, key);
    } else {
      var g := Gathered(bs, key);
      var us, m := Uncovered(g, e + 1);
      var u := Block(bs[i].name, us);
      i := GatheredFrom(bs, key, g[m]);
      ts := [u];
      PickOne(u);
      PickFold(ts, bs, e, key);
      FoldedBlock(u, bs, key, e);
      var j :| 0 <= j < |bs[i].children| && bs[i].children[j] == g[m];
    }
  }

  lemma {:induction false} PickNone(key: string)
    ensures Pick([], key) == None
  {
  }

  lemma {:induction false} PickOne(u: KV)
    ensures Pick([u], Key(u)) == Some(u)
  {
  }

  /** A derived tree, of any name, that shows the second merge. */
  lemma {:induction false} SecondTimeShows(b: KV, depth: nat, name: string) returns (t: KV)
    requires depth >= 1 && b.Block? && !Absorbable(b.children, depth)
    ensures t.name == name && t.Block? && Merge(Merge(t, b, depth), b, depth) != Merge(t, b, depth)
  {
    hide MergeAll, Absorbable, Merge, Arranged;
    var ts, i := Uncovered(b.children, depth);
    t := Block(name, ts);
    var m, k := Merge(t, b, depth), b.children[i];
    ChildrenOf(t, b, depth);
    ArrangedPicks(ts, b.children, depth, Key(k));
    if Covers(m.children, k) {
      CoversByPick(m.children, MergeAll(ts, b.children, depth), k);
    }
    NotAbsorbedChanges(m, b, depth);
  }

  /** Absorption, exactly: a base merged in a second time changes nothing, whatever it was merged into, as an
      ordered tree and in base order too, if and only if it is absorbable. */
  lemma {:induction false} AbsorbedExactly(b: KV, depth: nat)
    requires depth >= 1
    ensures (forall t :: Merge(Merge(t, b, depth), b, depth) == Merge(t, b, depth)) <==>
            b.Leaf? || Absorbable(b.children, depth)
  {
    hide Merge, Absorbable;
    if b.Leaf? || Absorbable(b.children, depth) {
      forall t ensures Merge(Merge(t, b, depth), b, depth) == Merge(t, b, depth) {
        AbsorbedTwice(t, b, depth);
      }
    } else {
      var t := SecondTimeShows(b, depth, b.name);
    }
  }

  /** Settled bases are absorbable. */
  lemma {:induction false} SettledIsAbsorbable(b: KV, depth: nat)
    requires depth >= 1 && b.Block? && Settled(b)
    ensures Absorbable(b.children, depth)
  {
    hide Absorbable, Merge, Settled;
    if !Absorbable(b.children, depth) {
      var t := SecondTimeShows(b, depth, "");
      assert Key(t) == "";
      MergedTwiceIsMergedOnce(t, b, depth);
    }
  }

  // ---- The top level ----

  /** Every child that repeats an earlier name stands behind all that do not. */
  predicate RepeatsLast(ks: seq<KV>) {
    forall i, j :: 0 <= i < j < |ks| && First(ks, Key(ks[i])) < i ==> First(ks, Key(ks[j])) < j
  }

  lemma {:induction false} RepeatsLastFront(ks: seq<KV>)
    requires RepeatsLast(ks)
    ensures |FirstKeys(ks)| <= |ks| && forall n :: 0 <= n < |FirstKeys(ks)| ==> Key(ks[n]) == FirstKeys(ks)[n]
  {
    hide LowerName;
    if ks != [] {
      var n := |ks| - 1;
      PrefixRepeatsLast(ks, n);
      FirstPrefix(ks, n, Key(ks[n]));
      if Has(ks[..n], Key(ks[n])) {
        RepeatsLastFront(ks[..n]);
      } else {
        AllFirsts(ks);
        DistinctFirstKeys(ks);
      }
    }
  }

  lemma {:induction false} PrefixRepeatsLast(ks: seq<KV>, n: nat)
    requires RepeatsLast(ks) && n <= |ks|
    ensures RepeatsLast(ks[..n])
  {
    hide LowerName, First;
    forall i, j | 0 <= i < j < n && First(ks[..n], Key(ks[i])) < i ensures First(ks[..n], Key(ks[j])) < j {
      FirstPrefix(ks, n, Key(ks[i]));
      FirstPrefix(ks, n, Key(ks[j]));
    }
  }

  lemma {:induction false} AllFirsts(ks: seq<KV>)
    requires RepeatsLast(ks) && ks != [] && First(ks, Key(ks[|ks| - 1])) == |ks| - 1
    ensures DistinctKeys(ks)
  {
    hide LowerName;
    forall i, j | 0 <= i < j < |ks| ensures Key(ks[i]) != Key(ks[j]) {
      assert First(ks, Key(ks[j])) >= j;
    }
  }

  /** In a section that is arranged already, repeats stand last. */
  lemma {:induction false} ArrangedRepeatsLast(ks: seq<KV>, e: nat)
    requires Arranged(ks, ks, e) == ks
    ensures RepeatsLast(ks)
  {
    hide LowerName, Arranged, FirstKeys, MergeAll;
    var fk := FirstKeys(ks);
    ArrangedShape(ks, ks, e);
    FirstKeysDistinct(ks);
    forall n | 0 <= n < |fk| ensures First(ks, Key(ks[n])) == n {
      FirstUnique(ks, fk[n], n);
    }
    forall i, j | 0 <= i < j < |ks| && First(ks, Key(ks[i])) < i ensures First(ks, Key(ks[j])) < j {
      assert Key(ks[j]) in fk;
      var n :| 0 <= n < |fk| && fk[n] == Key(ks[j]);
      assert Key(ks[n]) == fk[n];
    }
  }

  /** A section merged into itself stays as it is. */
  predicate SelfStable(k: KV) {
    Absorbs(k, k) && (k.Block? && BaseOrdered(k, 1) ==> RepeatsLast(k.children))
  }

  lemma {:induction false} SelfMerge(k: KV)
    ensures Merge(k, k, 1) == k <==> SelfStable(k)
  {
    hide MergeAll, LowerName, Absorbs, Merge, Arranged, FirstKeys, RepeatsLast;
    if !Absorbs(k, k) {
      NotAbsorbedChanges(k, k, 1);
    } else if k.Block? {
      ChildrenOf(k, k, 1);
      SelfCovered(k);
      CoveredListIsNoOp(k.children, k.children, 1);
      if Arranged(k.children, k.children, 1) == k.children {
        ArrangedRepeatsLast(k.children, 1);
      }
      if RepeatsLast(k.children) {
        RepeatsLastFront(k.children);
        ArrangedStays(k.children, k.children, 1);
      }
    } else {
      LeafAddsNothing(k, k, 1);
    }
  }

  lemma {:induction false} SelfCovered(k: KV)
    requires k.Block? && Absorbs(k, k)
    ensures forall i :: 0 <= i < |k.children| ==> Covers(k.children, k.children[i])
  {
  }

  /** What a file's section must be for the file to be absorbed. */
  predicate SectionAbsorbable(k: KV) {
    k.Leaf? || (Absorbable(k.children, 1) && SelfStable(k))
  }

  predicate FileAbsorbable(b: KV) {
    b.Leaf? || forall i :: 0 <= i < |b.children| ==> SectionAbsorbable(b.children[i])
  }

  lemma {:induction false} FoldDistinct(c: Option<KV>, bs: seq<KV>, i: nat, e: nat)
    requires DistinctKeys(bs) && i < |bs|
    ensures Folded(c, bs, Key(bs[i]), e) == PickBoth(c, Some(bs[i]), e + 1)
  {
    hide LowerName, Merge;
    var n := |bs| - 1;
    if i < n {
      FoldDistinct(c, bs[..n], i, e);
    } else {
      assert First(bs[..n], Key(bs[n])) == n;
      NoneFolded(c, bs[..n], Key(bs[n]), e);
    }
  }

  lemma {:induction false} NoOpList(ms: seq<KV>, bs: seq<KV>, e: nat)
    requires forall i :: 0 <= i < |bs| ==> Put(ms, bs[i], e) == ms
    ensures MergeAll(ms, bs, e) == ms
    decreases |bs|
  {
    hide Put;
    if bs != [] {
      NoOpList(ms, bs[..|bs| - 1], e);
    }
  }

  lemma {:induction false} SectionTwice(ts: seq<KV>, bs: seq<KV>, i: nat)
    requires DistinctKeys(bs) && i < |bs| && SectionAbsorbable(bs[i])
    ensures Put(MergeAll(ts, bs, 0), bs[i], 0) == MergeAll(ts, bs, 0)
  {
    hide MergeAll, First, LowerName, Folded, Merge, Absorbable, SelfStable;
    var k, m := bs[i], MergeAll(ts, bs, 0);
    var c := Pick(ts, Key(k));
    PickFold(ts, bs, 0, Key(k));
    FoldDistinct(c, bs, i, 0);
    var d := m[First(m, Key(k))];
    assert Merge(d, k, 1) == d by {
      if k.Leaf? {
        LeafAddsNothing(d, k, 1);
      } else if c.Some? {
        AbsorbedTwice(c.value, k, 1);
      } else {
        SelfMerge(k);
      }
    }
  }

  lemma {:induction false} TopTwice(t: KV, b: KV)
    requires b.Block? ==> DistinctKeys(b.children)
    requires FileAbsorbable(b)
    ensures Merge(Merge(t, b, 0), b, 0) == Merge(t, b, 0)
  {
    hide MergeAll, Merge, SectionAbsorbable, Put, DistinctKeys;
    if t.Block? && b.Block? {
      var m := MergeAll(t.children, b.children, 0);
      ChildrenOf(t, b, 0);
      ChildrenOf(Merge(t, b, 0), b, 0);
      forall i | 0 <= i < |b.children| ensures Put(m, b.children[i], 0) == m {
        SectionTwice(t.children, b.children, i);
      }
      NoOpList(m, b.children, 0);
    } else {
      LeafAddsNothing(t, b, 0);
    }
  }

  lemma {:induction false} TopPick(t: KV, b: KV, i: nat)
    requires t.Block? && b.Block? && DistinctKeys(b.children) && i < |b.children|
    ensures Pick(Merge(t, b, 0).children, Key(b.children[i])) ==
            PickBoth(Pick(t.children, Key(b.children[i])), Some(b.children[i]), 1)
  {
    hide MergeAll, First, LowerName, Folded, Merge;
    ChildrenOf(t, b, 0);
    PickFold(t.children, b.children, 0, Key(b.children[i]));
    FoldDistinct(Pick(t.children, Key(b.children[i])), b.children, i, 0);
  }

  lemma {:induction false} TopShows(b: KV) returns (t: KV)
    requires b.Block? && DistinctKeys(b.children) && !FileAbsorbable(b)
    ensures Merge(Merge(t, b, 0), b, 0) != Merge(t, b, 0)
  {
    hide Merge, Absorbable, SelfStable, First, LowerName, DistinctKeys;
    var i: nat :| i < |b.children| && !SectionAbsorbable(b.children[i]);
    var k := b.children[i];
    if !SelfStable(k) {
      t := Block(b.name, []);
      PickNone(Key(k));
      SelfMerge(k);
    } else {
      var u := SecondTimeShows(k, 1, k.name);
      t := Block(b.name, [u]);
      PickOne(u);
      SameKey(u, k);
    }
    TopPick(t, b, i);
    TopPick(Merge(t, b, 0), b, i);
  }

  lemma {:induction false} SameKey(u: KV, k: KV)
    requires u.name == k.name
    ensures Key(u) == Key(k)
  {
  }

  /** The same for whole files, with sections named once: listing a base twice changes nothing, whatever it is
      merged into, if and only if every section is absorbable and stays as it is when merged into itself. */
  lemma {:induction false} FileAbsorbedExactly(b: KV)
    requires b.Block? ==> DistinctKeys(b.children)
    ensures (forall t :: Merge(Merge(t, b, 0), b, 0) == Merge(t, b, 0)) <==> FileAbsorbable(b)
  {
    hide Merge, FileAbsorbable, DistinctKeys;
    if FileAbsorbable(b) {
      forall t ensures Merge(Merge(t, b, 0), b, 0) == Merge(t, b, 0) {
        TopTwice(t, b);
      }
    } else {
      LeafFile(b);
      var t := TopShows(b);
    }
  }

  lemma {:induction false} LeafFile(b: KV)
    ensures b.Leaf? ==> FileAbsorbable(b)
  {
  }

  // ---- Repeated blocks, either way ----

  const BOTH := [S1, S2]
  const FULL := Block("s", [Leaf("p", "1"), Leaf("q", "2")])

  lemma {:induction false} KeysHere()
    ensures LowerName("s") == "s" && LowerName("p") == "p" && LowerName("q") == "q" && LowerName("") == ""
  {
  }

  lemma {:induction false} BothFolded(e: nat)
    requires e >= 1
    ensures Folded(None, BOTH, "s", e) == Some(FULL)
  {
    KeysHere();
    assert BOTH[..1] == [S1] && [S1][..0] == [] && S2.children[..0] == [];
    assert Folded(None, [S1], "s", e) == Some(S1);
    assert MergeAll(S1.children, [], e + 1) == S1.children;
    assert MergeAll(S1.children, S2.children, e + 1) == FULL.children;
  }

  lemma {:induction false} LeavesAreAbsorbable(ks: seq<KV>, e: nat)
    requires forall i :: 0 <= i < |ks| ==> ks[i].Leaf?
    ensures Absorbable(ks, e)
  {
    hide LowerName, First;
    forall i | 0 <= i < |ks| ensures AbsorbableAt(ks, i, e) {
      NothingGathered(ks, Key(ks[i]));
    }
  }

  lemma {:induction false} NothingGathered(ks: seq<KV>, key: string)
    requires forall i :: 0 <= i < |ks| ==> ks[i].Leaf?
    ensures Gathered(ks, key) == []
  {
    hide Key;
    if ks != [] {
      NothingGathered(ks[..|ks| - 1], key);
    }
  }

  lemma {:induction false} BothGathered()
    ensures Gathered(BOTH, "s") == FULL.children
  {
    KeysHere();
    assert BOTH[..1] == [S1] && [S1][..0] == [];
    assert Gathered([S1], "s") == S1.children;
  }

  /** Two filled blocks of one name do not decide it. A base that is nothing but the two is absorbed everywhere;
      the same two one level further down are not. */
  lemma {:induction false} RepeatsEitherWay()
    ensures forall t :: Merge(Merge(t, Block("r", BOTH), 2), Block("r", BOTH), 2) == Merge(t, Block("r", BOTH), 2)
    ensures exists t :: Merge(Merge(t, TWO, 2), TWO, 2) != Merge(t, TWO, 2)
  {
    hide Merge, Absorbable, Gathered;
    BothFolded(2);
    BothGathered();
    LeavesAreAbsorbable(FULL.children, 3);
    KeysHere();
    FullAbsorbs();
    assert Absorbable(BOTH, 2) by { AbsorbableAll(BOTH, 2); }
    AbsorbedExactly(Block("r", BOTH), 2);
    RepeatedBlocksAreNotAbsorbed();
  }

  lemma {:induction false} FullAbsorbs()
    ensures Absorbs(FULL, S1) && Absorbs(FULL, S2)
  {
    KeysHere();
    assert Covers(FULL.children, S1.children[0]) && Covers(FULL.children, S2.children[0]);
  }

  lemma {:induction false} AbsorbableAll(bs: seq<KV>, e: nat)
    requires forall i :: 0 <= i < |bs| ==> AbsorbableAt(bs, i, e)
    ensures Absorbable(bs, e)
  {
  }
}
