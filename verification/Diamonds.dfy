/** Settled bases merged in twice, directly or through a second file: when that changes nothing. */
module Diamonds {
  import opened Options
  import opened KeyValues
  import opened MergeLaws
  import opened Associativity
  import opened Lookups
  import opened Shuffles

  lemma {:induction false} SubsumesAll(bs: seq<KV>, i: nat)
    requires AllSettled(bs) && i < |bs|
    ensures Subsumes(bs, bs[i])
  {
  }

  /** Outside base order, a settled base that has been merged in adds nothing when it is merged in again. */
  lemma {:induction false} MergedTwiceIsMergedOnce(t: KV, b: KV, depth: nat)
    requires depth >= 1 && !BaseOrdered(t, depth) && Settled(b)
    ensures Merge(Merge(t, b, depth), b, depth) == Merge(t, b, depth)
  {
    if t.Block? && b.Block? {
      var m := MergeAll(t.children, b.children, depth);
      forall i | 0 <= i < |b.children| ensures Covers(m, b.children[i]) {
        SubsumesAll(b.children, i);
        SubsumesAfterMerge(t.children, b.children, b.children[i], depth);
      }
      CoveredListIsNoOp(m, b.children, depth);
    }
  }

  // ---- What is absorbed may come along with anything ----

  lemma {:induction false} DiamondTree(d: KV, b: KV, c: KV, depth: nat)
    requires depth >= 2 && Absorbs(d, c)
    ensures Merge(d, Merge(b, c, depth), depth) == Merge(d, b, depth)
    decreases c, 0
  {
    if d.Block? && b.Block? && c.Block? {
      DiamondList(d.children, b.children, c.children, depth);
    }
  }

  lemma {:induction false} DiamondList(ds: seq<KV>, bs: seq<KV>, cs: seq<KV>, e: nat)
    requires e >= 1 && forall i :: 0 <= i < |cs| ==> Covers(ds, cs[i])
    ensures MergeAll(ds, MergeAll(bs, cs, e), e) == MergeAll(ds, bs, e)
    decreases cs, 1
  {
    if cs != [] {
      var n := |cs| - 1;
      var c, xs := cs[n], MergeAll(bs, cs[..n], e);
      forall i | 0 <= i < n ensures Covers(ds, cs[..n][i]) {
        assert Covers(ds, cs[i]);
      }
      DiamondList(ds, bs, cs[..n], e);
      assert Covers(ds, c);
      DiamondPut(ds, xs, c, e);
    }
  }

  lemma {:induction false} DiamondPut(ds: seq<KV>, xs: seq<KV>, c: KV, e: nat)
    requires e >= 1 && Covers(ds, c)
    ensures MergeAll(ds, Put(xs, c, e), e) == MergeAll(ds, xs, e)
    decreases c, 2
  {
    hide Covers, MergeAll;
    var i := First(xs, Key(c));
    if i == |xs| {
      DiamondAppended(ds, xs, c, e);
    } else {
      var x := Merge(xs[i], c, e + 1);
      var ys, a := xs[i := x], MergeAll(ds, xs[..i], e);
      assert ys[..i] == xs[..i] && ys[i + 1..] == xs[i + 1..];
      AllSplit(ds, xs, i, e);
      AllSplit(ds, ys, i, e);
      CoversGrows(ds, xs[..i], c, e);
      SamePut(a, xs[i], c, e);
    }
  }

  lemma {:induction false} DiamondAppended(ds: seq<KV>, xs: seq<KV>, c: KV, e: nat)
    requires e >= 1 && Covers(ds, c)
    ensures MergeAll(ds, xs + [c], e) == MergeAll(ds, xs, e)
  {
    assert (xs + [c])[..|xs|] == xs;
    CoversGrows(ds, xs, c, e);
    CoveredIsNoOp(MergeAll(ds, xs, e), c, e);
  }

  /** What a list covers may come along with a child of the same name. */
  lemma {:induction false} SamePut(a: seq<KV>, x: KV, c: KV, e: nat)
    requires e >= 1 && Covers(a, c) && Key(x) == Key(c)
    ensures Put(a, Merge(x, c, e + 1), e) == Put(a, x, e)
    decreases c, 1
  {
    hide Merge, Absorbs;
    assert Key(Merge(x, c, e + 1)) == Key(c);
    DiamondTree(a[First(a, Key(c))], x, c, e + 1);
  }

  // ---- What has been merged in behind something is absorbed ----

  lemma {:induction false} SubsumedBehind(b: KV, c: KV, k: KV, depth: nat)
    requires depth >= 2 && Subsumed(c, k) && NoLeafOverBlock(b, c)
    ensures Subsumed(Merge(b, c, depth), k)
    decreases k, 0
  {
    if k.Block? && k.children != [] {
      assert Subsumes(c.children, k.children[0]);
      assert b.Block?;
      forall i | 0 <= i < |k.children| ensures Subsumes(MergeAll(b.children, c.children, depth), k.children[i]) {
        assert Subsumes(c.children, k.children[i]);
        var j := First(c.children, Key(k.children[i]));
        assert First(c.children, Key(c.children[j])) == j;
        SubsumesBehind(b.children, c.children, k.children[i], depth);
      }
    }
  }

  lemma {:induction false} PutBehind(m: seq<KV>, x: KV, k: KV, e: nat)
    requires e >= 1 && Key(x) == Key(k) && Subsumed(x, k)
    requires Has(m, Key(k)) ==> NoLeafOverBlock(m[First(m, Key(k))], x)
    ensures Subsumes(Put(m, x, e), k)
    decreases k, 1
  {
    hide MergeAll, Merge, LowerName, Subsumed, NoLeafOverBlock;
    PutFirst(m, x, e, Key(k));
    if Has(m, Key(k)) {
      SubsumedBehind(m[First(m, Key(k))], x, k, e + 1);
    }
  }

  lemma {:induction false} SubsumesBehind(bs: seq<KV>, cs: seq<KV>, k: KV, e: nat)
    requires e >= 1 && Subsumes(cs, k)
    requires Has(bs, Key(k)) ==> NoLeafOverBlock(bs[First(bs, Key(k))], cs[First(cs, Key(k))])
    ensures Subsumes(MergeAll(bs, cs, e), k)
    decreases k, 2
  {
    hide MergeAll, Put, Merge, LowerName, Subsumed, NoLeafOverBlock;
    var j := First(cs, Key(k));
    var m := MergeAll(bs, cs[..j], e);
    AllSplit(bs, cs, j, e);
    FirstPrefix(cs, j, Key(k));
    KeyNotYet(bs, cs[..j], e, Key(k));
    PutBehind(m, cs[j], k, e);
    SubsumesGrows(Put(m, cs[j], e), cs[j + 1..], k, e);
  }

  lemma {:induction false} KeyNotYet(bs: seq<KV>, cs: seq<KV>, e: nat, key: string)
    requires !Has(cs, key)
    ensures Pick(MergeAll(bs, cs, e), key) == Pick(bs, key)
  {
    if cs != [] {
      var n := |cs| - 1;
      PickPrefix(cs, key);
      KeyNotYet(bs, cs[..n], e, key);
      PutPick(MergeAll(bs, cs[..n], e), cs[n], e, key);
    }
  }

  /** In engine order: what b1 has already brought along adds nothing when b2 brings it along too. */
  lemma {:induction false} DiamondAddsNothing(t: KV, b1: KV, b2: KV, c: KV, depth: nat)
    requires depth >= 1 && !BaseOrdered(t, depth) && !BaseOrdered(b1, depth) && !BaseOrdered(b2, depth)
    requires Settled(c) && NoLeafOverBlock(b1, c)
    ensures var once := Merge(t, Merge(b1, c, depth), depth);
            Merge(once, Merge(b2, c, depth), depth) == Merge(once, b2, depth)
  {
    if t.Block? && b2.Block? && c.Block? && c.children != [] {
      var ts, bs, cs := t.children, b1.children, c.children;
      var xs := MergeAll(bs, cs, depth);
      var ds := MergeAll(ts, xs, depth);
      forall i | 0 <= i < |cs| ensures Covers(ds, cs[i]) {
        SubsumesAll(cs, i);
        var j := First(cs, Key(cs[i]));
        assert First(cs, Key(cs[j])) == j;
        SubsumesBehind(bs, cs, cs[i], depth);
        SubsumesAfterMerge(ts, xs, cs[i], depth);
      }
      DiamondList(ds, b2.children, cs, depth);
    } else {
      EmptyOrLeaf(b2, c, depth);
    }
  }

  lemma {:induction false} EmptyOrLeaf(b: KV, c: KV, depth: nat)
    ensures b.Leaf? || c.Leaf? || c.children == [] ==> Merge(b, c, depth) == b
  {
    if c.Leaf? || c.children == [] {
      EmptyAddsNothing(b, c, depth);
    }
  }

  // ---- Whole files ----

  /** A file that one base of a theater has brought along adds nothing when another base brings it along too, at
      the top level as everywhere below: the same sections in the same order, equal but for those kept in base
      order, which hold the same children, those of each name in the same order. Only the shared file need be
      settled. */
  lemma {:induction false} DiamondFile(t: KV, b1: KV, b2: KV, c: KV, depth: nat)
    requires Settled(c) && NoLeafOverBlock(b1, c)
    ensures var once := Merge(t, Merge(b1, c, depth), depth);
            Beside(Merge(once, Merge(b2, c, depth), depth), Merge(once, b2, depth), depth)
  {
    hide Merge, Beside, Settled, NoLeafOverBlock;
    BesideItself(t, depth);
    BesideItself(b1, depth);
    BesideItself(b2, depth);
    BesideItself(c, depth);
    BesideMerge(b1, b1, c, c, depth);
    BesideMerge(b2, b2, c, c, depth);
    var x1, x2 := Merge(b1, c, 2), Merge(b2, c, 2);
    BesideMerge(t, t, Merge(b1, c, depth), x1, depth);
    var once, plain := Merge(t, Merge(b1, c, depth), depth), Merge(t, x1, 2);
    BesideMerge(once, plain, Merge(b2, c, depth), x2, depth);
    BesideMerge(once, plain, b2, b2, depth);
    DiamondAddsNothing(t, b1, b2, c, 2);
    BesideTwo(Merge(once, Merge(b2, c, depth), depth), Merge(once, b2, depth), Merge(plain, b2, 2), depth);
  }

  /** The same, section by section. */
  lemma {:induction false} DiamondSections(t: KV, b1: KV, b2: KV, c: KV, i: nat)
    requires Settled(c) && NoLeafOverBlock(b1, c) && t.Block?
    ensures var once := Merge(t, Merge(b1, c, 0), 0);
            var (l, r) := (Merge(once, Merge(b2, c, 0), 0).children, Merge(once, b2, 0).children);
            && |l| == |r|
            && (i < |l| ==>
                  && Key(l[i]) == Key(r[i])
                  && (Key(l[i]) != WEAPON_UPGRADES || l[i].Leaf? ==> l[i] == r[i])
                  && (l[i].Block? ==> r[i].Block? && multiset(l[i].children) == multiset(r[i].children)))
  {
    hide Merge, Settled, NoLeafOverBlock, Shuffled, LowerName;
    var once := Merge(t, Merge(b1, c, 0), 0);
    var l, r := Merge(once, Merge(b2, c, 0), 0), Merge(once, b2, 0);
    DiamondFile(t, b1, b2, c, 0);
    SectionsOf(l, r);
    if i < |l.children| {
      assert SameSection(l.children[i], r.children[i]);
      ShuffledParts(l.children[i], r.children[i]);
    }
  }

  lemma {:induction false} ShuffledParts(a: KV, b: KV)
    ensures Shuffled(a, b) && a.Leaf? ==> a == b
    ensures Shuffled(a, b) && a.Block? ==> b.Block? && multiset(a.children) == multiset(b.children)
  {
    if Shuffled(a, b) && a.Block? {
      ShuffledPermutes(a, b);
    }
  }

  /** So no lookup anywhere in the merged theater tells whether the second base brought the file along. */
  lemma {:induction false} DiamondAddsNoAnswer(t: KV, b1: KV, b2: KV, c: KV, depth: nat, path: seq<string>)
    requires Settled(c) && NoLeafOverBlock(b1, c)
    ensures var once := Merge(t, Merge(b1, c, depth), depth);
            Look(Merge(once, Merge(b2, c, depth), depth), path) == Look(Merge(once, b2, depth), path)
  {
    hide Merge, Beside, Settled, NoLeafOverBlock, Look;
    var once := Merge(t, Merge(b1, c, depth), depth);
    DiamondFile(t, b1, b2, c, depth);
    BesideAlike(Merge(once, Merge(b2, c, depth), depth), Merge(once, b2, depth), depth);
  }

  // ---- Where the shape matters ----

  const S1 := Block("s", [Leaf("p", "1")])
  const S2 := Block("s", [Leaf("q", "2")])
  const X := Block("x", [S1, S2])

  lemma {:induction false} TwoOfTheSame()
    ensures !Look(X, ["s", "q"]).Found? && Look(X, ["s"]) == Found(None) && LeadsAlong(X, ["s", "q"])
  {
    assert LowerName("s") == "s" && LowerName("q") == "q" && LowerName("p") == "p";
    assert ["s", "q"][1..] == ["q"] && ["q"][1..] == [] && ["s"][1..] == [];
    assert Look(S1, ["q"]) == MissingAt(0) && Look(S1, []) == Found(None);
    assert LeadsAlong(S2.children[0], []);
    assert LeadsAlong(S2, ["q"]);
    assert X.children[1] == S2;
  }

  const TWO := Block("r", [X])

  lemma {:induction false} MergedOnceIsCopied()
    ensures Merge(Block("r", []), TWO, 2) == TWO
  {
    assert MergeAll([], [X], 2) == Put(MergeAll([], [], 2), X, 2) == Put([], X, 2) == [X] by {
      assert [X][..0] == [];
    }
  }

  lemma {:induction false} LookThrough(path: seq<string>)
    requires path != [] && path[0] == "x"
    ensures Look(TWO, path) == Deeper(Look(X, path[1..]))
    ensures LeadsAlong(X, path[1..]) ==> LeadsAlong(TWO, path)
  {
  }

  /** A tree that is not absorbed: merged in twice, it is not what it was merged in once. The first copy of "s"
      picks up the second one's "q" only the second time. */
  lemma {:induction false} RepeatedBlocksAreNotAbsorbed()
    ensures var t, b := Block("r", []), TWO;
            Merge(Merge(t, b, 2), b, 2) != Merge(t, b, 2)
  {
    hide LowerName, Look, LeadsAlong, Merge;
    MergedOnceIsCopied();
    TwoOfTheSame();
    var path := ["x", "s", "q"];
    assert path[1..] == ["s", "q"] && path[..2] == ["x", "s"] && path[..2][1..] == ["s"];
    LookThrough(path);
    LookThrough(path[..2]);
    LeadsArrive(TWO, TWO, 2, path);
  }
}
