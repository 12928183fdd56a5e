/** Grouping a chain of any two bases, settled or not: exactly when it does not matter. */
module Grouping {
  import opened Options
  import opened KeyValues
  import opened MergeLaws
  import opened BaseOrder
  import opened BaseOrderLaws
  import opened Associativity
  import opened Lookups
  import opened Shuffles
  import opened Overlay
  import opened Absorption

  // ---- Lists of children that act alike ----

  /** The same names first appear in the same order, all the children of a name amount to the same where nothing
      is there yet, and what the blocks of a name hold, put together, acts alike again. */
  predicate Same(xs: seq<KV>, ys: seq<KV>, e: nat)
    decreases Size(xs), 1
  {
    FirstKeys(xs) == FirstKeys(ys) && forall i :: 0 <= i < |xs| ==> SameAt(xs, ys, i, e)
  }

  predicate SameAt(xs: seq<KV>, ys: seq<KV>, i: nat, e: nat)
    requires i < |xs|
    decreases Size(xs), 0
  {
    var key := Key(xs[i]);
    && Folded(None, xs, key, e) == Folded(None, ys, key, e)
    && Same(Gathered(xs, key), Gathered(ys, key), e + 1)
  }

  // ---- A merged list is known by its names and its first matches ----

  function NamesOf(ks: seq<KV>): (r: seq<string>)
    ensures |r| == |ks| && forall i :: 0 <= i < |ks| ==> r[i] == Key(ks[i])
  {
    seq(|ks|, i requires 0 <= i < |ks| => Key(ks[i]))
  }

  lemma {:induction false} NamesMerged(ts: seq<KV>, xs: seq<KV>, e: nat)
    ensures NamesOf(MergeAll(ts, xs, e)) == NamesOf(ts) + Without(FirstKeys(xs), KeysOf(ts))
    decreases |xs|
  {
    hide Key, First, Merge, KeysOf;
    if xs == [] {
      assert NamesOf(ts) + [] == NamesOf(ts);
    } else {
      var n := |xs| - 1;
      var x, m := xs[n], MergeAll(ts, xs[..n], e);
      NamesMerged(ts, xs[..n], e);
      AllFirst(ts, xs[..n], e, Key(x));
      HasInKeys(ts, Key(x));
      NamesPut(m, x, e);
      WithoutSnoc(FirstKeys(xs[..n]), Key(x), KeysOf(ts));
    }
  }

  lemma {:induction false} NamesPut(m: seq<KV>, x: KV, e: nat)
    ensures NamesOf(Put(m, x, e)) == if Has(m, Key(x)) then NamesOf(m) else NamesOf(m) + [Key(x)]
  {
    hide First, LowerName;
  }

  lemma {:induction false} WithoutSnoc(fk: seq<string>, key: string, names: set<string>)
    ensures Without(fk + [key], names) == if key in names then Without(fk, names) else Without(fk, names) + [key]
  {
    assert (fk + [key])[..|fk|] == fk;
  }

  /** A child that repeats an earlier name of its list is left alone. */
  lemma {:induction false} RepeatStays(ts: seq<KV>, xs: seq<KV>, e: nat, i: nat)
    requires i < |ts| && First(ts, Key(ts[i])) < i
    ensures i < |MergeAll(ts, xs, e)| && MergeAll(ts, xs, e)[i] == ts[i]
    decreases |xs|
  {
    hide LowerName, Merge;
    if xs != [] {
      var n := |xs| - 1;
      RepeatStays(ts, xs[..n], e, i);
      AllFirst(ts, xs[..n], e, Key(ts[i]));
    }
  }

  /** What is appended is the first of its name. */
  lemma {:induction false} AppendedIsFirst(ts: seq<KV>, xs: seq<KV>, e: nat, i: nat)
    requires |ts| <= i < |MergeAll(ts, xs, e)|
    ensures First(MergeAll(ts, xs, e), Key(MergeAll(ts, xs, e)[i])) == i
    decreases |xs|
  {
    hide LowerName, Merge, First;
    var n := |xs| - 1;
    var m, x := MergeAll(ts, xs[..n], e), xs[n];
    var r := Put(m, x, e);
    PutFirst(m, x, e, Key(r[i]));
    if i < |m| {
      AppendedIsFirst(ts, xs[..n], e, i);
    }
  }

  lemma {:induction false} SameLists(ts: seq<KV>, xs: seq<KV>, ys: seq<KV>, e: nat)
    requires FirstKeys(xs) == FirstKeys(ys)
    requires forall key :: Folded(Pick(ts, key), xs, key, e) == Folded(Pick(ts, key), ys, key, e)
    ensures MergeAll(ts, xs, e) == MergeAll(ts, ys, e)
  {
    hide LowerName, First, MergeAll, Folded, FirstKeys, KeysOf;
    var r, s := MergeAll(ts, xs, e), MergeAll(ts, ys, e);
    NamesMerged(ts, xs, e);
    NamesMerged(ts, ys, e);
    assert |r| == |NamesOf(r)| == |NamesOf(s)| == |s|;
    forall i | 0 <= i < |r| ensures r[i] == s[i] {
      var key := Key(r[i]);
      assert NamesOf(r)[i] == NamesOf(s)[i];
      if i < |ts| && First(ts, Key(ts[i])) < i {
        RepeatStays(ts, xs, e, i);
        RepeatStays(ts, ys, e, i);
      } else {
        FirstHere(ts, xs, e, i);
        FirstHere(ts, ys, e, i);
        PickFold(ts, xs, e, key);
        PickFold(ts, ys, e, key);
      }
    }
  }

  lemma {:induction false} FirstHere(ts: seq<KV>, xs: seq<KV>, e: nat, i: nat)
    requires i < |MergeAll(ts, xs, e)| && (i < |ts| ==> First(ts, Key(ts[i])) >= i)
    ensures First(MergeAll(ts, xs, e), Key(MergeAll(ts, xs, e)[i])) == i
  {
    hide LowerName, MergeAll;
    if i < |ts| {
      KeysStay(ts, xs, e, i);
      AllFirst(ts, xs, e, Key(ts[i]));
    } else {
      AppendedIsFirst(ts, xs, e, i);
    }
  }

  // ---- Same lists act alike ----

  lemma {:induction false} SameHas(xs: seq<KV>, ys: seq<KV>, key: string)
    requires FirstKeys(xs) == FirstKeys(ys)
    ensures Has(xs, key) <==> Has(ys, key)
  {
    hide First;
    FirstKeysDistinct(xs);
    FirstKeysDistinct(ys);
  }

  lemma {:induction false} FoldSame(c: Option<KV>, xs: seq<KV>, ys: seq<KV>, key: string, e: nat)
    requires e >= 1 && Same(xs, ys, e)
    ensures Folded(c, xs, key, e) == Folded(c, ys, key, e)
    decreases Size(xs), 0
  {
    hide LowerName, First, MergeAll, Folded, FirstKeys, Size, Gathered;
    SameHas(xs, ys, key);
    if Has(xs, key) {
      var i := First(xs, key);
      assert SameAt(xs, ys, i, e);
      if c.Some? && c.value.Leaf? {
        FoldedLeaf(c.value, xs, key, e);
        FoldedLeaf(c.value, ys, key, e);
      } else if c.Some? {
        FoldedBlock(c.value, xs, key, e);
        FoldedBlock(c.value, ys, key, e);
        ActAlike(c.value.children, Gathered(xs, key), Gathered(ys, key), e + 1);
      }
    } else {
      NoneFolded(c, xs, key, e);
      NoneFolded(c, ys, key, e);
    }
  }

  lemma {:induction false} ActAlike(ts: seq<KV>, xs: seq<KV>, ys: seq<KV>, e: nat)
    requires e >= 1 && Same(xs, ys, e)
    ensures MergeAll(ts, xs, e) == MergeAll(ts, ys, e)
    decreases Size(xs), 1
  {
    hide LowerName, First, MergeAll, Folded, FirstKeys, Size, Pick;
    forall key ensures Folded(Pick(ts, key), xs, key, e) == Folded(Pick(ts, key), ys, key, e) {
      FoldSame(Pick(ts, key), xs, ys, key, e);
    }
    assert FirstKeys(xs) == FirstKeys(ys);
    SameLists(ts, xs, ys, e);
  }

  // ---- Others do not ----

  lemma {:induction false} NothingWithout(fk: seq<string>, names: set<string>)
    requires names == {}
    ensures Without(fk, names) == fk
  {
    if fk != [] {
      NothingWithout(fk[..|fk| - 1], names);
      assert fk == fk[..|fk| - 1] + [fk[|fk| - 1]];
    }
  }

  lemma {:induction false} NamesFromNothing(xs: seq<KV>, e: nat)
    ensures NamesOf(MergeAll([], xs, e)) == FirstKeys(xs)
  {
    hide FirstKeys, MergeAll, Without;
    NamesMerged([], xs, e);
    NothingWithout(FirstKeys(xs), KeysOf([]));
    assert NamesOf([]) + FirstKeys(xs) == FirstKeys(xs);
  }

  /** Children on which the two lists act differently. */
  lemma {:induction false} TellApart(xs: seq<KV>, ys: seq<KV>, e: nat) returns (ts: seq<KV>)
    requires e >= 1 && !Same(xs, ys, e)
    ensures MergeAll(ts, xs, e) != MergeAll(ts, ys, e)
    decreases Size(xs)
  {
    hide LowerName, First, MergeAll, Folded, FirstKeys, Size, Gathered, Without;
    ts := [];
    if FirstKeys(xs) != FirstKeys(ys) {
      NamesFromNothing(xs, e);
      NamesFromNothing(ys, e);
    } else {
      var i: nat :| i < |xs| && !SameAt(xs, ys, i, e);
      var key := Key(xs[i]);
      if Folded(None, xs, key, e) != Folded(None, ys, key, e) {
        PickNone(key);
        PickFold([], xs, e, key);
        PickFold([], ys, e, key);
      } else {
        var us := TellApart(Gathered(xs, key), Gathered(ys, key), e + 1);
        var u := Block(xs[i].name, us);
        ts := [u];
        PickOne(u);
        SameKey(u, xs[i]);
        PickFold(ts, xs, e, key);
        PickFold(ts, ys, e, key);
        FoldedBlock(u, xs, key, e);
        FoldedBlock(u, ys, key, e);
        assert Pick(ts, key) == Some(u);
      }
    }
  }

  /** Two lists of a base's children act alike, on whatever they are merged into, if and only if they are the same
      in this sense. */
  lemma {:induction false} ActAlikeExactly(xs: seq<KV>, ys: seq<KV>, e: nat)
    requires e >= 1
    ensures (forall ts :: MergeAll(ts, xs, e) == MergeAll(ts, ys, e)) <==> Same(xs, ys, e)
  {
    hide MergeAll, Same;
    if Same(xs, ys, e) {
      forall ts ensures MergeAll(ts, xs, e) == MergeAll(ts, ys, e) {
        ActAlike(ts, xs, ys, e);
      }
    } else {
      var ts := TellApart(xs, ys, e);
    }
  }

  // ---- Grouping ----

  /** Merging c into b first leaves what b and c hold acting as it did; a leaf, which takes nothing in, needs
      nothing behind it. */
  predicate Groups(b: KV, c: KV, depth: nat) {
    c.Leaf? || if b.Leaf? then c.children == []
               else Same(b.children + c.children, MergeAll(b.children, c.children, depth), depth)
  }

  lemma {:induction false} GroupedLists(t: KV, b: KV, c: KV, depth: nat)
    requires t.Block? && b.Block? && c.Block? && !BaseOrdered(t, depth) && !BaseOrdered(b, depth)
    ensures Merge(Merge(t, b, depth), c, depth) == Block(t.name, MergeAll(t.children, b.children + c.children, depth))
    ensures Merge(t, Merge(b, c, depth), depth) ==
            Block(t.name, MergeAll(t.children, MergeAll(b.children, c.children, depth), depth))
  {
    hide MergeAll;
    AllConcat(t.children, b.children, c.children, depth);
  }

  lemma {:induction false} GroupedFreely(t: KV, b: KV, c: KV, depth: nat)
    requires depth >= 1 && !BaseOrdered(t, depth) && !BaseOrdered(b, depth) && Groups(b, c, depth)
    ensures AssocAt(t, b, c, depth)
  {
    hide Merge, MergeAll, Same;
    if t.Block? && b.Block? && c.Block? {
      GroupedLists(t, b, c, depth);
      ActAlike(t.children, b.children + c.children, MergeAll(b.children, c.children, depth), depth);
    } else {
      LeafGroups(t, b, c, depth);
      if c.Leaf? || c.children == [] {
        EmptyAddsNothing(t, c, depth);
      }
    }
  }

  lemma {:induction false} LeafGroups(t: KV, b: KV, c: KV, depth: nat)
    requires t.Leaf? || b.Leaf? || c.Leaf?
    ensures AssocAt(t, b, c, depth) <==> t.Leaf? || c.Leaf? || Merge(t, c, depth) == t
  {
  }

  lemma {:induction false} KeysAndDepth(t: KV, b: KV, depth: nat)
    requires Key(t) == Key(b)
    ensures BaseOrdered(t, depth) == BaseOrdered(b, depth)
  {
  }

  /** The grouping of a chain does not matter, for any two bases outside base order, settled or not, if and only
      if the two bases group. */
  lemma {:induction false} GroupsExactly(b: KV, c: KV, depth: nat)
    requires depth >= 1 && !BaseOrdered(b, depth)
    ensures Assoc(b, c, depth) <==> Groups(b, c, depth)
  {
    hide Merge, MergeAll, Same, AssocAt, BaseOrdered, Groups;
    if Groups(b, c, depth) {
      forall t | Key(t) == Key(b) ensures AssocAt(t, b, c, depth) {
        KeysAndDepth(t, b, depth);
        GroupedFreely(t, b, c, depth);
      }
    } else {
      var t := GroupingSeen(b, c, depth);
      SameKey(t, b);
      assert !AssocAt(t, b, c, depth);
    }
  }

  lemma {:induction false} GroupingSeen(b: KV, c: KV, depth: nat) returns (t: KV)
    requires depth >= 1 && !BaseOrdered(b, depth) && !Groups(b, c, depth)
    ensures t.name == b.name && !AssocAt(t, b, c, depth)
  {
    hide Merge, MergeAll, Same;
    if b.Leaf? {
      t := Block(b.name, []);
      SomethingMerged(c, b.name, depth);
      LeafGroups(t, b, c, depth);
    } else {
      var ts := TellApart(b.children + c.children, MergeAll(b.children, c.children, depth), depth);
      t := Block(b.name, ts);
      SameKey(t, b);
      KeysAndDepth(t, b, depth);
      GroupedLists(t, b, c, depth);
    }
  }

  /** For settled bases that is the absence of a leaf over a filled block. */
  lemma {:induction false} SettledGroups(b: KV, c: KV, depth: nat)
    requires depth >= 1 && !BaseOrdered(b, depth) && Settled(b) && Settled(c) && Key(b) == Key(c)
    ensures Groups(b, c, depth) <==> NoLeafOverBlock(b, c)
  {
    GroupsExactly(b, c, depth);
    GroupsFreelyExactly(b, c, depth);
  }

  /** At every depth, whole files and base order included: where the two bases group, no lookup tells the
      groupings apart, and the trees differ at most in the order in which sections kept in base order hold the
      children of different names. */
  lemma {:induction false} GroupingShowsNowhere(t: KV, b: KV, c: KV, depth: nat)
    requires Groups(b, c, 2)
    ensures Beside(Merge(Merge(t, b, depth), c, depth), Merge(t, Merge(b, c, depth), depth), depth)
    ensures Alike(Merge(Merge(t, b, depth), c, depth), Merge(t, Merge(b, c, depth), depth))
  {
    hide Merge, Beside, Groups, Alike;
    BesideItself(t, depth);
    BesideItself(b, depth);
    BesideItself(c, depth);
    BesideMerge(t, t, b, b, depth);
    BesideMerge(b, b, c, c, depth);
    var tb, bc := Merge(t, b, depth), Merge(b, c, depth);
    BesideMerge(tb, Merge(t, b, 2), c, c, depth);
    BesideMerge(t, t, bc, Merge(b, c, 2), depth);
    GroupedFreely(t, b, c, 2);
    BesideTwo(Merge(tb, c, depth), Merge(t, bc, depth), Merge(Merge(t, b, 2), c, 2), depth);
    BesideAlike(Merge(tb, c, depth), Merge(t, bc, depth), depth);
  }

  // ---- Without settled bases a leaf need not stand over a block for the grouping to show ----

  const P := Leaf("p", "1")
  const Q_BLOCK := Block("q", [Leaf("y", "1")])
  const Q_LEAF := Leaf("q", "2")
  const REPEATING := Block("r", [Block("s", [P]), Block("s", [Q_BLOCK])])
  const FURTHER := Block("r", [Block("s", [Q_LEAF])])

  lemma {:induction false} OnePut(ts: seq<KV>, x: KV, e: nat)
    ensures MergeAll(ts, [x], e) == Put(ts, x, e)
  {
    assert [x][..0] == [] && MergeAll(ts, [], e) == ts;
  }

  lemma {:induction false} TwoPuts(ts: seq<KV>, x: KV, y: KV, e: nat)
    ensures MergeAll(ts, [x, y], e) == Put(Put(ts, x, e), y, e)
  {
    OnePut(ts, x, e);
    assert [x, y][..1] == [x];
  }

  lemma {:induction false} Names()
    ensures Key(P) == "p" && Key(Q_BLOCK) == Key(Q_LEAF) == "q" && LowerName("s") == "s"
  {
  }

  lemma {:induction false} Puts(x: KV, y: KV, z: KV, e: nat)
    ensures Put([], x, e) == [x]
    ensures Key(x) == Key(z) ==> Put([x], z, e) == [Merge(x, z, e + 1)] && Put([x, y], z, e) == [Merge(x, z, e + 1), y]
    ensures Key(x) != Key(z) ==> Put([x], z, e) == [x, z]
    ensures Key(x) != Key(z) == Key(y) ==> Put([x, y], z, e) == [x, Merge(y, z, e + 1)]
  {
    hide Key, Merge;
    FirstUnique([x], Key(z), if Key(x) == Key(z) then 0 else 1);
    FirstUnique([x, y], Key(z), if Key(x) == Key(z) then 0 else if Key(y) == Key(z) then 1 else 2);
  }

  /** Two blocks of which the further one has one child. */
  lemma {:induction false} MergeOne(name: string, x: seq<KV>, other: string, y: KV, d: nat)
    requires d >= 2
    ensures Merge(Block(name, x), Block(other, [y]), d) == Block(name, Put(x, y, d))
  {
    OnePut(x, y, d);
  }

  lemma {:induction false} MergeTwo(name: string, x: KV, y: KV, d: nat)
    requires d >= 2 && Key(x) == Key(y)
    ensures Merge(Block(name, []), Block(name, [x, y]), d) == Block(name, [Merge(x, y, d + 1)])
  {
    hide Put, LowerName;
    TwoPuts([], x, y, d);
    Puts(x, x, y, d);
  }

  const NEAR := Block("s", [P, Q_BLOCK])
  const FAR := Block("s", [P, Q_LEAF])

  lemma {:induction false} SectionsHere()
    ensures var s1, s2, s3 := REPEATING.children[0], REPEATING.children[1], FURTHER.children[0];
            && Merge(s1, s2, 3) == NEAR && Merge(NEAR, s3, 3) == NEAR
            && Merge(s1, s3, 3) == FAR && Merge(FAR, s2, 3) == FAR
  {
    hide Merge, LowerName, Put;
    Names();
    MergeOne("s", [P], "s", Q_BLOCK, 3);
    MergeOne("s", [P], "s", Q_LEAF, 3);
    MergeOne("s", [P, Q_BLOCK], "s", Q_LEAF, 3);
    MergeOne("s", [P, Q_LEAF], "s", Q_BLOCK, 3);
    Puts(P, Q_BLOCK, Q_LEAF, 3);
    Puts(P, Q_LEAF, Q_BLOCK, 3);
    LeafAddsNothing(Q_BLOCK, Q_LEAF, 4);
    LeafAddsNothing(Q_LEAF, Q_BLOCK, 4);
  }

  /** The second "s" brings a block "q" only where the first one has none yet, so it matters whether the further
      base's leaf "q" comes before it or after. */
  lemma {:induction false} RepeatsDoNotGroup()
    ensures NoLeafOverBlock(REPEATING, FURTHER)
    ensures !AssocAt(Block("r", []), REPEATING, FURTHER, 2) && !Groups(REPEATING, FURTHER, 2)
  {
    hide Merge, LowerName, NoLeafOverBlock, Groups, Put;
    var t, s1, s2, s3 := Block("r", []), REPEATING.children[0], REPEATING.children[1], FURTHER.children[0];
    Names();
    SectionsHere();
    MergeTwo("r", s1, s2, 2);
    MergeOne("r", [NEAR], "r", s3, 2);
    Puts(NEAR, NEAR, s3, 2);
    MergeOne("r", [s1, s2], "r", s3, 2);
    Puts(s1, s2, s3, 2);
    MergeTwo("r", FAR, s2, 2);
    LeavesBehind();
    GroupsExactly(REPEATING, FURTHER, 2);
    SameKey(t, REPEATING);
  }

  lemma {:induction false} LeavesBehind()
    ensures NoLeafOverBlock(REPEATING, FURTHER)
  {
    hide LowerName;
    Names();
    var s1, s3 := REPEATING.children[0], FURTHER.children[0];
    assert NoLeafOverBlock(s1, s3) by {
      assert !Has(s1.children, "q");
    }
    assert First(REPEATING.children, "s") == 0;
  }
}
