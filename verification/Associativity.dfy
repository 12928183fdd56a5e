/** Grouping a #base chain differently gives the same tree - and when it does not. */
module Associativity {
  import opened KeyValues
  import opened Rearrange
  import opened MergeLaws
  import opened BaseOrder
  import opened BaseOrderLaws

  ghost predicate AssocAt(t: KV, b: KV, c: KV, depth: nat) {
    Merge(Merge(t, b, depth), c, depth) == Merge(t, Merge(b, c, depth), depth)
  }

  /** (t + b) + c == t + (b + c) for every tree t that goes by b's name. */
  ghost predicate Assoc(b: KV, c: KV, depth: nat) {
    forall t :: Key(t) == Key(b) ==> AssocAt(t, b, c, depth)
  }

  /** No path, by first matches, is a leaf in b and a block with something in it in c. */
  predicate NoLeafOverBlock(b: KV, c: KV)
    decreases c
  {
    c.Leaf? || c.children == [] ||
    (b.Block? &&
     forall j ::
       0 <= j < |c.children| && First(c.children, Key(c.children[j])) == j && Has(b.children, Key(c.children[j])) ==>
         NoLeafOverBlock(b.children[First(b.children, Key(c.children[j]))], c.children[j]))
  }

  lemma {:induction false} PutsCommute(a: seq<KV>, c: KV, r: KV, e: nat)
    requires Has(a, Key(c)) && Key(r) != Key(c)
    ensures Put(Put(a, c, e), r, e) == Put(Put(a, r, e), c, e)
  {
    PutFirst(a, c, e, Key(r));
    PutFirst(a, r, e, Key(c));
  }

  predicate Passes(a: seq<KV>, r: KV, c: KV, e: nat) {
    Key(r) != Key(c) || (e >= 1 && Covers(a, r))
  }

  /** Merging c into a place that is already there can be done before or after the rest. */
  lemma {:induction false} PutPastRest(a: seq<KV>, c: KV, rest: seq<KV>, e: nat)
    requires Has(a, Key(c))
    requires forall i :: 0 <= i < |rest| ==> Passes(a, rest[i], c, e)
    ensures MergeAll(Put(a, c, e), rest, e) == Put(MergeAll(a, rest, e), c, e)
  {
    if rest != [] {
      var n := |rest| - 1;
      var r, m := rest[n], MergeAll(a, rest[..n], e);
      forall i | 0 <= i < n ensures Passes(a, rest[..n][i], c, e) {
        assert Passes(a, rest[i], c, e);
      }
      PutPastRest(a, c, rest[..n], e);
      AllFirst(a, rest[..n], e, Key(c));
      if Key(r) != Key(c) {
        PutsCommute(m, c, r, e);
      } else {
        CoversGrows(a, rest[..n], r, e);
        CoveredIsNoOp(m, r, e);
        CoversGrows(m, [c], r, e);
        assert MergeAll(m, [c], e) == Put(m, c, e) by {
          assert [c][..0] == [] && MergeAll(m, [], e) == m;
        }
        CoveredIsNoOp(Put(m, c, e), r, e);
      }
    }
  }

  ghost predicate ChildrenAssoc(bs: seq<KV>, cs: seq<KV>, e: nat) {
    forall j :: 0 <= j < |cs| && First(cs, Key(cs[j])) == j && Has(bs, Key(cs[j])) ==>
      Assoc(bs[First(bs, Key(cs[j]))], cs[j], e + 1)
  }

  lemma {:induction false} PutAssoc(a: seq<KV>, x: KV, c: KV, e: nat)
    requires Key(x) == Key(c) && Assoc(x, c, e + 1)
    ensures Put(a, Merge(x, c, e + 1), e) == Put(Put(a, x, e), c, e)
    ensures Has(Put(a, x, e), Key(c))
  {
    assert Key(Merge(x, c, e + 1)) == Key(x);
    PutFirst(a, x, e, Key(c));
    if Has(a, Key(c)) {
      assert AssocAt(a[First(a, Key(c))], x, c, e + 1);
    }
  }

  lemma {:induction false} FreshMatched(ts: seq<KV>, xs: seq<KV>, i: nat, c: KV, e: nat)
    requires i < |xs| && Key(xs[i]) == Key(c) && Assoc(xs[i], c, e + 1)
    requires forall k :: i < k < |xs| ==> Passes(Put(MergeAll(ts, xs[..i], e), xs[i], e), xs[k], c, e)
    ensures MergeAll(ts, xs[i := Merge(xs[i], c, e + 1)], e) == Put(MergeAll(ts, xs, e), c, e)
  {
    var x, rest := xs[i], xs[i + 1..];
    var ys := xs[i := Merge(x, c, e + 1)];
    var a0 := MergeAll(ts, xs[..i], e);
    PutAssoc(a0, x, c, e);
    AllSplit(ts, xs, i, e);
    AllSplit(ts, ys, i, e);
    assert ys[..i] == xs[..i] && ys[i + 1..] == rest;
    forall k | 0 <= k < |rest| ensures Passes(Put(a0, x, e), rest[k], c, e) {
      assert Passes(Put(a0, x, e), xs[i + 1 + k], c, e);
    }
    PutPastRest(Put(a0, x, e), c, rest, e);
  }

  /** The first occurrence of a name, merged into the base first or into the result. */
  lemma {:induction false} FreshStep(ts: seq<KV>, bs: seq<KV>, cs: seq<KV>, c: KV, e: nat)
    requires LevelOk(bs, e) && !Has(cs, Key(c))
    requires Has(bs, Key(c)) ==> Assoc(bs[First(bs, Key(c))], c, e + 1)
    ensures MergeAll(ts, Put(MergeAll(bs, cs, e), c, e), e) == Put(MergeAll(ts, MergeAll(bs, cs, e), e), c, e)
  {
    var xs := MergeAll(bs, cs, e);
    AllFirst(bs, cs, e, Key(c));
    if !Has(xs, Key(c)) {
      assert (xs + [c])[..|xs|] == xs;
    } else {
      var i := First(bs, Key(c));
      Untouched(bs, cs, e, i);
      var a0 := MergeAll(ts, xs[..i], e);
      forall k | i < k < |xs| ensures Passes(Put(a0, xs[i], e), xs[k], c, e) {
        if Key(xs[k]) == Key(c) {
          RestPasses(bs, cs, c, e, i, k, a0);
        }
      }
      FreshMatched(ts, xs, i, c, e);
    }
  }

  lemma {:induction false} RestPasses(bs: seq<KV>, cs: seq<KV>, c: KV, e: nat, i: nat, k: nat, a0: seq<KV>)
    requires LevelOk(bs, e) && !Has(cs, Key(c)) && i == First(bs, Key(c)) < k < |MergeAll(bs, cs, e)|
    requires i < |bs| && Key(MergeAll(bs, cs, e)[k]) == Key(c)
    ensures e >= 1 && Covers(Put(a0, bs[i], e), MergeAll(bs, cs, e)[k])
  {
    if k >= |bs| {
      AppendedKeys(bs, cs, e, k);
    }
    KeysStay(bs, cs, e, k);
    Untouched(bs, cs, e, k);
    assert Subsumes(bs, bs[k]);
    PutAfterMerge(a0, bs[i], bs[k], e);
  }

  lemma {:induction false} ChildrenAssocPrefix(bs: seq<KV>, cs: seq<KV>, e: nat, n: nat)
    requires ChildrenAssoc(bs, cs, e) && n <= |cs|
    ensures ChildrenAssoc(bs, cs[..n], e)
  {
    hide Assoc;
    forall j | 0 <= j < n && First(cs[..n], Key(cs[j])) == j && Has(bs, Key(cs[j]))
      ensures Assoc(bs[First(bs, Key(cs[j]))], cs[..n][j], e + 1)
    {
      FirstPrefix(cs, n, Key(cs[j]));
    }
  }

  lemma {:induction false} AssocLists(ts: seq<KV>, bs: seq<KV>, cs: seq<KV>, e: nat)
    requires LevelOk(bs, e) && LevelOk(cs, e) && ChildrenAssoc(bs, cs, e)
    ensures MergeAll(MergeAll(ts, bs, e), cs, e) == MergeAll(ts, MergeAll(bs, cs, e), e)
    decreases |cs|
  {
    hide LevelOk, Merge, Assoc;
    if cs != [] {
      var n := |cs| - 1;
      var c := cs[n];
      LevelPrefix(cs, n, e);
      ChildrenAssocPrefix(bs, cs, e, n);
      AssocLists(ts, bs, cs[..n], e);
      FirstPrefix(cs, n, Key(c));
      if First(cs, Key(c)) < n {
        RepeatIsNoOp(MergeAll(ts, bs, e), cs, e);
        RepeatIsNoOp(bs, cs, e);
      } else {
        FreshStep(ts, bs, cs[..n], c, e);
      }
    }
  }

  // ---- All depths ----

  /** A usable base: settled, and at the top level without a repeated section. */
  predicate BaseOk(b: KV, depth: nat) {
    Settled(b) && (depth == 0 && b.Block? ==> DistinctKeys(b.children))
  }

  lemma {:induction false} BaseLevel(b: KV, depth: nat)
    requires BaseOk(b, depth) && b.Block?
    ensures LevelOk(b.children, depth)
    ensures forall i :: 0 <= i < |b.children| && First(b.children, Key(b.children[i])) == i ==> Settled(b.children[i])
  {
    forall i | 0 <= i < |b.children| && First(b.children, Key(b.children[i])) == i ensures Settled(b.children[i]) {
      assert Subsumes(b.children, b.children[i]);
    }
  }

  /** By name, merging blocks is merging their children, whatever the order they end up in. */
  lemma {:induction false} MergePick(t: KV, b: KV, depth: nat, key: string)
    requires t.Block? && b.Block? && LevelOk(b.children, depth)
    ensures Pick(Merge(t, b, depth).children, key) ==
            PickBoth(Pick(t.children, key), Pick(b.children, key), depth + 1)
  {
    PickMerged(t.children, b.children, depth, key);
    ArrangedPicks(t.children, b.children, depth, key);
  }

  /** A merge of usable bases is a usable base. */
  lemma {:induction false} BasesClose(b: KV, c: KV, depth: nat)
    requires BaseOk(b, depth) && BaseOk(c, depth)
    ensures BaseOk(Merge(b, c, depth), depth)
    decreases c
  {
    hide First, LowerName, MergeAll, Hits;
    if b.Block? && c.Block? {
      var bs, cs := b.children, c.children;
      BaseLevel(b, depth);
      BaseLevel(c, depth);
      forall key | Has(bs, key) && Has(cs, key)
        ensures Settled(Merge(bs[First(bs, key)], cs[First(cs, key)], depth + 1))
      {
        BasesClose(bs[First(bs, key)], cs[First(cs, key)], depth + 1);
      }
      LevelsClose(bs, cs, depth);
      if BaseOrdered(b, depth) {
        ArrangedLevel(bs, cs, depth);
      }
    }
  }

  lemma {:induction false} AssocAllDepths(b: KV, c: KV, depth: nat)
    requires BaseOk(b, depth) && BaseOk(c, depth) && Key(b) == Key(c) && NoLeafOverBlock(b, c)
    ensures Assoc(b, c, depth)
    decreases c
  {
    if b.Block? && c.Block? {
      var bs, cs := b.children, c.children;
      BaseLevel(b, depth);
      BaseLevel(c, depth);
      forall j | 0 <= j < |cs| && First(cs, Key(cs[j])) == j && Has(bs, Key(cs[j]))
        ensures Assoc(bs[First(bs, Key(cs[j]))], cs[j], depth + 1)
      {
        AssocAllDepths(bs[First(bs, Key(cs[j]))], cs[j], depth + 1);
      }
      BasesClose(b, c, depth);
      forall t | Key(t) == Key(b) ensures AssocAt(t, b, c, depth) {
        if t.Block? {
          AssocBlocks(t, b, c, depth);
        }
      }
    } else {
      forall t | Key(t) == Key(b) ensures AssocAt(t, b, c, depth) {
        if c.Block? {
          EmptyAddsNothing(t, c, depth);
        }
      }
    }
  }

  lemma {:induction false} EmptyAddsNothing(t: KV, c: KV, depth: nat)
    requires c.Leaf? || c.children == []
    ensures Merge(t, c, depth) == t
  {
    if t.Block? && c.Block? {
      NoHits(t.children, |t.children|);
    }
  }

  lemma {:induction false} AssocBlocks(t: KV, b: KV, c: KV, depth: nat)
    requires t.Block? && b.Block? && c.Block? && Key(t) == Key(b) == Key(c)
    requires BaseOk(b, depth) && BaseOk(c, depth) && BaseOk(Merge(b, c, depth), depth)
    requires ChildrenAssoc(b.children, c.children, depth)
    ensures AssocAt(t, b, c, depth)
  {
    var ts, bs, cs := t.children, b.children, c.children;
    BaseLevel(b, depth);
    BaseLevel(c, depth);
    if BaseOrdered(t, depth) {
      BaseLevel(Merge(b, c, depth), depth);
      forall key ensures NameAssoc(ts, bs, cs, depth, key) {
        NamesAssoc(ts, bs, cs, depth, key);
      }
      ArrangedAssoc(ts, bs, cs, depth);
    } else {
      AssocLists(ts, bs, cs, depth);
    }
  }

  lemma {:induction false} NamesAssoc(ts: seq<KV>, bs: seq<KV>, cs: seq<KV>, e: nat, key: string)
    requires ChildrenAssoc(bs, cs, e)
    ensures NameAssoc(ts, bs, cs, e, key)
  {
  }

  // ---- Exactly when ----

  /** Grouping freely is inherited by the children that match by name. */
  lemma {:induction false} GroupsInside(k: KV, b: KV, c: KV, depth: nat, name: string)
    requires BaseOk(b, depth) && BaseOk(c, depth) && b.Block? && c.Block?
    requires Has(b.children, Key(k)) && Has(c.children, Key(k))
    requires AssocAt(Block(name, [k]), b, c, depth)
    ensures AssocAt(k, b.children[First(b.children, Key(k))], c.children[First(c.children, Key(k))], depth + 1)
  {
    var t, key := Block(name, [k]), Key(k);
    assert First([k], key) == 0;
    BaseLevel(b, depth);
    BaseLevel(c, depth);
    MergePick(t, b, depth, key);
    MergePick(Merge(t, b, depth), c, depth, key);
    BasesClose(b, c, depth);
    BaseLevel(Merge(b, c, depth), depth);
    MergePick(b, c, depth, key);
    MergePick(t, Merge(b, c, depth), depth, key);
  }

  lemma {:induction false} SomethingMerged(c: KV, name: string, depth: nat)
    requires c.Block? && c.children != []
    ensures Merge(Block(name, []), c, depth) != Block(name, [])
  {
    var k := c.children[0];
    assert First(c.children, Key(k)) == 0;
    AllFirst([], c.children, depth, Key(k));
    ArrangedPicks([], c.children, depth, Key(k));
  }

  /** A derived tree on which the grouping shows. */
  lemma {:induction false} GroupingShows(b: KV, c: KV, depth: nat, name: string) returns (t: KV)
    requires BaseOk(b, depth) && BaseOk(c, depth) && !NoLeafOverBlock(b, c)
    ensures t.name == name && !AssocAt(t, b, c, depth)
    decreases c
  {
    if b.Leaf? {
      t := Block(name, []);
      SomethingMerged(c, name, depth);
    } else {
      var bs, cs := b.children, c.children;
      var j :| 0 <= j < |cs| && First(cs, Key(cs[j])) == j && Has(bs, Key(cs[j]))
        && !NoLeafOverBlock(bs[First(bs, Key(cs[j]))], cs[j]);
      BaseLevel(b, depth);
      BaseLevel(c, depth);
      var k := GroupingShows(bs[First(bs, Key(cs[j]))], cs[j], depth + 1, cs[j].name);
      t := Block(name, [k]);
      if AssocAt(t, b, c, depth) {
        GroupsInside(k, b, c, depth, name);
      }
    }
  }

  /** The grouping of a chain of settled bases does not matter, as ordered trees and at every depth -
      top level, sections in engine order, sections in base order, definitions - exactly when no leaf of
      the nearer base meets a block of the further one. */
  lemma {:induction false} GroupsFreelyExactly(b: KV, c: KV, depth: nat)
    requires BaseOk(b, depth) && BaseOk(c, depth) && Key(b) == Key(c)
    ensures Assoc(b, c, depth) <==> NoLeafOverBlock(b, c)
  {
    if NoLeafOverBlock(b, c) {
      AssocAllDepths(b, c, depth);
    } else {
      var t := GroupingShows(b, c, depth, b.name);
      assert !AssocAt(t, b, c, depth);
    }
  }
}
