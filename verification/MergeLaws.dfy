/** Algebra of the engine-order merge, on trees with repeated keys. Depth 2 and below is where the merge
    is the engine's own whatever the section, so the laws are stated there; the sections and the top
    level build on them in the modules that follow. */
module MergeLaws {
  import opened Options
  import opened KeyValues

  // ---- When a base has nothing to add ----

  /** Everything y holds, d holds already: merging y into d changes nothing. */
  predicate Absorbs(d: KV, y: KV)
    decreases y, 0
  {
    d.Leaf? || y.Leaf? || forall i :: 0 <= i < |y.children| ==> Covers(d.children, y.children[i])
  }

  predicate Covers(ds: seq<KV>, k: KV)
    decreases k, 1
  {
    Has(ds, Key(k)) && Absorbs(ds[First(ds, Key(k))], k)
  }

  /** After x has been merged into anything at all, y has nothing to add. */
  predicate Subsumed(x: KV, y: KV)
    decreases y, 0
  {
    y.Leaf? || y.children == [] ||
    (x.Block? && forall i :: 0 <= i < |y.children| ==> Subsumes(x.children, y.children[i]))
  }

  predicate Subsumes(xs: seq<KV>, k: KV)
    decreases k, 1
  {
    Has(xs, Key(k)) && Subsumed(xs[First(xs, Key(k))], k)
  }

  /** Throughout the tree, a child whose name repeats an earlier sibling's adds nothing to that sibling.
      Trees that repeat only leaves ("weapon" "a", "weapon" "b") are settled. */
  predicate Settled(b: KV) {
    Subsumed(b, b)
  }

  predicate AllSettled(bs: seq<KV>) {
    forall i :: 0 <= i < |bs| ==> Subsumes(bs, bs[i])
  }

  // ---- First ----

  lemma {:induction false} FirstUnique(ks: seq<KV>, key: string, i: nat)
    requires i <= |ks|
    requires i < |ks| ==> Key(ks[i]) == key
    requires forall j :: 0 <= j < i ==> Key(ks[j]) != key
    ensures First(ks, key) == i
  {
  }

  lemma {:induction false} FirstPrefix(ks: seq<KV>, n: nat, key: string)
    requires n <= |ks|
    ensures First(ks[..n], key) == if First(ks, key) < n then First(ks, key) else n
  {
  }

  /** A put keeps every name where it was first found, and adds at most its own. */
  lemma {:induction false} PutFirst(ts: seq<KV>, b: KV, e: nat, key: string)
    ensures First(Put(ts, b, e), key) ==
            if Has(ts, key) then First(ts, key)
            else if key == Key(b) then |ts|
            else |Put(ts, b, e)|
  {
    var r := Put(ts, b, e);
    assert forall j :: 0 <= j < |ts| ==> Key(r[j]) == Key(ts[j]);
    FirstUnique(r, key, if Has(ts, key) then First(ts, key) else if key == Key(b) then |ts| else |r|);
  }

  lemma {:induction false} AllFirst(ts: seq<KV>, bs: seq<KV>, e: nat, key: string)
    ensures Has(ts, key) ==> First(MergeAll(ts, bs, e), key) == First(ts, key)
    ensures Has(MergeAll(ts, bs, e), key) <==> Has(ts, key) || Has(bs, key)
  {
    if bs != [] {
      var n := |bs| - 1;
      AllFirst(ts, bs[..n], e, key);
      PutFirst(MergeAll(ts, bs[..n], e), bs[n], e, key);
      FirstPrefix(bs, n, key);
    }
  }

  lemma {:induction false} AllConcat(ts: seq<KV>, u: seq<KV>, v: seq<KV>, e: nat)
    ensures MergeAll(ts, u + v, e) == MergeAll(MergeAll(ts, u, e), v, e)
    decreases |v|
  {
    if v == [] {
      assert u + v == u;
    } else {
      var n := |v| - 1;
      assert (u + v)[..|u + v| - 1] == u + v[..n];
      AllConcat(ts, u, v[..n], e);
    }
  }

  lemma {:induction false} AllSplit(ts: seq<KV>, bs: seq<KV>, j: nat, e: nat)
    requires j < |bs|
    ensures MergeAll(ts, bs, e) == MergeAll(Put(MergeAll(ts, bs[..j], e), bs[j], e), bs[j + 1..], e)
  {
    assert bs == bs[..j + 1] + bs[j + 1..];
    AllConcat(ts, bs[..j + 1], bs[j + 1..], e);
    assert bs[..j + 1][..j] == bs[..j];
  }

  // ---- Growth: what is held stays held ----

  lemma {:induction false} AbsorbsGrows(d: KV, z: KV, y: KV, depth: nat)
    requires depth >= 2 && Absorbs(d, y)
    ensures Absorbs(Merge(d, z, depth), y)
    decreases y, 2
  {
    if d.Block? && z.Block? && y.Block? {
      forall i | 0 <= i < |y.children| ensures Covers(MergeAll(d.children, z.children, depth), y.children[i]) {
        CoversGrows(d.children, z.children, y.children[i], depth);
      }
    }
  }

  lemma {:induction false} CoversGrows(ds: seq<KV>, zs: seq<KV>, k: KV, e: nat)
    requires e >= 1 && Covers(ds, k)
    ensures Covers(MergeAll(ds, zs, e), k)
    decreases k, 3, |zs|
  {
    if zs != [] {
      var n := |zs| - 1;
      CoversGrows(ds, zs[..n], k, e);
      var m := MergeAll(ds, zs[..n], e);
      PutFirst(m, zs[n], e, Key(k));
      AbsorbsGrows(m[First(m, Key(k))], zs[n], k, e + 1);
    }
  }

  lemma {:induction false} SubsumedGrows(x: KV, z: KV, y: KV, depth: nat)
    requires depth >= 2 && Subsumed(x, y)
    ensures Subsumed(Merge(x, z, depth), y)
    decreases y, 2
  {
    if x.Block? && z.Block? && y.Block? {
      forall i | 0 <= i < |y.children| ensures Subsumes(MergeAll(x.children, z.children, depth), y.children[i]) {
        SubsumesGrows(x.children, z.children, y.children[i], depth);
      }
    }
  }

  lemma {:induction false} SubsumesGrows(xs: seq<KV>, zs: seq<KV>, k: KV, e: nat)
    requires e >= 1 && Subsumes(xs, k)
    ensures Subsumes(MergeAll(xs, zs, e), k)
    decreases k, 3, |zs|
  {
    if zs != [] {
      var n := |zs| - 1;
      SubsumesGrows(xs, zs[..n], k, e);
      var m := MergeAll(xs, zs[..n], e);
      PutFirst(m, zs[n], e, Key(k));
      SubsumedGrows(m[First(m, Key(k))], zs[n], k, e + 1);
    }
  }

  // ---- Absorption ----

  lemma {:induction false} AbsorbedIsNoOp(d: KV, y: KV, depth: nat)
    requires depth >= 2 && Absorbs(d, y)
    ensures Merge(d, y, depth) == d
    decreases y, 0
  {
    if d.Block? && y.Block? {
      CoveredListIsNoOp(d.children, y.children, depth);
    }
  }

  lemma {:induction false} CoveredListIsNoOp(ds: seq<KV>, ys: seq<KV>, e: nat)
    requires e >= 1 && forall i :: 0 <= i < |ys| ==> Covers(ds, ys[i])
    ensures MergeAll(ds, ys, e) == ds
    decreases ys, 1
  {
    if ys != [] {
      var n := |ys| - 1;
      forall i | 0 <= i < n ensures Covers(ds, ys[..n][i]) {
        assert Covers(ds, ys[i]);
      }
      CoveredListIsNoOp(ds, ys[..n], e);
      CoveredIsNoOp(ds, ys[n], e);
    }
  }

  lemma {:induction false} CoveredIsNoOp(ds: seq<KV>, k: KV, e: nat)
    requires e >= 1 && Covers(ds, k)
    ensures Put(ds, k, e) == ds
    decreases k, 1
  {
    AbsorbedIsNoOp(ds[First(ds, Key(k))], k, e + 1);
  }

  lemma {:induction false} SubsumedAbsorbs(x: KV, y: KV)
    requires Subsumed(x, y)
    ensures Absorbs(x, y)
    decreases y
  {
    if x.Block? && y.Block? {
      forall i | 0 <= i < |y.children| ensures Covers(x.children, y.children[i]) {
        var k := y.children[i];
        assert Subsumes(x.children, k);
        SubsumedAbsorbs(x.children[First(x.children, Key(k))], k);
      }
    }
  }

  /** What x subsumes is absorbed by every tree x has been merged into. */
  lemma {:induction false} SubsumedAfterMerge(d: KV, x: KV, y: KV, depth: nat)
    requires depth >= 2 && Subsumed(x, y)
    ensures Absorbs(Merge(d, x, depth), y)
    decreases y, 2
  {
    if d.Block? && y.Block? && y.children != [] {
      forall i | 0 <= i < |y.children| ensures Covers(MergeAll(d.children, x.children, depth), y.children[i]) {
        SubsumesAfterMerge(d.children, x.children, y.children[i], depth);
      }
    }
  }

  lemma {:induction false} PutAfterMerge(m: seq<KV>, x: KV, k: KV, e: nat)
    requires e >= 1 && Key(x) == Key(k) && Subsumed(x, k)
    ensures Covers(Put(m, x, e), k)
    decreases k, 3
  {
    PutFirst(m, x, e, Key(k));
    if Has(m, Key(k)) {
      SubsumedAfterMerge(m[First(m, Key(k))], x, k, e + 1);
    } else {
      SubsumedAbsorbs(x, k);
    }
  }

  lemma {:induction false} SubsumesAfterMerge(ds: seq<KV>, xs: seq<KV>, k: KV, e: nat)
    requires e >= 1 && Subsumes(xs, k)
    ensures Covers(MergeAll(ds, xs, e), k)
    decreases k, 4
  {
    var j := First(xs, Key(k));
    AllSplit(ds, xs, j, e);
    var m := MergeAll(ds, xs[..j], e);
    PutAfterMerge(m, xs[j], k, e);
    CoversGrows(Put(m, xs[j], e), xs[j + 1..], k, e);
  }

  // ---- Levels: the children of one block ----

  predicate DistinctKeys(ks: seq<KV>) {
    forall i, j :: 0 <= i < j < |ks| ==> Key(ks[i]) != Key(ks[j])
  }

  /** What a level of a base must satisfy: settled, and at the top level no section named twice. */
  predicate LevelOk(bs: seq<KV>, e: nat) {
    AllSettled(bs) && (e == 0 ==> DistinctKeys(bs))
  }

  lemma {:induction false} LevelPrefix(bs: seq<KV>, n: nat, e: nat)
    requires n <= |bs| && LevelOk(bs, e)
    ensures LevelOk(bs[..n], e)
  {
  }

  /** A base's own children are untouched by names it does not share. */
  lemma {:induction false} Untouched(bs: seq<KV>, cs: seq<KV>, e: nat, i: nat)
    requires i < |bs| && !Has(cs, Key(bs[i]))
    ensures MergeAll(bs, cs, e)[i] == bs[i]
  {
    if cs != [] {
      var n := |cs| - 1;
      FirstPrefix(cs, n, Key(bs[i]));
      Untouched(bs, cs[..n], e, i);
      assert Key(cs[n]) != Key(bs[i]);
    }
  }

  lemma {:induction false} AppendedKeys(bs: seq<KV>, cs: seq<KV>, e: nat, i: nat)
    requires |bs| <= i < |MergeAll(bs, cs, e)|
    ensures Has(cs, Key(MergeAll(bs, cs, e)[i]))
  {
    var n := |cs| - 1;
    var m := MergeAll(bs, cs[..n], e);
    if i < |m| {
      AppendedKeys(bs, cs[..n], e, i);
      FirstPrefix(cs, n, Key(m[i]));
    }
  }

  lemma {:induction false} KeysStay(bs: seq<KV>, cs: seq<KV>, e: nat, k: nat)
    requires k < |bs|
    ensures Key(MergeAll(bs, cs, e)[k]) == Key(bs[k])
  {
    if cs != [] {
      KeysStay(bs, cs[..|cs| - 1], e, k);
    }
  }

  // ---- First matches ----

  /** The child a lookup by name descends into. */
  function Pick(ks: seq<KV>, key: string): Option<KV> {
    if Has(ks, key) then Some(ks[First(ks, key)]) else None
  }

  function PickBoth(d: Option<KV>, x: Option<KV>, depth: nat): Option<KV> {
    if d.None? then x else if x.None? then d else Some(Merge(d.value, x.value, depth))
  }

  lemma {:induction false} PutPick(ts: seq<KV>, x: KV, e: nat, key: string)
    ensures Pick(Put(ts, x, e), key) == if key == Key(x) then PickBoth(Pick(ts, key), Some(x), e + 1) else Pick(ts, key)
  {
    PutFirst(ts, x, e, key);
  }

  lemma {:induction false} PickPrefix(bs: seq<KV>, key: string)
    requires bs != []
    ensures Pick(bs, key) == if Has(bs[..|bs| - 1], key) then Pick(bs[..|bs| - 1], key)
                             else if key == Key(bs[|bs| - 1]) then Some(bs[|bs| - 1]) else None
  {
    FirstPrefix(bs, |bs| - 1, key);
  }

  /** A child that repeats an earlier name is a no-op wherever the list is merged. */
  lemma {:induction false} RepeatIsNoOp(ts: seq<KV>, bs: seq<KV>, e: nat)
    requires bs != [] && LevelOk(bs, e) && Has(bs[..|bs| - 1], Key(bs[|bs| - 1]))
    ensures MergeAll(ts, bs, e) == MergeAll(ts, bs[..|bs| - 1], e)
  {
    var n := |bs| - 1;
    FirstPrefix(bs, n, Key(bs[n]));
    assert Subsumes(bs, bs[n]);
    assert Subsumes(bs[..n], bs[n]);
    SubsumesAfterMerge(ts, bs[..n], bs[n], e);
    CoveredIsNoOp(MergeAll(ts, bs[..n], e), bs[n], e);
  }

  /** By name, merging lists of children is merging the children. */
  lemma {:induction false} PickMerged(ts: seq<KV>, bs: seq<KV>, e: nat, key: string)
    requires LevelOk(bs, e)
    ensures Pick(MergeAll(ts, bs, e), key) == PickBoth(Pick(ts, key), Pick(bs, key), e + 1)
    decreases |bs|
  {
    if bs != [] {
      var n := |bs| - 1;
      LevelPrefix(bs, n, e);
      PickMerged(ts, bs[..n], e, key);
      PickPrefix(bs, key);
      if Has(bs[..n], Key(bs[n])) {
        RepeatIsNoOp(ts, bs, e);
      } else {
        PutPick(MergeAll(ts, bs[..n], e), bs[n], e, key);
      }
    }
  }

  // ---- Merging keeps trees settled ----

  ghost predicate ChildrenSettle(bs: seq<KV>, cs: seq<KV>, e: nat) {
    forall key :: Has(bs, key) && Has(cs, key) ==>
      Settled(Merge(bs[First(bs, key)], cs[First(cs, key)], e + 1))
  }

  lemma {:induction false} ChildrenSettlePrefix(bs: seq<KV>, cs: seq<KV>, e: nat, n: nat)
    requires n <= |cs| && ChildrenSettle(bs, cs, e)
    ensures ChildrenSettle(bs, cs[..n], e)
  {
    forall key | Has(bs, key) && Has(cs[..n], key)
      ensures Settled(Merge(bs[First(bs, key)], cs[..n][First(cs[..n], key)], e + 1))
    {
      FirstPrefix(cs, n, key);
    }
  }

  lemma {:induction false} FreshIsSettled(bs: seq<KV>, cs: seq<KV>, e: nat, n: nat)
    requires LevelOk(bs, e) && LevelOk(cs, e) && ChildrenSettle(bs, cs, e)
    requires n < |cs| && !Has(cs[..n], Key(cs[n]))
    ensures Settled(cs[n])
    ensures Pick(MergeAll(bs, cs[..n], e), Key(cs[n])) == Pick(bs, Key(cs[n]))
    ensures Has(bs, Key(cs[n])) ==> Settled(Merge(bs[First(bs, Key(cs[n]))], cs[n], e + 1))
  {
    FirstPrefix(cs, n, Key(cs[n]));
    FirstUnique(cs, Key(cs[n]), n);
    assert Subsumes(cs, cs[n]);
    LevelPrefix(cs, n, e);
    PickMerged(bs, cs[..n], e, Key(cs[n]));
  }

  lemma {:induction false} LevelsClose(bs: seq<KV>, cs: seq<KV>, e: nat)
    requires LevelOk(bs, e) && LevelOk(cs, e) && ChildrenSettle(bs, cs, e)
    ensures LevelOk(MergeAll(bs, cs, e), e)
    decreases |cs|
  {
    if cs != [] {
      var n := |cs| - 1;
      var c, xs := cs[n], MergeAll(bs, cs[..n], e);
      LevelPrefix(cs, n, e);
      ChildrenSettlePrefix(bs, cs, e, n);
      LevelsClose(bs, cs[..n], e);
      if Has(cs[..n], Key(c)) {
        RepeatIsNoOp(bs, cs, e);
      } else {
        FreshIsSettled(bs, cs, e, n);
        PutCloses(xs, c, e);
      }
    }
  }

  lemma {:induction false} PutCloses(xs: seq<KV>, c: KV, e: nat)
    requires LevelOk(xs, e) && Settled(c)
    requires Has(xs, Key(c)) ==> Settled(Merge(xs[First(xs, Key(c))], c, e + 1))
    ensures LevelOk(Put(xs, c, e), e)
  {
    var ys := Put(xs, c, e);
    forall k | 0 <= k < |ys| ensures Subsumes(ys, ys[k]) {
      PutClosesAt(xs, c, e, k);
    }
  }

  lemma {:induction false} PutClosesAt(xs: seq<KV>, c: KV, e: nat, k: nat)
    requires LevelOk(xs, e) && Settled(c) && k < |Put(xs, c, e)|
    requires Has(xs, Key(c)) ==> Settled(Merge(xs[First(xs, Key(c))], c, e + 1))
    ensures Subsumes(Put(xs, c, e), Put(xs, c, e)[k])
  {
    hide MergeAll, Merge, LowerName;
    var i, ys := First(xs, Key(c)), Put(xs, c, e);
    var y := ys[k];
    PutFirst(xs, c, e, Key(y));
    if i == |xs| {
      if k == i {
        assert y == c && First(ys, Key(y)) == k;
      } else {
        assert Subsumes(xs, xs[k]);
        assert ys[First(ys, Key(y))] == xs[First(xs, Key(y))];
      }
    } else if k == i {
      assert y == Merge(xs[i], c, e + 1) && First(ys, Key(y)) == k;
    } else {
      assert Subsumes(xs, xs[k]) && y == xs[k];
      if Key(y) == Key(c) {
        SubsumedGrows(xs[i], c, y, e + 1);
      } else {
        assert ys[First(ys, Key(y))] == xs[First(xs, Key(y))];
      }
    }
  }
}
