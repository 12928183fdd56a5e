/** The section kept in base order: what is rearranged, what stays, and that no lookup can tell. */
module BaseOrder {
  import opened Options
  import opened KeyValues
  import opened Rearrange
  import opened MergeLaws

  /** A section's children merged and rearranged. */
  function Arranged(ts: seq<KV>, bs: seq<KV>, e: nat): seq<KV> {
    Reorder(MergeAll(ts, bs, e), Hits(ts, bs, e))
  }

  function KeysOf(ks: seq<KV>): set<string> {
    set i | 0 <= i < |ks| :: Key(ks[i])
  }

  /** The names, each once, in the order they first appear. */
  function FirstKeys(ks: seq<KV>): seq<string> {
    if ks == [] then []
    else
      var n := |ks| - 1;
      if Has(ks[..n], Key(ks[n])) then FirstKeys(ks[..n]) else FirstKeys(ks[..n]) + [Key(ks[n])]
  }

  /** ks without the first child of each of these names. */
  function Leftover(ks: seq<KV>, names: set<string>): seq<KV> {
    if ks == [] then []
    else
      var n := |ks| - 1;
      if Key(ks[n]) in names && !Has(ks[..n], Key(ks[n])) then Leftover(ks[..n], names)
      else Leftover(ks[..n], names) + [ks[n]]
  }

  lemma {:induction false} HasInKeys(ks: seq<KV>, key: string)
    ensures Has(ks, key) <==> key in KeysOf(ks)
  {
  }

  // ---- Where the hits are ----

  /** The hits are where the base's names are first found, in the order of the base's names. */
  lemma {:induction false} HitsAreFirsts(ts: seq<KV>, bs: seq<KV>, e: nat)
    ensures var m, hs, fk := MergeAll(ts, bs, e), Hits(ts, bs, e), FirstKeys(bs);
            |hs| == |fk| && forall k :: 0 <= k < |hs| ==> hs[k] == First(m, fk[k]) && Has(m, fk[k])
    ensures forall key :: key in FirstKeys(bs) <==> Has(bs, key)
  {
    if bs != [] {
      var n := |bs| - 1;
      var x, m, m' := bs[n], MergeAll(ts, bs[..n], e), MergeAll(ts, bs, e);
      var hs, fk := Hits(ts, bs[..n], e), FirstKeys(bs[..n]);
      HitsAreFirsts(ts, bs[..n], e);
      forall key
        ensures First(m', key) == (if Has(m, key) then First(m, key) else if key == Key(x) then |m| else |m'|)
      {
        PutFirst(m, x, e, key);
      }
      forall key ensures Has(bs, key) <==> Has(bs[..n], key) || key == Key(x) {
        PickPrefix(bs, key);
      }
      var i := First(m, Key(x));
      assert i in hs <==> Has(bs[..n], Key(x)) by {
        if i in hs {
          var k :| 0 <= k < |hs| && hs[k] == i;
          assert fk[k] == Key(x);
        }
        if Has(bs[..n], Key(x)) {
          var k :| 0 <= k < |fk| && fk[k] == Key(x);
          assert hs[k] == i;
        }
      }
    }
  }

  lemma {:induction false} FirstKeysDistinct(ks: seq<KV>)
    ensures forall i, j :: 0 <= i < j < |FirstKeys(ks)| ==> FirstKeys(ks)[i] != FirstKeys(ks)[j]
    ensures forall key :: key in FirstKeys(ks) <==> Has(ks, key)
  {
    if ks != [] {
      FirstKeysDistinct(ks[..|ks| - 1]);
      forall key ensures Has(ks, key) <==> Has(ks[..|ks| - 1], key) || key == Key(ks[|ks| - 1]) {
        PickPrefix(ks, key);
      }
    }
  }

  // ---- Nothing is lost ----

  /** Rearranging loses nothing and repeats nothing. */
  lemma {:induction false} ArrangedPermutes(ts: seq<KV>, bs: seq<KV>, e: nat)
    ensures multiset(Arranged(ts, bs, e)) == multiset(MergeAll(ts, bs, e))
  {
    HitsAreFirsts(ts, bs, e);
    FirstKeysDistinct(bs);
    ReorderPermutes(MergeAll(ts, bs, e), Hits(ts, bs, e));
  }

  // ---- No lookup can tell ----

  lemma {:induction false} PickConcat(a: seq<KV>, b: seq<KV>, key: string)
    ensures Pick(a + b, key) == if Has(a, key) then Pick(a, key) else Pick(b, key)
    ensures First(a + b, key) == if Has(a, key) then First(a, key) else |a| + First(b, key)
  {
    FirstUnique(a + b, key, if Has(a, key) then First(a, key) else |a| + First(b, key));
  }

  lemma {:induction false} OthersPick(ks: seq<KV>, hs: seq<nat>, n: nat, key: string)
    requires n <= |ks|
    ensures First(ks, key) < n && First(ks, key) !in hs ==> Pick(Others(ks, hs, n), key) == Some(ks[First(ks, key)])
    ensures First(ks, key) >= n ==> Pick(Others(ks, hs, n), key) == None
  {
    if n > 0 {
      OthersPick(ks, hs, n - 1, key);
      PickConcat(Others(ks, hs, n - 1), [ks[n - 1]], key);
    }
  }

  /** Every first match is the one the engine's order has. */
  lemma {:induction false} ArrangedPicks(ts: seq<KV>, bs: seq<KV>, e: nat, key: string)
    ensures Pick(Arranged(ts, bs, e), key) == Pick(MergeAll(ts, bs, e), key)
  {
    var m, hs, fk := MergeAll(ts, bs, e), Hits(ts, bs, e), FirstKeys(bs);
    HitsAreFirsts(ts, bs, e);
    FirstKeysDistinct(bs);
    var lead := At(m, hs);
    PickConcat(lead, Others(m, hs, |m|), key);
    OthersPick(m, hs, |m|, key);
    assert forall k :: 0 <= k < |hs| ==> Key(lead[k]) == fk[k];
    if key in fk {
      var k :| 0 <= k < |fk| && fk[k] == key;
      FirstUnique(lead, key, k);
    }
  }

  // ---- Positions ----

  lemma {:induction false} HitOrUntouched(ts: seq<KV>, bs: seq<KV>, e: nat, j: nat)
    requires j < |MergeAll(ts, bs, e)|
    ensures j in Hits(ts, bs, e) || (j < |ts| && MergeAll(ts, bs, e)[j] == ts[j])
  {
    if bs != [] {
      var n := |bs| - 1;
      if j < |MergeAll(ts, bs[..n], e)| {
        HitOrUntouched(ts, bs[..n], e, j);
      }
    }
  }

  /** A child of the derived side is landed on when it is the first of its name and the base has that name. */
  lemma {:induction false} HitExactly(ts: seq<KV>, bs: seq<KV>, e: nat, j: nat)
    requires j < |ts|
    ensures j in Hits(ts, bs, e) <==> Key(ts[j]) in KeysOf(bs) && First(ts, Key(ts[j])) == j
  {
    var m, hs, fk, key := MergeAll(ts, bs, e), Hits(ts, bs, e), FirstKeys(bs), Key(ts[j]);
    HitsAreFirsts(ts, bs, e);
    KeysStay(ts, bs, e, j);
    AllFirst(ts, bs, e, key);
    HasInKeys(bs, key);
    if j in hs {
      var k :| 0 <= k < |hs| && hs[k] == j;
      assert fk[k] == key;
    }
    if key in KeysOf(bs) {
      var k :| 0 <= k < |fk| && fk[k] == key;
      assert hs[k] == First(m, key) == First(ts, key);
    }
  }

  lemma {:induction false} LeftoverIsOthers(ts: seq<KV>, bs: seq<KV>, e: nat, n: nat)
    requires n <= |ts|
    ensures Others(MergeAll(ts, bs, e), Hits(ts, bs, e), n) == Leftover(ts[..n], KeysOf(bs))
  {
    if n > 0 {
      LeftoverIsOthers(ts, bs, e, n - 1);
      HitOrUntouched(ts, bs, e, n - 1);
      HitExactly(ts, bs, e, n - 1);
      assert ts[..n][..n - 1] == ts[..n - 1];
      FirstPrefix(ts, n - 1, Key(ts[n - 1]));
    }
  }

  lemma {:induction false} NothingElse(ts: seq<KV>, bs: seq<KV>, e: nat, n: nat)
    requires |ts| <= n <= |MergeAll(ts, bs, e)|
    ensures Others(MergeAll(ts, bs, e), Hits(ts, bs, e), n) == Others(MergeAll(ts, bs, e), Hits(ts, bs, e), |ts|)
    decreases n
  {
    if n > |ts| {
      NothingElse(ts, bs, e, n - 1);
      HitOrUntouched(ts, bs, e, n - 1);
    }
  }

  /** Base order, exactly: first one child for each of the base's names, in the base's order and whatever
      the derived side restates; then the derived side's other children in their own order, as they were. */
  lemma {:induction false} ArrangedShape(ts: seq<KV>, bs: seq<KV>, e: nat)
    ensures var r, fk := Arranged(ts, bs, e), FirstKeys(bs);
            && |fk| <= |r|
            && (forall k :: 0 <= k < |fk| ==> Key(r[k]) == fk[k] && Pick(MergeAll(ts, bs, e), fk[k]) == Some(r[k]))
            && r[|fk|..] == Leftover(ts, KeysOf(bs))
  {
    var m, hs, fk := MergeAll(ts, bs, e), Hits(ts, bs, e), FirstKeys(bs);
    HitsAreFirsts(ts, bs, e);
    LeftoverIsOthers(ts, bs, e, |ts|);
    NothingElse(ts, bs, e, |m|);
    assert ts[..|ts|] == ts;
    assert Arranged(ts, bs, e)[|fk|..] == Others(m, hs, |m|);
  }

  lemma {:induction false} DistinctFirstKeys(bs: seq<KV>)
    requires DistinctKeys(bs)
    ensures |FirstKeys(bs)| == |bs| && forall k :: 0 <= k < |bs| ==> FirstKeys(bs)[k] == Key(bs[k])
  {
    if bs != [] {
      var n := |bs| - 1;
      DistinctFirstKeys(bs[..n]);
      assert First(bs[..n], Key(bs[n])) == n;
    }
  }

  /** Item ids follow definition order. Where the base defines each name once, every definition of the base
      keeps its position in the merged section, so its id, whatever the derived side holds. */
  lemma {:induction false} BaseKeepsItsIds(ts: seq<KV>, bs: seq<KV>, e: nat)
    requires DistinctKeys(bs)
    ensures |Arranged(ts, bs, e)| >= |bs|
    ensures forall k :: 0 <= k < |bs| ==> Key(Arranged(ts, bs, e)[k]) == Key(bs[k])
  {
    ArrangedShape(ts, bs, e);
    DistinctFirstKeys(bs);
  }

  /** A rearranged level is as good a base as the one it was made from. */
  lemma {:induction false} ArrangedLevel(ts: seq<KV>, bs: seq<KV>, e: nat)
    requires e >= 1 && LevelOk(MergeAll(ts, bs, e), e)
    ensures LevelOk(Arranged(ts, bs, e), e)
  {
    var m, r := MergeAll(ts, bs, e), Arranged(ts, bs, e);
    ArrangedPermutes(ts, bs, e);
    forall i | 0 <= i < |r| ensures Subsumes(r, r[i]) {
      assert r[i] in multiset(r);
      assert r[i] in m;
      var j :| 0 <= j < |m| && m[j] == r[i];
      assert Subsumes(m, m[j]);
      ArrangedPicks(ts, bs, e, Key(r[i]));
    }
  }
}
