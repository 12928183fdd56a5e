/** Base order composes: arranging onto an arranged section is arranging onto its parts. The arranged list is
    described name by name: which children lead, one for each of the base's names, and which are left over
    behind them. Two arrangements are equal when they lead with the same children and leave the same ones over,
    and that is shown for the two groupings of three lists. */
module BaseOrderLaws {
  import opened Options
  import opened KeyValues
  import opened MergeLaws
  import opened BaseOrder
  import Sorting

  function Without(fk: seq<string>, names: set<string>): seq<string> {
    if fk == [] then []
    else
      var n := |fk| - 1;
      if fk[n] in names then Without(fk[..n], names) else Without(fk[..n], names) + [fk[n]]
  }

  lemma {:induction false} WithoutMembers(fk: seq<string>, names: set<string>)
    ensures forall key :: key in Without(fk, names) ==> key in fk && key !in names
  {
    if fk != [] {
      WithoutMembers(fk[..|fk| - 1], names);
    }
  }

  predicate AllIn(bs: seq<KV>, fk: seq<string>) {
    forall k :: 0 <= k < |fk| ==> Has(bs, fk[k])
  }

  /** For each of these names of the base: the derived side's child with the base's merged in, or the base's. */
  function Leads(ts: seq<KV>, bs: seq<KV>, fk: seq<string>, e: nat): (r: seq<KV>)
    requires AllIn(bs, fk)
    ensures |r| == |fk|
    ensures forall k :: 0 <= k < |fk| ==>
              Some(r[k]) == PickBoth(Pick(ts, fk[k]), Pick(bs, fk[k]), e + 1) && Key(r[k]) == fk[k]
  {
    seq(|fk|, k requires 0 <= k < |fk| => PickBoth(Pick(ts, fk[k]), Pick(bs, fk[k]), e + 1).value)
  }

  lemma {:induction false} AllInFirstKeys(bs: seq<KV>)
    ensures AllIn(bs, FirstKeys(bs)) && Sorting.NoDup(FirstKeys(bs))
  {
    FirstKeysDistinct(bs);
  }

  lemma {:induction false} ClosedHead(ts: seq<KV>, bs: seq<KV>, e: nat, r: seq<KV>)
    requires LevelOk(bs, e) && |r| == |FirstKeys(bs)| && AllIn(bs, FirstKeys(bs))
    requires forall k :: 0 <= k < |r| ==> Pick(MergeAll(ts, bs, e), FirstKeys(bs)[k]) == Some(r[k])
    ensures r == Leads(ts, bs, FirstKeys(bs), e)
  {
    forall k | 0 <= k < |r| ensures r[k] == Leads(ts, bs, FirstKeys(bs), e)[k] {
      PickMerged(ts, bs, e, FirstKeys(bs)[k]);
    }
  }

  lemma {:induction false} Closed(ts: seq<KV>, bs: seq<KV>, e: nat)
    requires LevelOk(bs, e)
    ensures AllIn(bs, FirstKeys(bs)) && Sorting.NoDup(FirstKeys(bs))
    ensures Arranged(ts, bs, e) == Leads(ts, bs, FirstKeys(bs), e) + Leftover(ts, KeysOf(bs))
  {
    hide *;
    AllInFirstKeys(bs);
    ArrangedShape(ts, bs, e);
    var r, n := Arranged(ts, bs, e), |FirstKeys(bs)|;
    ClosedHead(ts, bs, e, r[..n]);
    assert r == r[..n] + r[n..];
  }

  // ---- Leftovers ----

  lemma {:induction false} LeftoverHas(ks: seq<KV>, names: set<string>, key: string)
    requires key !in names
    ensures Has(Leftover(ks, names), key) <==> Has(ks, key)
  {
    if ks != [] {
      var n := |ks| - 1;
      LeftoverHas(ks[..n], names, key);
      PickPrefix(ks, key);
      PickConcat(Leftover(ks[..n], names), [ks[n]], key);
    }
  }

  lemma {:induction false} LeftoverTwice(ks: seq<KV>, a: set<string>, b: set<string>)
    requires a !! b
    ensures Leftover(Leftover(ks, a), b) == Leftover(ks, a + b)
  {
    if ks != [] {
      var n := |ks| - 1;
      var l, x := Leftover(ks[..n], a), ks[n];
      LeftoverTwice(ks[..n], a, b);
      assert (l + [x])[..|l|] == l;
      if Key(x) in b {
        LeftoverHas(ks[..n], a, Key(x));
      }
    }
  }

  lemma {:induction false} LeftoverConcat(u: seq<KV>, v: seq<KV>, names: set<string>)
    ensures Leftover(u + v, names) == Leftover(u, names) + Leftover(v, names - KeysOf(u))
    decreases |v|
  {
    if v == [] {
      assert u + v == u;
    } else {
      var n := |v| - 1;
      var key := Key(v[n]);
      assert (u + v)[..|u + v| - 1] == u + v[..n];
      LeftoverConcat(u, v[..n], names);
      PickConcat(u, v[..n], key);
      HasInKeys(u, key);
    }
  }

  lemma {:induction false} LeftoverLeads(ts: seq<KV>, bs: seq<KV>, fk: seq<string>, e: nat, names: set<string>)
    requires AllIn(bs, fk) && Sorting.NoDup(fk)
    ensures AllIn(bs, Without(fk, names))
    ensures Leftover(Leads(ts, bs, fk, e), names) == Leads(ts, bs, Without(fk, names), e)
    decreases |fk|
  {
    if fk != [] {
      var n := |fk| - 1;
      var u := Leads(ts, bs, fk, e);
      assert u[..n] == Leads(ts, bs, fk[..n], e);
      LeftoverLeads(ts, bs, fk[..n], e, names);
      FirstUnique(u[..n], fk[n], n);
      LeadsConcat(ts, bs, Without(fk[..n], names), [fk[n]], e);
      assert [u[n]] == Leads(ts, bs, [fk[n]], e);
    }
  }

  lemma {:induction false} LeadsConcat(ts: seq<KV>, bs: seq<KV>, f: seq<string>, g: seq<string>, e: nat)
    requires AllIn(bs, f) && AllIn(bs, g)
    ensures AllIn(bs, f + g)
    ensures Leads(ts, bs, f + g, e) == Leads(ts, bs, f, e) + Leads(ts, bs, g, e)
  {
    forall k | 0 <= k < |f + g| ensures Has(bs, (f + g)[k]) {
      if k >= |f| {
        assert (f + g)[k] == g[k - |f|];
      }
    }
  }

  // ---- First keys ----

  lemma {:induction false} FirstKeysConcat(u: seq<KV>, v: seq<KV>)
    ensures FirstKeys(u + v) == FirstKeys(u) + Without(FirstKeys(v), KeysOf(u))
    decreases |v|
  {
    if v == [] {
      assert u + v == u;
    } else {
      var n := |v| - 1;
      var key := Key(v[n]);
      assert (u + v)[..|u + v| - 1] == u + v[..n];
      FirstKeysConcat(u, v[..n]);
      PickConcat(u, v[..n], key);
      HasInKeys(u, key);
      var fk := FirstKeys(v[..n]);
      assert (fk + [key])[..|fk|] == fk;
    }
  }

  lemma {:induction false} KeysOfNames(u: seq<KV>, fk: seq<string>)
    requires |u| == |fk| && forall k :: 0 <= k < |fk| ==> Key(u[k]) == fk[k]
    ensures KeysOf(u) == set key | key in fk
  {
    hide LowerName;
    forall key ensures key in KeysOf(u) <==> key in fk {
      if key in fk {
        var k :| 0 <= k < |fk| && fk[k] == key;
        assert Key(u[k]) == key;
      }
    }
  }

  lemma {:induction false} FirstKeysOfLeads(ts: seq<KV>, bs: seq<KV>, fk: seq<string>, e: nat)
    requires AllIn(bs, fk) && Sorting.NoDup(fk)
    ensures FirstKeys(Leads(ts, bs, fk, e)) == fk
    ensures KeysOf(Leads(ts, bs, fk, e)) == set key | key in fk
  {
    hide FirstKeys, LowerName, First;
    var u := Leads(ts, bs, fk, e);
    KeysOfNames(u, fk);
    DistinctFirstKeys(u);
  }

  lemma {:induction false} FirstKeysOfLeftover(ks: seq<KV>, names: set<string>)
    ensures Without(FirstKeys(Leftover(ks, names)), names) == Without(FirstKeys(ks), names)
  {
    if ks != [] {
      var n := |ks| - 1;
      var l, x := Leftover(ks[..n], names), ks[n];
      FirstKeysOfLeftover(ks[..n], names);
      assert (l + [x])[..|l|] == l;
      var f, g := FirstKeys(l), FirstKeys(ks[..n]);
      assert (f + [Key(x)])[..|f|] == f && (g + [Key(x)])[..|g|] == g;
      if Key(x) !in names {
        LeftoverHas(ks[..n], names, Key(x));
      }
    }
  }

  lemma {:induction false} KeysAreFirstKeys(bs: seq<KV>)
    ensures KeysOf(bs) == set key | key in FirstKeys(bs)
  {
    FirstKeysDistinct(bs);
    forall key ensures key in KeysOf(bs) <==> key in FirstKeys(bs) {
      HasInKeys(bs, key);
    }
  }

  // ---- The two groupings ----

  /** What comes after the names of cs when cs is arranged onto ts arranged onto bs. */
  lemma {:induction false} TailLeft(ts: seq<KV>, bs: seq<KV>, cs: seq<KV>, e: nat)
    requires LevelOk(bs, e)
    ensures AllIn(bs, Without(FirstKeys(bs), KeysOf(cs)))
    ensures Leftover(Arranged(ts, bs, e), KeysOf(cs)) ==
            Leads(ts, bs, Without(FirstKeys(bs), KeysOf(cs)), e) + Leftover(ts, KeysOf(bs) + KeysOf(cs))
  {
    var fk, kb, kc := FirstKeys(bs), KeysOf(bs), KeysOf(cs);
    Closed(ts, bs, e);
    var u, v := Leads(ts, bs, fk, e), Leftover(ts, kb);
    LeftoverConcat(u, v, kc);
    LeftoverLeads(ts, bs, fk, e, kc);
    FirstKeysOfLeads(ts, bs, fk, e);
    KeysAreFirstKeys(bs);
    LeftoverTwice(ts, kb, kc - kb);
    assert kb + (kc - kb) == kb + kc;
  }

  /** The names of cs arranged onto bs: those of cs first, then those only bs has. */
  lemma {:induction false} NamesOfArranged(bs: seq<KV>, cs: seq<KV>, e: nat)
    requires LevelOk(cs, e)
    ensures FirstKeys(Arranged(bs, cs, e)) == FirstKeys(cs) + Without(FirstKeys(bs), KeysOf(cs))
    ensures KeysOf(Arranged(bs, cs, e)) == KeysOf(bs) + KeysOf(cs)
  {
    var fk := FirstKeys(cs);
    Closed(bs, cs, e);
    var u, v := Leads(bs, cs, fk, e), Leftover(bs, KeysOf(cs));
    FirstKeysConcat(u, v);
    FirstKeysOfLeads(bs, cs, fk, e);
    KeysAreFirstKeys(cs);
    FirstKeysOfLeftover(bs, KeysOf(cs));
    forall key ensures key in KeysOf(Arranged(bs, cs, e)) <==> key in KeysOf(bs) + KeysOf(cs) {
      HasInKeys(Arranged(bs, cs, e), key);
      ArrangedPicks(bs, cs, e, key);
      AllFirst(bs, cs, e, key);
      HasInKeys(bs, key);
      HasInKeys(cs, key);
    }
  }

  /** One name: the derived side's child, the base's and the further base's, grouped either way. */
  ghost predicate NameAssoc(ts: seq<KV>, bs: seq<KV>, cs: seq<KV>, e: nat, key: string) {
    PickBoth(PickBoth(Pick(ts, key), Pick(bs, key), e + 1), Pick(cs, key), e + 1) ==
    PickBoth(Pick(ts, key), PickBoth(Pick(bs, key), Pick(cs, key), e + 1), e + 1)
  }

  lemma {:induction false} NamePicks(ts: seq<KV>, bs: seq<KV>, cs: seq<KV>, e: nat, key: string)
    requires LevelOk(bs, e) && LevelOk(cs, e)
    ensures Pick(Arranged(ts, bs, e), key) == PickBoth(Pick(ts, key), Pick(bs, key), e + 1)
    ensures Pick(Arranged(bs, cs, e), key) == PickBoth(Pick(bs, key), Pick(cs, key), e + 1)
  {
    ArrangedPicks(ts, bs, e, key);
    PickMerged(ts, bs, e, key);
    ArrangedPicks(bs, cs, e, key);
    PickMerged(bs, cs, e, key);
  }

  lemma {:induction false} HeadLeads(ts: seq<KV>, bs: seq<KV>, cs: seq<KV>, fk: seq<string>, e: nat)
    requires LevelOk(bs, e) && LevelOk(cs, e)
    requires forall key :: NameAssoc(ts, bs, cs, e, key)
    requires AllIn(cs, fk) && AllIn(Arranged(bs, cs, e), fk)
    ensures Leads(Arranged(ts, bs, e), cs, fk, e) == Leads(ts, Arranged(bs, cs, e), fk, e)
  {
    forall k | 0 <= k < |fk|
      ensures Leads(Arranged(ts, bs, e), cs, fk, e)[k] == Leads(ts, Arranged(bs, cs, e), fk, e)[k]
    {
      NamePicks(ts, bs, cs, e, fk[k]);
      assert NameAssoc(ts, bs, cs, e, fk[k]);
    }
  }

  lemma {:induction false} TailLeads(ts: seq<KV>, bs: seq<KV>, cs: seq<KV>, fk: seq<string>, e: nat)
    requires LevelOk(bs, e) && LevelOk(cs, e)
    requires AllIn(bs, fk) && AllIn(Arranged(bs, cs, e), fk)
    requires forall k :: 0 <= k < |fk| ==> !Has(cs, fk[k])
    ensures Leads(ts, bs, fk, e) == Leads(ts, Arranged(bs, cs, e), fk, e)
  {
    forall k | 0 <= k < |fk| ensures Leads(ts, bs, fk, e)[k] == Leads(ts, Arranged(bs, cs, e), fk, e)[k] {
      NamePicks(ts, bs, cs, e, fk[k]);
    }
  }

  lemma {:induction false} GroupedLeft(ts: seq<KV>, bs: seq<KV>, cs: seq<KV>, e: nat)
    requires LevelOk(bs, e) && LevelOk(cs, e)
    ensures var fc, fb := FirstKeys(cs), Without(FirstKeys(bs), KeysOf(cs));
            && AllIn(cs, fc) && AllIn(bs, fb)
            && Arranged(Arranged(ts, bs, e), cs, e) ==
               Leads(Arranged(ts, bs, e), cs, fc, e) + (Leads(ts, bs, fb, e) + Leftover(ts, KeysOf(bs) + KeysOf(cs)))
  {
    Closed(Arranged(ts, bs, e), cs, e);
    TailLeft(ts, bs, cs, e);
  }

  lemma {:induction false} AllInParts(x: seq<KV>, f: seq<string>, g: seq<string>)
    requires AllIn(x, f + g)
    ensures AllIn(x, f) && AllIn(x, g)
  {
    forall k | 0 <= k < |f| ensures Has(x, f[k]) {
      assert f[k] == (f + g)[k];
    }
    forall k | 0 <= k < |g| ensures Has(x, g[k]) {
      assert g[k] == (f + g)[|f| + k];
    }
  }

  lemma {:induction false} GroupedRight(ts: seq<KV>, bs: seq<KV>, cs: seq<KV>, e: nat)
    requires LevelOk(cs, e) && LevelOk(Arranged(bs, cs, e), e)
    ensures var x, fc, fb := Arranged(bs, cs, e), FirstKeys(cs), Without(FirstKeys(bs), KeysOf(cs));
            && AllIn(x, fc) && AllIn(x, fb)
            && Arranged(ts, x, e) ==
               Leads(ts, x, fc, e) + (Leads(ts, x, fb, e) + Leftover(ts, KeysOf(bs) + KeysOf(cs)))
  {
    hide *;
    var x, fc, fb := Arranged(bs, cs, e), FirstKeys(cs), Without(FirstKeys(bs), KeysOf(cs));
    Closed(ts, x, e);
    NamesOfArranged(bs, cs, e);
    AllInParts(x, fc, fb);
    LeadsConcat(ts, x, fc, fb, e);
    var l := Leftover(ts, KeysOf(bs) + KeysOf(cs));
    assert Arranged(ts, x, e) == Leads(ts, x, fc, e) + Leads(ts, x, fb, e) + l;
  }

  /** Arranging is associative where merging the children is. */
  lemma {:induction false} ArrangedAssoc(ts: seq<KV>, bs: seq<KV>, cs: seq<KV>, e: nat)
    requires e >= 1 && LevelOk(bs, e) && LevelOk(cs, e) && LevelOk(Arranged(bs, cs, e), e)
    requires forall key :: NameAssoc(ts, bs, cs, e, key)
    ensures Arranged(Arranged(ts, bs, e), cs, e) == Arranged(ts, Arranged(bs, cs, e), e)
  {
    var fc, fb := FirstKeys(cs), Without(FirstKeys(bs), KeysOf(cs));
    GroupedLeft(ts, bs, cs, e);
    GroupedRight(ts, bs, cs, e);
    HeadLeads(ts, bs, cs, fc, e);
    WithoutMembers(FirstKeys(bs), KeysOf(cs));
    forall k | 0 <= k < |fb| ensures !Has(cs, fb[k]) {
      HasInKeys(cs, fb[k]);
    }
    TailLeads(ts, bs, cs, fb, e);
  }
}
