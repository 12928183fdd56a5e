/** One merge, exactly: for which derived tree and which base every lookup is the overlay of the two. */
module Overlay {
  import opened Options
  import opened KeyValues
  import opened MergeLaws
  import opened Associativity
  import opened Lookups
  import opened Shuffles

  // ---- Children of one name, one after the other ----

  /** A child, or none yet, with all of bs that have this name merged in. */
  function Folded(c: Option<KV>, bs: seq<KV>, key: string, e: nat): (d: Option<KV>)
    ensures c.Some? || Has(bs, key) ==> d.Some?
  {
    if bs == [] then c
    else
      PickPrefix(bs, key);
      var r, last := Folded(c, bs[..|bs| - 1], key, e), bs[|bs| - 1];
      if Key(last) == key then PickBoth(r, Some(last), e + 1) else r
  }

  /** What merging a list does to the first child of a name, whatever the lists repeat. */
  lemma {:induction false} PickFold(ts: seq<KV>, bs: seq<KV>, e: nat, key: string)
    ensures Pick(MergeAll(ts, bs, e), key) == Folded(Pick(ts, key), bs, key, e)
  {
    if bs != [] {
      var n := |bs| - 1;
      PickFold(ts, bs[..n], e, key);
      PutPick(MergeAll(ts, bs[..n], e), bs[n], e, key);
    }
  }

  lemma {:induction false} NoneFolded(c: Option<KV>, bs: seq<KV>, key: string, e: nat)
    requires !Has(bs, key)
    ensures Folded(c, bs, key, e) == c
  {
    if bs != [] {
      PickPrefix(bs, key);
      NoneFolded(c, bs[..|bs| - 1], key, e);
    }
  }

  /** The first child of the name takes the place of what is missing, or is merged into what is there. */
  lemma {:induction false} FirstFolded(c: Option<KV>, bs: seq<KV>, key: string, e: nat)
    requires Has(bs, key)
    ensures Folded(c, bs[..First(bs, key) + 1], key, e) == PickBoth(c, Some(bs[First(bs, key)]), e + 1)
  {
    var i := First(bs, key);
    FirstPrefix(bs, i, key);
    NoneFolded(c, bs[..i], key, e);
    assert bs[..i + 1][..i] == bs[..i];
  }

  /** Nothing a fold has found, and no leaf in its way, is changed by going on. */
  lemma {:induction false} FoldedStays(c: Option<KV>, bs: seq<KV>, n: nat, key: string, e: nat, path: seq<string>)
    requires n <= |bs| && Folded(c, bs[..n], key, e).Some?
    requires !Look(Folded(c, bs[..n], key, e).value, path).MissingAt?
    ensures Folded(c, bs, key, e).Some?
    ensures Look(Folded(c, bs, key, e).value, path) == Look(Folded(c, bs[..n], key, e).value, path)
    decreases |bs|
  {
    hide Merge, Look;
    if n == |bs| {
      assert bs[..n] == bs;
    } else {
      var m := |bs| - 1;
      assert bs[..m][..n] == bs[..n];
      FoldedStays(c, bs[..m], n, key, e, path);
      if Key(bs[m]) == key {
        FoundStays(Folded(c, bs[..m], key, e).value, bs[m], e + 1, path);
      }
    }
  }

  lemma {:induction false} FoldSnoc(c: Option<KV>, bs: seq<KV>, j: nat, e: nat)
    requires j < |bs|
    ensures Folded(c, bs[..j + 1], Key(bs[j]), e) == PickBoth(Folded(c, bs[..j], Key(bs[j]), e), Some(bs[j]), e + 1)
  {
    assert bs[..j + 1][..j] == bs[..j];
  }

  lemma {:induction false} FoldPasses(c: Option<KV>, bs: seq<KV>, j: nat, key: string, e: nat)
    requires j < |bs| && Key(bs[j]) != key
    ensures Folded(c, bs[..j + 1], key, e) == Folded(c, bs[..j], key, e)
  {
    assert bs[..j + 1][..j] == bs[..j];
  }

  // ---- Absorption by lookups ----

  /** What does not absorb y misses a path that y has, right behind a block. */
  lemma {:induction false} NotAbsorbed(d: KV, y: KV) returns (path: seq<string>)
    requires !Absorbs(d, y)
    ensures path != [] && LeadsAlong(y, path)
    ensures Look(d, path).MissingAt? && Look(d, path[..|path| - 1]) == Found(None)
    decreases y
  {
    hide LowerName;
    var i :| 0 <= i < |y.children| && !Covers(d.children, y.children[i]);
    var k := y.children[i];
    path := [k.name];
    if Has(d.children, Key(k)) {
      var rest := NotAbsorbed(d.children[First(d.children, Key(k))], k);
      path := [k.name] + rest;
      assert path[1..] == rest && path[..|path| - 1][1..] == rest[..|rest| - 1];
    } else {
      assert path[1..] == [] && LeadsAlong(k, []);
    }
  }

  /** What absorbs y misses no path that y has. */
  lemma {:induction false} AbsorbedPath(d: KV, y: KV, path: seq<string>)
    requires Absorbs(d, y) && LeadsAlong(y, path)
    ensures !Look(d, path).MissingAt?
    decreases |path|
  {
    if path != [] && d.Block? {
      var i :| 0 <= i < |y.children| && Key(y.children[i]) == LowerName(path[0])
        && LeadsAlong(y.children[i], path[1..]);
      assert Covers(d.children, y.children[i]);
      AbsorbedPath(d.children[First(d.children, Key(y.children[i]))], y.children[i], path[1..]);
    }
  }

  lemma {:induction false} AlikeAbsorbs(a: KV, b: KV, y: KV)
    requires Alike(a, b) && Absorbs(b, y)
    ensures Absorbs(a, y)
  {
    hide Look, Absorbs;
    if !Absorbs(a, y) {
      var path := NotAbsorbed(a, y);
      assert Look(a, path) == Look(b, path);
      AbsorbedPath(b, y, path);
    }
  }

  /** Merging in what is absorbed changes no lookup, in base order or not. */
  lemma {:induction false} AbsorbedLooksSame(d: KV, y: KV, depth: nat)
    requires Absorbs(d, y)
    ensures Alike(Merge(d, y, depth), d)
    decreases y, 0
  {
    hide Merge, Look, LowerName;
    forall path ensures Look(Merge(d, y, depth), path) == Look(d, path) {
      if d.Leaf? || y.Leaf? {
        LeafAddsNothing(d, y, depth);
      } else if path == [] {
        HereIsHere(d, Merge(d, y, depth));
      } else {
        var key := LowerName(path[0]);
        LookPick(Merge(d, y, depth), path);
        LookPick(d, path);
        EitherOrder(d, y, depth, key);
        PickFold(d.children, y.children, depth, key);
        AbsorbedFold(d, y, |y.children|, key, depth);
        assert y.children[..|y.children|] == y.children;
      }
    }
  }

  ghost predicate AlikeIn(a: Option<KV>, b: Option<KV>) {
    a.Some? == b.Some? && (a.Some? ==> Alike(a.value, b.value))
  }

  lemma {:induction false} AbsorbedFold(d: KV, y: KV, n: nat, key: string, e: nat)
    requires d.Block? && y.Block? && Absorbs(d, y) && n <= |y.children|
    ensures AlikeIn(Folded(Pick(d.children, key), y.children[..n], key, e), Pick(d.children, key))
    decreases y, 0, n
  {
    hide Look, LowerName, Merge;
    if n > 0 {
      var c, x := Pick(d.children, key), y.children[n - 1];
      AbsorbedFold(d, y, n - 1, key, e);
      assert y.children[..n][..n - 1] == y.children[..n - 1];
      var r := Folded(c, y.children[..n - 1], key, e);
      assert Covers(d.children, x);
      if Key(x) == key {
        AlikeAbsorbs(r.value, c.value, x);
        AbsorbedLooksSame(r.value, x, e + 1);
      }
    }
  }

  // ---- Exactly when one merge overlays ----

  /** Nothing that b repeats shows under t: where a name occurs again in b, what the first of that name leaves
      under t - itself, or merged into t's own - absorbs every later one, here and at every level below. */
  predicate Fits(t: KV, b: KV, depth: nat)
    decreases b, 1
  {
    t.Leaf? || b.Leaf? ||
    forall i :: 0 <= i < |b.children| && First(b.children, Key(b.children[i])) == i ==> FitsAt(t, b, i, depth)
  }

  predicate FitsAt(t: KV, b: KV, i: nat, depth: nat)
    requires t.Block? && b.Block? && i < |b.children|
    decreases b, 0
  {
    var k := b.children[i];
    var c := Pick(t.children, Key(k));
    && (c.Some? ==> Fits(c.value, k, depth + 1))
    && Swallows(PickBoth(c, Some(k), depth + 1).value, b.children, i)
  }

  /** Every child after position i that has the name of the one there is absorbed. */
  predicate Swallows(d: KV, bs: seq<KV>, i: nat)
    requires i < |bs|
  {
    forall j :: i < j < |bs| && Key(bs[j]) == Key(bs[i]) ==> Absorbs(d, bs[j])
  }

  lemma {:induction false} SwallowedFold(c: Option<KV>, bs: seq<KV>, i: nat, n: nat, e: nat)
    requires i < n <= |bs| && First(bs, Key(bs[i])) == i
    requires Swallows(PickBoth(c, Some(bs[i]), e + 1).value, bs, i)
    ensures AlikeIn(Folded(c, bs[..n], Key(bs[i]), e), PickBoth(c, Some(bs[i]), e + 1))
  {
    hide Look, LowerName, Merge, Absorbs, Folded, Alike, First;
    var key, p := Key(bs[i]), PickBoth(c, Some(bs[i]), e + 1);
    if n == i + 1 {
      FirstFolded(c, bs, key, e);
      AlikeItself(p);
    } else {
      SwallowedFold(c, bs, i, n - 1, e);
      var r := Folded(c, bs[..n - 1], key, e);
      if Key(bs[n - 1]) == key {
        FoldSnoc(c, bs, n - 1, e);
        AlikeAbsorbs(r.value, p.value, bs[n - 1]);
        AbsorbedLooksSame(r.value, bs[n - 1], e + 1);
        AlikeTwice(Merge(r.value, bs[n - 1], e + 1), r.value, p.value);
      } else {
        FoldPasses(c, bs, n - 1, key, e);
      }
    }
  }

  lemma {:induction false} AlikeItself(a: Option<KV>)
    ensures AlikeIn(a, a)
  {
  }

  /** The merge of two blocks, looked at one level down. */
  lemma {:induction false} LookFolded(t: KV, b: KV, depth: nat, path: seq<string>)
    requires path != [] && t.Block? && b.Block?
    ensures var key := LowerName(path[0]);
            Look(Merge(t, b, depth), path) ==
            LookIn(Folded(Pick(t.children, key), b.children, key, depth), path[1..])
  {
    hide Merge, Folded, Look;
    var key := LowerName(path[0]);
    LookPick(Merge(t, b, depth), path);
    EitherOrder(t, b, depth, key);
    PickFold(t.children, b.children, depth, key);
  }

  lemma {:induction false} OverDeeper(a: Probe, b: Probe)
    ensures Over(Deeper(a), Deeper(b)) == Deeper(Over(a, b))
    ensures Over(MissingAt(0), Deeper(b)) == Deeper(b)
    ensures Over(Deeper(a), MissingAt(0)) == Deeper(a)
  {
  }

  lemma {:induction false} FitsOverlays(t: KV, b: KV, depth: nat, path: seq<string>)
    requires Fits(t, b, depth)
    ensures Look(Merge(t, b, depth), path) == Over(Look(t, path), Look(b, path))
    decreases |path|
  {
    hide Merge, LowerName, First, Folded, Look, Over, Swallows;
    if t.Leaf? || b.Leaf? {
      LeafOverlays(t, b, depth, path);
    } else if path == [] {
      HereIsHere(t, Merge(t, b, depth));
      assert Over(Found(None), Look(b, [])) == Found(None) by { FoundWins(None, Look(b, [])); }
    } else {
      var key, rest := LowerName(path[0]), path[1..];
      var c, bs := Pick(t.children, key), b.children;
      LookFolded(t, b, depth, path);
      LookPick(t, path);
      LookPick(b, path);
      if Has(bs, key) {
        var i := First(bs, key);
        var k := bs[i];
        assert FitsAt(t, b, i, depth);
        SwallowedFold(c, bs, i, |bs|, depth);
        assert bs[..|bs|] == bs;
        OverDeeper(if c.Some? then Look(c.value, rest) else MissingAt(0), Look(k, rest));
        if c.Some? {
          FitsOverlays(c.value, k, depth + 1, rest);
        }
      } else {
        NoneFolded(c, bs, key, depth);
        OverNothing(c, rest);
      }
    }
  }

  lemma {:induction false} FoundWins(v: Option<string>, b: Probe)
    ensures Over(Found(v), b) == Found(v)
  {
  }

  lemma {:induction false} OverNothing(c: Option<KV>, rest: seq<string>)
    ensures Over(LookIn(c, rest), MissingAt(0)) == LookIn(c, rest)
  {
  }

  lemma {:induction false} LeafOverlays(t: KV, b: KV, depth: nat, path: seq<string>)
    requires t.Leaf? || b.Leaf?
    ensures Look(Merge(t, b, depth), path) == Over(Look(t, path), Look(b, path))
  {
    LeafAddsNothing(t, b, depth);
  }

  /** What a later child of a name adds, found in the merged tree. */
  lemma {:induction false} LaterArrives(t: KV, b: KV, depth: nat, i: nat, j: nat, rest: seq<string>)
    requires t.Block? && b.Block? && i < j < |b.children| && Key(b.children[j]) == Key(b.children[i])
    requires First(b.children, Key(b.children[i])) == i && rest != [] && LeadsAlong(b.children[j], rest)
    requires var p := PickBoth(Pick(t.children, Key(b.children[i])), Some(b.children[i]), depth + 1);
             Look(p.value, rest[..|rest| - 1]) == Found(None)
    ensures Look(Merge(t, b, depth), [b.children[i].name] + rest).Found?
  {
    hide Merge, Look, LowerName, First, Folded;
    var bs, k, x := b.children, b.children[i], b.children[j];
    var key, front := Key(k), rest[..|rest| - 1];
    var c := Pick(t.children, key);
    FirstFolded(c, bs, key, depth);
    assert bs[..j][..i + 1] == bs[..i + 1];
    FoldedStays(c, bs[..j], i + 1, key, depth, front);
    LeadsArrive(Folded(c, bs[..j], key, depth).value, x, depth + 1, rest);
    FoldSnoc(c, bs, j, depth);
    FoldedStays(c, bs, j + 1, key, depth, rest);
    var path := [k.name] + rest;
    assert path[1..] == rest;
    LookFolded(t, b, depth, path);
  }

  lemma {:induction false} LookBoth(t: KV, b: KV, i: nat, rest: seq<string>)
    requires t.Block? && b.Block? && i < |b.children| && First(b.children, Key(b.children[i])) == i
    ensures var path := [b.children[i].name] + rest;
            && Look(t, path) == LookIn(Pick(t.children, Key(b.children[i])), rest)
            && Look(b, path) == Deeper(Look(b.children[i], rest))
  {
    hide LowerName;
    assert ([b.children[i].name] + rest)[1..] == rest;
  }

  lemma {:induction false} EarlierArrives(t: KV, b: KV, depth: nat, i: nat, rest: seq<string>)
    requires t.Block? && b.Block? && i < |b.children| && First(b.children, Key(b.children[i])) == i
    requires var p := PickBoth(Pick(t.children, Key(b.children[i])), Some(b.children[i]), depth + 1);
             !Look(p.value, rest).MissingAt?
    ensures var p := PickBoth(Pick(t.children, Key(b.children[i])), Some(b.children[i]), depth + 1);
            Look(Merge(t, b, depth), [b.children[i].name] + rest) == Deeper(Look(p.value, rest))
  {
    hide Merge, Look, LowerName, First, Folded;
    var bs, k := b.children, b.children[i];
    var c := Pick(t.children, Key(k));
    FirstFolded(c, bs, Key(k), depth);
    FoldedStays(c, bs, i + 1, Key(k), depth, rest);
    var path := [k.name] + rest;
    assert path[1..] == rest;
    LookFolded(t, b, depth, path);
  }

  /** Where b does not fit, the merged tree answers what neither side does. */
  lemma {:induction false} MisfitShows(t: KV, b: KV, depth: nat) returns (path: seq<string>)
    requires !Fits(t, b, depth)
    ensures Look(Merge(t, b, depth), path).Found?
    ensures !Look(t, path).Found? && Over(Look(t, path), Look(b, path)).MissingAt?
    decreases b
  {
    hide Merge, Look, LowerName, First, Absorbs, Over;
    var bs := b.children;
    var i: nat :| i < |bs| && First(bs, Key(bs[i])) == i && !FitsAt(t, b, i, depth);
    var k := bs[i];
    var c := Pick(t.children, Key(k));
    var p := PickBoth(c, Some(k), depth + 1).value;
    var rest;
    if c.Some? && !Fits(c.value, k, depth + 1) {
      rest := MisfitShows(c.value, k, depth + 1);
      EarlierArrives(t, b, depth, i, rest);
    } else {
      var j :| i < j < |bs| && Key(bs[j]) == Key(k) && !Absorbs(p, bs[j]);
      rest := NotAbsorbed(p, bs[j]);
      LaterArrives(t, b, depth, i, j, rest);
      if c.Some? {
        FitsOverlays(c.value, k, depth + 1, rest);
      }
    }
    path := [k.name] + rest;
    LookBoth(t, b, i, rest);
    MissDeeper(c, k, rest);
  }

  lemma {:induction false} MissDeeper(c: Option<KV>, k: KV, rest: seq<string>)
    requires if c.Some? then Over(Look(c.value, rest), Look(k, rest)).MissingAt? else Look(k, rest).MissingAt?
    ensures Over(LookIn(c, rest), Deeper(Look(k, rest))).MissingAt? && !LookIn(c, rest).Found?
  {
    hide Look;
  }

  /** One merge, exactly: the merged tree reads as the derived side over the base, for every lookup, if and only
      if nothing the base repeats shows under that derived tree. */
  lemma {:induction false} FitsExactly(t: KV, b: KV, depth: nat)
    ensures (forall path :: Look(Merge(t, b, depth), path) == Over(Look(t, path), Look(b, path))) <==> Fits(t, b, depth)
  {
    hide Merge, Look, Over;
    if Fits(t, b, depth) {
      forall path ensures Look(Merge(t, b, depth), path) == Over(Look(t, path), Look(b, path)) {
        FitsOverlays(t, b, depth, path);
      }
    } else {
      var path := MisfitShows(t, b, depth);
    }
  }

  // ---- Under every derived tree ----

  /** A settled base fits under every derived tree. */
  lemma {:induction false} SettledFits(t: KV, b: KV, depth: nat)
    requires Settled(b)
    ensures Fits(t, b, depth)
    decreases b
  {
    hide Merge, LowerName, First, Subsumed, Absorbs;
    if t.Block? && b.Block? {
      var bs := b.children;
      SettledChildren(b);
      forall i | 0 <= i < |bs| && First(bs, Key(bs[i])) == i ensures FitsAt(t, b, i, depth) {
        var k := bs[i];
        var c := Pick(t.children, Key(k));
        forall j | i < j < |bs| && Key(bs[j]) == Key(k)
          ensures Absorbs(PickBoth(c, Some(k), depth + 1).value, bs[j])
        {
          SubsumedSwallowed(c, k, bs[j], depth + 1);
        }
        if c.Some? {
          SettledFits(c.value, k, depth + 1);
        }
      }
    }
  }

  lemma {:induction false} SettledChildren(b: KV)
    requires b.Block? && Settled(b)
    ensures forall i :: 0 <= i < |b.children| ==>
              Subsumed(b.children[First(b.children, Key(b.children[i]))], b.children[i])
  {
    hide LowerName, First;
    forall i | 0 <= i < |b.children|
      ensures Subsumed(b.children[First(b.children, Key(b.children[i]))], b.children[i])
    {
      assert Subsumes(b.children, b.children[i]);
    }
  }

  lemma {:induction false} SubsumedSwallowed(c: Option<KV>, k: KV, x: KV, depth: nat)
    requires Subsumed(k, x)
    ensures Absorbs(PickBoth(c, Some(k), depth).value, x)
  {
    hide Merge, Subsumed, Absorbs, Beside, Alike;
    if c.None? {
      SubsumedAbsorbs(k, x);
    } else {
      SubsumedAfterMerge(c.value, k, x, 2);
      BesideItself(c.value, depth);
      BesideItself(k, depth);
      BesideMerge(c.value, c.value, k, k, depth);
      BesideAlike(Merge(c.value, k, depth), Merge(c.value, k, 2), depth);
      AlikeAbsorbs(Merge(c.value, k, depth), Merge(c.value, k, 2), x);
    }
  }

  /** Merging a settled base is a left-biased overlay of lookups: no derived answer is overwritten, and nothing
      the base answers is lost. */
  lemma {:induction false} MergeOverlays(t: KV, b: KV, depth: nat, path: seq<string>)
    requires Settled(b)
    ensures Look(Merge(t, b, depth), path) == Over(Look(t, path), Look(b, path))
  {
    hide Merge, Look, Over, Settled, Fits;
    SettledFits(t, b, depth);
    FitsOverlays(t, b, depth, path);
  }

  /** What x does not subsume of y: a path y has somewhere that x does not have. */
  lemma {:induction false} NotSubsumed(x: KV, y: KV) returns (path: seq<string>)
    requires !Subsumed(x, y)
    ensures path != [] && !Look(x, path).Found? && LeadsAlong(y, path)
    decreases y
  {
    if x.Leaf? {
      path := [y.children[0].name];
    } else {
      var i :| 0 <= i < |y.children| && !Subsumes(x.children, y.children[i]);
      var k := y.children[i];
      if Has(x.children, Key(k)) {
        var rest := NotSubsumed(x.children[First(x.children, Key(k))], k);
        path := [k.name] + rest;
        assert path[1..] == rest;
      } else {
        path := [k.name];
      }
    }
  }

  /** Nested empty blocks, one for each name but the last. */
  function Stub(name: string, path: seq<string>): KV
    decreases |path|
  {
    Block(name, if |path| <= 1 then [] else [Stub(path[0], path[1..])])
  }

  lemma {:induction false} StubLooks(name: string, path: seq<string>)
    requires path != []
    ensures Look(Stub(name, path), path[..|path| - 1]) == Found(None)
    ensures Look(Stub(name, path), path) == MissingAt(|path| - 1)
    decreases |path|
  {
    if |path| > 1 {
      var s := Stub(path[0], path[1..]);
      StubLooks(path[0], path[1..]);
      assert First([s], LowerName(path[0])) == 0;
      assert path[..|path| - 1][1..] == path[1..][..|path| - 2];
    }
  }

  ghost predicate Overlays(b: KV, depth: nat) {
    forall t, path :: Look(Merge(t, b, depth), path) == Over(Look(t, path), Look(b, path))
  }

  /** A base shows through under every derived tree and for every lookup exactly when it is settled. */
  lemma {:induction false} OverlaysExactly(b: KV, depth: nat)
    ensures Overlays(b, depth) <==> Settled(b)
  {
    if Settled(b) {
      forall t, path ensures Look(Merge(t, b, depth), path) == Over(Look(t, path), Look(b, path)) {
        MergeOverlays(t, b, depth, path);
      }
    } else {
      var path := NotSubsumed(b, b);
      var t := Stub(b.name, path);
      StubLooks(b.name, path);
      LeadsArrive(t, b, depth, path);
      assert Look(Merge(t, b, depth), path) != Over(Look(t, path), Look(b, path));
    }
  }

  // ---- A merge of settled bases is settled ----

  lemma {:induction false} ShuffledSubsumed(x: KV, x': KV, y: KV, y': KV)
    requires Shuffled(x, x') && Shuffled(y, y') && Subsumed(x', y')
    ensures Subsumed(x, y)
  {
    hide LowerName, First, Those;
    if y.Block? && y.children != [] {
      ShuffledPermutes(y, y');
      assert y.children[0] in multiset(y'.children);
      forall i | 0 <= i < |y.children| ensures Subsumes(x.children, y.children[i]) {
        assert y.children[i] in multiset(y'.children);
        var j :| 0 <= j < |y'.children| && y'.children[j] == y.children[i];
        assert Subsumes(x'.children, y'.children[j]);
        ShuffledPick(x', x, Key(y.children[i]));
      }
    }
  }

  lemma {:induction false} SectionsSettled(a: KV, b: KV)
    requires SameFile(a, b) && Settled(b)
    ensures Settled(a)
  {
    hide LowerName, First, Shuffled;
    if a.Block? {
      SectionsOf(a, b);
      forall i | 0 <= i < |a.children| ensures Subsumes(a.children, a.children[i]) {
        SectionSettled(a, b, i);
      }
    }
  }

  lemma {:induction false} SectionSettled(a: KV, b: KV, i: nat)
    requires a.Block? && b.Block? && SameSections(a.children, b.children) && i < |a.children| && Settled(b)
    ensures Subsumes(a.children, a.children[i])
  {
    hide LowerName, First, Shuffled, Subsumed;
    var key := Key(a.children[i]);
    var j := First(a.children, key);
    SameFirst(a.children, b.children, key);
    assert SameSection(a.children[i], b.children[i]);
    SettledChildren(b);
    assert SameSection(a.children[j], b.children[j]);
    if key == WEAPON_UPGRADES {
      ShuffledSubsumed(a.children[j], b.children[j], a.children[i], b.children[i]);
    }
  }

  lemma {:induction false} SettledCloses(b: KV, c: KV, depth: nat)
    requires Settled(b) && Settled(c)
    ensures Settled(Merge(b, c, depth))
  {
    hide Merge, Settled, SameFile, Shuffled;
    BasesClose(b, c, 2);
    BesideItself(b, depth);
    BesideItself(c, depth);
    BesideMerge(b, b, c, c, depth);
    var m, n := Merge(b, c, depth), Merge(b, c, 2);
    if depth == 0 {
      SectionsSettled(m, n);
    } else if depth == 1 {
      SettledShuffled(m, n);
    }
  }

  lemma {:induction false} SettledShuffled(m: KV, n: KV)
    requires Shuffled(m, n) && Settled(n)
    ensures Settled(m)
  {
    ShuffledSubsumed(m, n, m, n);
  }

  // ---- Whatever the base ----

  /** Any base at all: an answer of either side is never lost and never changed. What does not fit can only
      answer where both sides miss. */
  lemma {:induction false} NothingLost(t: KV, b: KV, depth: nat, path: seq<string>)
    requires !Over(Look(t, path), Look(b, path)).MissingAt?
    ensures Look(Merge(t, b, depth), path) == Over(Look(t, path), Look(b, path))
    decreases |path|
  {
    hide Merge, LowerName, First, Folded, Look;
    if t.Leaf? || b.Leaf? {
      LeafOverlays(t, b, depth, path);
    } else if !Look(t, path).MissingAt? {
      FoundStays(t, b, depth, path);
    } else if path == [] {
      HereIsHere(t, b);
    } else {
      BaseShows(t, b, depth, path);
    }
  }

  lemma {:induction false} BaseShows(t: KV, b: KV, depth: nat, path: seq<string>)
    requires path != [] && t.Block? && b.Block? && Look(t, path).MissingAt?
    requires !Over(Look(t, path), Look(b, path)).MissingAt?
    ensures Look(Merge(t, b, depth), path) == Over(Look(t, path), Look(b, path))
    decreases |path|, 0
  {
    hide Merge, LowerName, First, Folded, Look;
    var key, rest := LowerName(path[0]), path[1..];
    var c, bs := Pick(t.children, key), b.children;
    LookPick(t, path);
    LookPick(b, path);
    var i := First(bs, key);
    var k := bs[i];
    LookFolded(t, b, depth, path);
    FirstFolded(c, bs, key, depth);
    OverDeeper(if c.Some? then Look(c.value, rest) else MissingAt(0), Look(k, rest));
    if c.Some? {
      NothingLost(c.value, k, depth + 1, rest);
    }
    FoldedStays(c, bs, i + 1, key, depth, rest);
  }

  /** Where a fit fails: the first child k of a name lacks what a later one of that name has, and so does the
      derived tree. The merged tree has it, in the place of k. */
  lemma {:induction false} LaterTwinLeaks(t: KV, b: KV, depth: nat, i: nat, j: nat, x: KV)
    requires t.Block? && b.Block? && i < j < |b.children| && Key(b.children[j]) == Key(b.children[i])
    requires First(b.children, Key(b.children[i])) == i && b.children[i].Block? && b.children[j].Block?
    requires x in b.children[j].children && !Has(b.children[i].children, Key(x))
    requires var c := Pick(t.children, Key(b.children[i]));
             c.None? || (c.value.Block? && !Has(c.value.children, Key(x)))
    ensures var path := [b.children[i].name, x.name];
            && Look(t, path).MissingAt? && Look(b, path).MissingAt?
            && Look(Merge(t, b, depth), path).Found?
  {
    hide Merge, LowerName, First;
    var k, y := b.children[i], b.children[j];
    var rest := [x.name];
    var c := Pick(t.children, Key(k));
    var p := PickBoth(c, Some(k), depth + 1).value;
    var n :| 0 <= n < |y.children| && y.children[n] == x;
    assert rest[1..] == [] && rest[..0] == [] && LeadsAlong(x, []);
    HereIsHere(p, p);
    LaterArrives(t, b, depth, i, j, rest);
    LookBoth(t, b, i, rest);
    assert [k.name] + rest == [k.name, x.name];
  }
}
