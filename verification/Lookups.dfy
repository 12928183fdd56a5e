/** What a theater says when it is read by first matches, as a merge matches names, and what merging does to that. */
module Lookups {
  import opened Options
  import opened KeyValues
  import opened MergeLaws
  import opened BaseOrder

  /** Following a path of names: the leaf's value, or None for a block; or how many names were followed
      before a leaf cut the path off, or before a block had no such child. */
  datatype Probe = Found(value: Option<string>) | CutAt(n: nat) | MissingAt(n: nat)

  function Deeper(a: Probe): Probe {
    match a
    case Found(_) => a
    case CutAt(n) => CutAt(n + 1)
    case MissingAt(n) => MissingAt(n + 1)
  }

  function Look(k: KV, path: seq<string>): Probe
    decreases |path|
  {
    if path == [] then Found(if k.Leaf? then Some(k.value) else None)
    else if k.Leaf? then CutAt(0)
    else
      match Pick(k.children, LowerName(path[0]))
      case None => MissingAt(0)
      case Some(c) => Deeper(Look(c, path[1..]))
  }

  /** The derived side's answer over the base's: a hit or a leaf in the way settles it, and a leaf of the
      base only cuts a path off where the derived side has no block in its place. */
  function Over(a: Probe, b: Probe): Probe {
    match a
    case MissingAt(m) =>
      (match b
       case Found(_) => b
       case CutAt(n) => if n > m then b else a
       case MissingAt(n) => if n > m then b else a)
    case _ => a
  }

  lemma {:induction false} LeafAddsNothing(t: KV, b: KV, depth: nat)
    requires t.Leaf? || b.Leaf?
    ensures Merge(t, b, depth) == t
  {
  }

  function LookIn(c: Option<KV>, rest: seq<string>): Probe {
    if c.None? then MissingAt(0) else Deeper(Look(c.value, rest))
  }

  lemma {:induction false} HereIsHere(a: KV, b: KV)
    requires a.Block? && b.Block?
    ensures Look(a, []) == Look(b, []) == Found(None)
  {
  }

  lemma {:induction false} LookPick(t: KV, path: seq<string>)
    requires t.Block? && path != []
    ensures Look(t, path) == LookIn(Pick(t.children, LowerName(path[0])), path[1..])
  {
  }

  /** No lookup tells the two apart. */
  ghost predicate Alike(a: KV, b: KV) {
    forall path :: Look(a, path) == Look(b, path)
  }

  lemma {:induction false} AlikeTwice(a: KV, b: KV, c: KV)
    requires Alike(a, b) && Alike(b, c)
    ensures Alike(a, c)
  {
    hide Look;
    forall path ensures Look(a, path) == Look(c, path) {
      assert Look(a, path) == Look(b, path);
    }
  }

  // ---- Growth, for any base ----

  /** No answer of the derived side ever changes, whatever is merged into it, and no leaf in the way gives way. */
  lemma {:induction false} FoundStays(t: KV, z: KV, depth: nat, path: seq<string>)
    requires !Look(t, path).MissingAt?
    ensures Look(Merge(t, z, depth), path) == Look(t, path)
    decreases |path|, 2
  {
    if path != [] && t.Block? && z.Block? {
      var key := LowerName(path[0]);
      PickStays(t.children, z.children, depth, key, path[1..]);
      EitherOrder(t, z, depth, key);
    }
  }

  lemma {:induction false} PickStays(ts: seq<KV>, zs: seq<KV>, e: nat, key: string, rest: seq<string>)
    requires Pick(ts, key).Some? && !Look(Pick(ts, key).value, rest).MissingAt?
    ensures Pick(MergeAll(ts, zs, e), key).Some?
    ensures Look(Pick(MergeAll(ts, zs, e), key).value, rest) == Look(Pick(ts, key).value, rest)
    decreases |rest|, 3, |zs|
  {
    if zs != [] {
      var n := |zs| - 1;
      var m := MergeAll(ts, zs[..n], e);
      PickStays(ts, zs[..n], e, key, rest);
      PutPick(m, zs[n], e, key);
      if Key(zs[n]) == key {
        FoundStays(Pick(m, key).value, zs[n], e + 1, rest);
      }
    }
  }

  // ---- What leads along a path ----

  /** Some children of y, not necessarily the first of their names, lead along this path. */
  ghost predicate LeadsAlong(y: KV, path: seq<string>)
    decreases |path|
  {
    path == [] ||
    (y.Block? &&
     exists i :: 0 <= i < |y.children| && Key(y.children[i]) == LowerName(path[0])
                 && LeadsAlong(y.children[i], path[1..]))
  }

  lemma {:induction false} EitherOrder(t: KV, b: KV, depth: nat, key: string)
    requires t.Block? && b.Block?
    ensures Pick(Merge(t, b, depth).children, key) == Pick(MergeAll(t.children, b.children, depth), key)
  {
    ArrangedPicks(t.children, b.children, depth, key);
  }

  /** Where the way is paved with blocks, whatever leads along it gets merged in. */
  lemma {:induction false} LeadsArrive(d: KV, y: KV, depth: nat, path: seq<string>)
    requires path != [] && LeadsAlong(y, path) && Look(d, path[..|path| - 1]) == Found(None)
    ensures Look(Merge(d, y, depth), path).Found?
    decreases |path|
  {
    hide Merge, MergeAll, Put, LowerName;
    var key, rest := LowerName(path[0]), path[1..];
    var i :| 0 <= i < |y.children| && Key(y.children[i]) == key && LeadsAlong(y.children[i], rest);
    var ds, ys := d.children, y.children;
    EitherOrder(d, y, depth, key);
    if |path| == 1 {
      AllFirst(ds, ys, depth, key);
      assert Has(ys, key);
    } else {
      var front, m := rest[..|rest| - 1], MergeAll(ds, ys[..i], depth);
      assert path[..|path| - 1][1..] == front;
      PickStays(ds, ys[..i], depth, key, front);
      LeadsArrive(Pick(m, key).value, ys[i], depth + 1, rest);
      ArrivedStays(ds, ys, depth, i, rest);
    }
  }

  lemma {:induction false} ArrivedStays(ds: seq<KV>, ys: seq<KV>, e: nat, i: nat, rest: seq<string>)
    requires i < |ys| && Pick(MergeAll(ds, ys[..i], e), Key(ys[i])).Some?
    requires Look(Merge(Pick(MergeAll(ds, ys[..i], e), Key(ys[i])).value, ys[i], e + 1), rest).Found?
    ensures Pick(MergeAll(ds, ys, e), Key(ys[i])).Some?
    ensures Look(Pick(MergeAll(ds, ys, e), Key(ys[i])).value, rest).Found?
  {
    hide Merge, MergeAll, Look;
    var m := MergeAll(ds, ys[..i], e);
    AllSplit(ds, ys, i, e);
    PutPick(m, ys[i], e, Key(ys[i]));
    PickStays(Put(m, ys[i], e), ys[i + 1..], e, Key(ys[i]), rest);
  }
}
