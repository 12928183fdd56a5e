/** KeyValues trees and the merge that flattens a theater onto the theaters it is based on. */
module KeyValues {
  import opened Rearrange

  datatype KV = Leaf(name: string, value: string) | Block(name: string, children: seq<KV>)

  /** str.lower on Latin-1 text. */
  function LowerChar(c: char): char {
    var n := c as int;
    if 65 <= n <= 90 || (192 <= n <= 222 && n != 215) then (n + 32) as char else c
  }

  function LowerName(s: string): (l: string)
    ensures |l| == |s|
  {
    seq(|s|, i requires 0 <= i < |s| => LowerChar(s[i]))
  }

  function Key(k: KV): string {
    LowerName(k.name)
  }

  /** The position of the first child with this key, or the length where there is none. */
  function First(ks: seq<KV>, key: string): (i: nat)
    ensures i <= |ks|
    ensures i < |ks| ==> Key(ks[i]) == key
    ensures forall j :: 0 <= j < i ==> Key(ks[j]) != key
  {
    if ks == [] then 0 else if Key(ks[0]) == key then 0 else 1 + First(ks[1..], key)
  }

  predicate Has(ks: seq<KV>, key: string) {
    First(ks, key) < |ks|
  }

  // ---- The merge ----

  const WEAPON_UPGRADES := "weapon_upgrades"

  /** The sections whose merged definitions keep the base's positions. */
  predicate BaseOrdered(t: KV, depth: nat) {
    depth == 1 && Key(t) == WEAPON_UPGRADES
  }

  /** The base b merged into t. Where t is a section kept in base order, the children are reordered. */
  function Merge(t: KV, b: KV, depth: nat): (r: KV)
    ensures r.name == t.name && r.Block? == t.Block?
    decreases b, 3
  {
    if t.Leaf? || b.Leaf? then t
    else
      var merged := MergeAll(t.children, b.children, depth);
      Block(t.name, if BaseOrdered(t, depth) then Reorder(merged, Hits(t.children, b.children, depth)) else merged)
  }

  /** The children ts after each of the base's children bs has been merged in or appended. */
  function MergeAll(ts: seq<KV>, bs: seq<KV>, depth: nat): (r: seq<KV>)
    ensures |r| >= |ts|
    decreases bs, 2
  {
    if bs == [] then ts else Put(MergeAll(ts, bs[..|bs| - 1], depth), bs[|bs| - 1], depth)
  }

  function Put(ts: seq<KV>, b: KV, depth: nat): (r: seq<KV>)
    ensures |r| >= |ts|
    decreases b, 4
  {
    var i := First(ts, Key(b));
    if i < |ts| then ts[i := Merge(ts[i], b, depth + 1)] else ts + [b]
  }

  /** The positions the base's children land on, each once, in the order they are first landed on. */
  function Hits(ts: seq<KV>, bs: seq<KV>, depth: nat): (hs: seq<nat>)
    ensures forall k :: 0 <= k < |hs| ==> hs[k] < |MergeAll(ts, bs, depth)|
    decreases bs, 3
  {
    if bs == [] then []
    else
      var hs := Hits(ts, bs[..|bs| - 1], depth);
      var i: nat := First(MergeAll(ts, bs[..|bs| - 1], depth), Key(bs[|bs| - 1]));
      if i in hs then hs else hs + [i]
  }

  // ---- The merge as the program runs it ----

  method Search(children: seq<KV>, key: string) returns (i: nat)
    ensures i == First(children, key)
  {
    i := 0;
    while i < |children| && Key(children[i]) != key
      invariant i <= |children|
      invariant forall j :: 0 <= j < i ==> Key(children[j]) != key
    {
      i := i + 1;
    }
  }

  method Rearranged(children: seq<KV>, placed: seq<nat>) returns (out: seq<KV>)
    requires forall k :: 0 <= k < |placed| ==> placed[k] < |children|
    ensures out == Reorder(children, placed)
  {
    out := [];
    var p := 0;
    while p < |placed|
      invariant p <= |placed|
      invariant out == At(children, placed[..p])
    {
      out := out + [children[placed[p]]];
      p := p + 1;
    }
    ghost var head := out;
    var n := 0;
    while n < |children|
      invariant n <= |children|
      invariant out == head + Others(children, placed, n)
    {
      if n !in placed {
        out := out + [children[n]];
      }
      n := n + 1;
    }
  }

  lemma {:induction false} OneMore(ts: seq<KV>, bs: seq<KV>, k: nat, depth: nat)
    requires k < |bs|
    ensures MergeAll(ts, bs[..k + 1], depth) == Put(MergeAll(ts, bs[..k], depth), bs[k], depth)
    ensures var i: nat := First(MergeAll(ts, bs[..k], depth), Key(bs[k]));
            var hs := Hits(ts, bs[..k], depth);
            Hits(ts, bs[..k + 1], depth) == if i in hs then hs else hs + [i]
  {
    assert bs[..k + 1][..k] == bs[..k];
  }

  method MergeInto(t: KV, b: KV, depth: nat) returns (r: KV)
    ensures r == Merge(t, b, depth)
    decreases b
  {
    if t.Leaf? || b.Leaf? {
      return t;
    }
    var baseOrder := BaseOrdered(t, depth);
    var children := t.children;
    var placed: seq<nat> := [];
    var k := 0;
    while k < |b.children|
      invariant k <= |b.children|
      invariant children == MergeAll(t.children, b.children[..k], depth)
      invariant baseOrder ==> placed == Hits(t.children, b.children[..k], depth)
    {
      OneMore(t.children, b.children, k, depth);
      var x := b.children[k];
      var i := Search(children, Key(x));
      if i < |children| {
        var d := MergeInto(children[i], x, depth + 1);
        children := children[i := d];
      } else {
        children := children + [x];
      }
      if baseOrder && i !in placed {
        placed := placed + [i];
      }
      k := k + 1;
    }
    assert b.children[..|b.children|] == b.children;
    if baseOrder {
      children := Rearranged(children, placed);
    }
    r := Block(t.name, children);
  }
}
