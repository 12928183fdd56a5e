/** What the walk over the game tree puts, entry by entry, and in which order. */
module WalkPaths {
  import opened Paths
  import opened CaseIndex
  import opened GameTree
  import opened Exclusions
  import opened IndexTheorems

  /** Along these entry numbers every directory opens, no path has a built-in piece in it or lies in a configured
      directory, and every entry but the last is taken for a directory: one that the listing says is one, or, where the
      listing does not say, one that a stat finds to be one. At the end lies the node. */
  ghost predicate PutAt(path: string, t: Tree, steps: seq<nat>, extra: seq<string>, n: Node)
    decreases |steps|
  {
    && t.Dir? && t.opens
    && if steps == [] then
         && n.DirNode? && n.cf == Fold(path) && n.path == path
         && |n.ents| == |t.entries| && forall i :: 0 <= i < |t.entries| ==> n.ents[i] == t.entries[i].name
       else
         && steps[0] < |t.entries|
         && var e := t.entries[steps[0]];
            var child := path + "/" + e.name;
            && !HasOneOfSix(child) && !LiesInOne(child, extra)
            && match e.dtype
               case DtDir => PutAt(child, e.tree, steps[1..], extra, n)
               case DtOther => |steps| == 1 && n == FileNode(Fold(child), child)
               case DtUnknown(statOk) =>
                 if statOk && e.tree.Dir? then PutAt(child, e.tree, steps[1..], extra, n)
                 else |steps| == 1 && n == FileNode(Fold(child), child)
  }

  lemma {:induction false} PutSteps(path: string, t: Tree, extra: seq<string>, n: Node) returns (steps: seq<nat>)
    requires n in Walk(path, t, extra)
    ensures PutAt(path, t, steps, extra, n)
    decreases t
  {
    hide Fold, HasOneOfSix, IsExcluded, LiesInOne, Walk, WalkUpTo;
    steps := [];
    var i := WalkParts(path, t, extra, n);
    if i >= 0 {
      var e := t.entries[i];
      var child := path + "/" + e.name;
      ExcludedExactly(child, extra);
      if TakenForDir(e) {
        var rest := PutSteps(child, e.tree, extra, n);
        steps := [i] + rest;
        assert steps[1..] == rest;
      } else {
        steps := [i];
      }
    }
  }

  /** The directory's own node, or one put for entry i. */
  lemma {:induction false} WalkParts(path: string, t: Tree, extra: seq<string>, n: Node) returns (i: int)
    requires n in Walk(path, t, extra)
    ensures t.Dir? && t.opens && -1 <= i < |t.entries|
    ensures i == -1 ==> n == DirNode(Fold(path), path, Names(t.entries))
    ensures i >= 0 ==> n in WalkEntry(path, t, i, extra)
  {
    hide Fold, WalkEntry, WalkUpTo;
    i := -1;
    if n != DirNode(Fold(path), path, Names(t.entries)) {
      WalkUpToHas(path, t, |t.entries|, extra, n);
      i :| 0 <= i < |t.entries| && PutBy(path, t, i, extra, n);
    }
  }

  lemma {:induction false} StepsPut(path: string, t: Tree, steps: seq<nat>, extra: seq<string>, n: Node)
    requires PutAt(path, t, steps, extra, n)
    ensures n in Walk(path, t, extra)
    decreases |steps|
  {
    hide Fold, HasOneOfSix, IsExcluded, LiesInOne, WalkUpTo;
    if steps == [] {
      assert n.ents == Names(t.entries);
    } else {
      var i := steps[0];
      var e := t.entries[i];
      var child := path + "/" + e.name;
      ExcludedExactly(child, extra);
      if TakenForDir(e) {
        StepsPut(child, e.tree, steps[1..], extra, n);
      }
      assert PutBy(path, t, i, extra, n);
      WalkUpToHas(path, t, |t.entries|, extra, n);
    }
  }

  /** A node is put exactly where such a way leads to it. */
  lemma {:induction false} WalkedExactly(path: string, t: Tree, extra: seq<string>, n: Node)
    ensures n in Walk(path, t, extra) <==> exists steps :: PutAt(path, t, steps, extra, n)
  {
    hide Walk, PutAt;
    if n in Walk(path, t, extra) {
      var steps := PutSteps(path, t, extra, n);
    }
    if steps :| PutAt(path, t, steps, extra, n) {
      StepsPut(path, t, steps, extra, n);
    }
  }

  // ---- In which order ----

  /** The nodes below a directory with these entries. */
  function Below(path: string, es: seq<Entry>, extra: seq<string>): seq<Node> {
    Walk(path, Dir(true, es), extra)[1..]
  }

  lemma {:induction false} PartEntries(path: string, es: seq<Entry>, k: nat, part: seq<Entry>, at: nat,
         extra: seq<string>)
    requires k <= |part| && at + |part| <= |es| && part == es[at..at + |part|]
    ensures WalkUpTo(path, Dir(true, es), at + k, extra) ==
            WalkUpTo(path, Dir(true, es), at, extra) + WalkUpTo(path, Dir(true, part), k, extra)
    decreases k
  {
    hide Fold, IsExcluded, TakenForDir, Walk;
    if k > 0 {
      assert part[k - 1] == es[at + k - 1];
      PartEntries(path, es, k - 1, part, at, extra);
    }
  }

  lemma {:induction false} BelowIs(path: string, es: seq<Entry>, extra: seq<string>)
    ensures Below(path, es, extra) == WalkUpTo(path, Dir(true, es), |es|, extra)
  {
    hide Fold, WalkUpTo;
  }

  /** Entries are walked in the order of the listing, each with all that lies below it, behind their directory. */
  lemma {:induction false} WalkedInOrder(path: string, a: seq<Entry>, b: seq<Entry>, extra: seq<string>)
    ensures Below(path, a + b, extra) == Below(path, a, extra) + Below(path, b, extra)
    ensures Walk(path, Dir(true, a), extra) ==
            [DirNode(Fold(path), path, Names(a))] + Below(path, a, extra)
  {
    hide Fold, WalkUpTo, Walk, Below;
    var es := a + b;
    BelowIs(path, es, extra);
    BelowIs(path, a, extra);
    BelowIs(path, b, extra);
    assert a == es[0..|a|] && b == es[|a|..|a| + |b|];
    NothingWalked(path, es, extra);
    PartEntries(path, es, |a|, a, 0, extra);
    PartEntries(path, es, |b|, b, |a|, extra);
    WalkBehind(path, a, extra);
  }

  lemma {:induction false} NothingWalked(path: string, es: seq<Entry>, extra: seq<string>)
    ensures WalkUpTo(path, Dir(true, es), 0, extra) == []
  {
  }

  lemma {:induction false} WalkBehind(path: string, a: seq<Entry>, extra: seq<string>)
    ensures Walk(path, Dir(true, a), extra) == [DirNode(Fold(path), path, Names(a))] + Below(path, a, extra)
  {
    hide Fold, WalkUpTo;
  }

  /** The listings of the two directories above the root come first, where they open. */
  lemma {:induction false} AncestorsFirst(d: Disk, extra: seq<string>)
    ensures Indexed(d, extra) ==
            (if d.top.Some? then [DirNode("/", "/", d.top.value)] else [])
            + (if d.opt.Some? then [DirNode("/opt", "/opt", d.opt.value)] else [])
            + Walk("/opt/insurgency-server", d.game, extra)
  {
    hide Walk;
    assert Fold("/") == "/" && Fold("/opt") == "/opt";
  }
}
