/** What the index promises about the frozen tree: every answer agrees with the tree it was built
    from, and exactly where it does not. */
module IndexTheorems {
  import opened Options
  import opened Paths
  import opened CaseIndex
  import opened GameTree
  import opened Resolve

  // ---- Paths of a tree ----

  /** The tree holds an entry at these components, each spelled exactly so. */
  ghost predicate Exists(t: Tree, names: seq<string>) {
    names == [] ||
    (t.Dir? &&
     exists i :: 0 <= i < |t.entries| && t.entries[i].name == names[0] && Exists(t.entries[i].tree, names[1..]))
  }

  /** The walk puts node n for these components. */
  ghost predicate NodeFor(path: string, t: Tree, names: seq<string>, extra: seq<string>, n: Node)
    decreases |names|, 1
  {
    && t.Dir? && t.opens
    && if names == [] then n == DirNode(Fold(path), path, Names(t.entries))
       else
         exists i :: 0 <= i < |t.entries| && t.entries[i].name == names[0]
                     && NodeUnder(path, t.entries[i], names, extra, n)
  }

  ghost predicate NodeUnder(path: string, e: Entry, names: seq<string>, extra: seq<string>, n: Node)
    requires names != []
    decreases |names|, 0
  {
    var child := path + "/" + e.name;
    && !IsExcluded(child, extra)
    && if TakenForDir(e) then NodeFor(child, e.tree, names[1..], extra, n)
       else |names| == 1 && n == FileNode(Fold(child), child)
  }

  /** Entry i of t is the one n is put for. */
  predicate PutBy(path: string, t: Tree, i: int, extra: seq<string>, n: Node)
    requires t.Dir?
  {
    0 <= i < |t.entries| && n in WalkEntry(path, t, i, extra)
  }

  lemma {:induction false} WalkUpToHas(path: string, t: Tree, k: nat, extra: seq<string>, n: Node)
    requires t.Dir? && k <= |t.entries|
    ensures n in WalkUpTo(path, t, k, extra) <==> exists i :: 0 <= i < k && PutBy(path, t, i, extra, n)
  {
    if k > 0 {
      WalkUpToHas(path, t, k - 1, extra, n);
      assert n in WalkUpTo(path, t, k, extra) <==>
        n in WalkUpTo(path, t, k - 1, extra) || PutBy(path, t, k - 1, extra, n);
    }
  }

  /** Every node the walk puts is the node of some components. */
  lemma {:induction false} WalkOnly(path: string, t: Tree, extra: seq<string>, n: Node) returns (names: seq<string>)
    requires n in Walk(path, t, extra)
    ensures NodeFor(path, t, names, extra, n)
    decreases t
  {
    names := [];
    if n != DirNode(Fold(path), path, Names(t.entries)) {
      WalkUpToHas(path, t, |t.entries|, extra, n);
      var i :| 0 <= i < |t.entries| && PutBy(path, t, i, extra, n);
      var e := t.entries[i];
      if TakenForDir(e) {
        var rest := WalkOnly(path + "/" + e.name, e.tree, extra, n);
        names := [e.name] + rest;
        assert names[1..] == rest;
      } else {
        names := [e.name];
      }
      assert NodeUnder(path, e, names, extra, n);
    }
  }

  /** The node of any components is put by the walk. */
  lemma {:induction false} WalkHas(path: string, t: Tree, names: seq<string>, extra: seq<string>, n: Node)
    requires NodeFor(path, t, names, extra, n)
    ensures n in Walk(path, t, extra)
    decreases |names|
  {
    if names != [] {
      var i :| 0 <= i < |t.entries| && t.entries[i].name == names[0] && NodeUnder(path, t.entries[i], names, extra, n);
      if TakenForDir(t.entries[i]) {
        WalkHas(path + "/" + t.entries[i].name, t.entries[i].tree, names[1..], extra, n);
      }
      assert PutBy(path, t, i, extra, n);
      WalkUpToHas(path, t, |t.entries|, extra, n);
    }
  }

  lemma {:induction false} JoinHead(names: seq<string>)
    requires names != []
    ensures Join(names) == "/" + names[0] + Join(names[1..])
  {
    assert names == [names[0]] + names[1..];
    JoinConcat([names[0]], names[1..]);
    assert Join([names[0]]) == "/" + names[0] by {
      assert [names[0]][..0] == [];
      assert Join([names[0]]) == Join([]) + "/" + names[0];
    }
  }

  /** A node carries the path of its components, that path's fold as its key, and a place in the tree. */
  lemma {:induction false} NodePath(path: string, t: Tree, names: seq<string>, extra: seq<string>, n: Node)
    requires NodeFor(path, t, names, extra, n)
    ensures n.path == path + Join(names) && n.cf == Fold(n.path)
    ensures Exists(t, names)
    ensures names != [] ==> !IsExcluded(n.path, extra)
    decreases |names|
  {
    if names != [] {
      var i :| 0 <= i < |t.entries| && t.entries[i].name == names[0] && NodeUnder(path, t.entries[i], names, extra, n);
      var child := path + "/" + names[0];
      JoinHead(names);
      if TakenForDir(t.entries[i]) {
        NodePath(child, t.entries[i].tree, names[1..], extra, n);
        assert n.path == child + Join(names[1..]);
        if names[1..] == [] {
          assert n.path == child;
        }
      } else {
        assert names[1..] == [];
      }
      assert n.path == path + Join(names);
      assert Exists(t.entries[i].tree, names[1..]);
    }
  }

  // ---- Hits ----

  lemma {:induction false} PutsOf(d: Disk, extra: seq<string>, n: Node) returns (names: seq<string>)
    requires n in Indexed(d, extra) && |GAME_ROOT| <= |n.cf|
    ensures NodeFor(GAME_ROOT, d.game, names, extra, n)
  {
    assert n !in ListingNode("/", d.top) && n !in ListingNode("/opt", d.opt);
    names := WalkOnly(GAME_ROOT, d.game, extra, n);
  }

  /** The tree holds this path, and it is not excluded. */
  ghost predicate Indexable(t: Tree, names: seq<string>, extra: seq<string>) {
    Exists(t, names) && !IsExcluded(GAME_ROOT + Join(names), extra)
  }

  /** Whatever could or could not be opened, a hit names a path of the tree, not excluded, that differs
      from the query in case only. */
  lemma {:induction false} HitIsSound(d: Disk, extra: seq<string>, dirty: bool, q: string) returns (names: seq<string>)
    requires AnswerFor(Indexed(d, extra), dirty, extra, q).Hit?
    ensures Indexable(d.game, names, extra)
    ensures AnswerFor(Indexed(d, extra), dirty, extra, q) == Hit(GAME_ROOT + Join(names))
    ensures Fold(GAME_ROOT + Join(names)) == Fold(q)
  {
    var puts := Indexed(d, extra);
    LookupFinds(puts, Fold(q));
    var n := Lookup(puts, Fold(q)).value;
    names := PutsOf(d, extra, n);
    NodePath(GAME_ROOT, d.game, names, extra, n);
    if names == [] {
      assert GAME_ROOT + Join(names) == GAME_ROOT;
      assert |q| == |Fold(q)| == |GAME_ROOT|;
      assert q == GAME_ROOT;
    }
  }

  lemma {:induction false} NodeGivesHit(d: Disk, extra: seq<string>, dirty: bool, q: string, names: seq<string>,
         n: Node)
    requires NodeFor(GAME_ROOT, d.game, names, extra, n)
    requires Tracked(q, extra) && Fold(GAME_ROOT + Join(names)) == Fold(q)
    ensures AnswerFor(Indexed(d, extra), dirty, extra, q).Hit?
  {
    var puts := Indexed(d, extra);
    NodePath(GAME_ROOT, d.game, names, extra, n);
    WalkHas(GAME_ROOT, d.game, names, extra, n);
    LookupFinds(puts, Fold(q));
    var m := Lookup(puts, Fold(q)).value;
    var names' := PutsOf(d, extra, m);
    NodePath(GAME_ROOT, d.game, names', extra, m);
    assert |m.path| == |Fold(m.path)| == |q|;
  }

  lemma {:induction false} BelowFirst(path: string, names: seq<string>) returns (rest: string)
    requires names != []
    ensures |names| == 1 ==> path + Join(names) == path + "/" + names[0]
    ensures |names| > 1 ==> path + Join(names) == path + "/" + names[0] + "/" + rest
  {
    JoinHead(names);
    rest := "";
    if |names| > 1 {
      JoinHead(names[1..]);
      rest := names[1] + Join(names[1..][1..]);
    }
  }

  lemma {:induction false} ParentExcluded(path: string, names: seq<string>, extra: seq<string>)
    requires names != [] && IsExcluded(path + "/" + names[0], extra)
    ensures IsExcluded(path + Join(names), extra)
  {
    var rest := BelowFirst(path, names);
    if |names| > 1 {
      ExclusionInherited(path + "/" + names[0], rest, extra);
    }
  }

  /** Every directory opens and every listing entry is taken for what it is. */
  ghost predicate Complete(t: Tree) {
    t.Dir? ==> t.opens && forall i :: 0 <= i < |t.entries| ==>
      (TakenForDir(t.entries[i]) <==> t.entries[i].tree.Dir?) && Complete(t.entries[i].tree)
  }

  lemma {:induction false} CompleteHas(path: string, t: Tree, names: seq<string>, extra: seq<string>) returns (n: Node)
    requires t.Dir? && Complete(t) && Exists(t, names)
    requires names == [] || !IsExcluded(path + Join(names), extra)
    ensures NodeFor(path, t, names, extra, n)
    decreases |names|
  {
    if names == [] {
      n := DirNode(Fold(path), path, Names(t.entries));
    } else {
      var i :| 0 <= i < |t.entries| && t.entries[i].name == names[0] && Exists(t.entries[i].tree, names[1..]);
      var e, child := t.entries[i], path + "/" + names[0];
      JoinHead(names);
      assert path + Join(names) == child + Join(names[1..]);
      if IsExcluded(child, extra) {
        ParentExcluded(path, names, extra);
      }
      if |names| == 1 {
        assert path + Join(names) == child;
      }
      if e.tree.Dir? {
        n := CompleteHas(child, e.tree, names[1..], extra);
      } else {
        n := FileNode(Fold(child), child);
      }
      assert NodeUnder(path, e, names, extra, n);
    }
  }

  /** Index refinement. After a complete build a tracked query is a hit exactly when some path of the
      tree that is not excluded has its fold - whatever else is dirty, and case twins included. */
  lemma {:induction false} IndexRefinesTree(d: Disk, extra: seq<string>, dirty: bool, q: string)
    requires d.game.Dir? && Complete(d.game)
    requires Tracked(q, extra)
    ensures AnswerFor(Indexed(d, extra), dirty, extra, q).Hit? <==>
            exists names :: Indexable(d.game, names, extra) && Fold(GAME_ROOT + Join(names)) == Fold(q)
  {
    if AnswerFor(Indexed(d, extra), dirty, extra, q).Hit? {
      var names := HitIsSound(d, extra, dirty, q);
    }
    if names :| Indexable(d.game, names, extra) && Fold(GAME_ROOT + Join(names)) == Fold(q) {
      var n := CompleteHas(GAME_ROOT, d.game, names, extra);
      NodeGivesHit(d, extra, dirty, q, names, n);
    }
  }

  // ---- Gaps ----

  /** Usable names throughout, and no two siblings that differ in case only. */
  ghost predicate NoTwins(t: Tree) {
    t.Dir? ==>
      && (forall i :: 0 <= i < |t.entries| ==> IsName(t.entries[i].name) && NoTwins(t.entries[i].tree))
      && var es := t.entries;
         forall i, j :: 0 <= i < |es| && 0 <= j < |es| && Fold(es[i].name) == Fold(es[j].name) ==> i == j
  }

  /** One more entry keeps a directory free of twins exactly where its name has another fold than those before it. */
  lemma {:induction false} OneMoreEntry(opens: bool, es: seq<Entry>, e: Entry)
    ensures NoTwins(Dir(opens, []))
    ensures NoTwins(Dir(opens, es + [e])) <==>
            && NoTwins(Dir(opens, es)) && IsName(e.name) && NoTwins(e.tree)
            && forall i :: 0 <= i < |es| ==> Fold(es[i].name) != Fold(e.name)
  {
    hide Fold, IsName;
    var more := es + [e];
    assert forall i :: 0 <= i < |es| ==> more[i] == es[i];
    assert more[|es|] == e;
  }

  function EntryOf(es: seq<Entry>, name: string): (r: Option<Entry>)
    ensures r.Some? ==> r.value in es && r.value.name == name
    ensures r.None? ==> forall i :: 0 <= i < |es| ==> es[i].name != name
  {
    if es == [] then None
    else if es[0].name == name then Some(es[0])
    else EntryOf(es[1..], name)
  }

  function NodeAt(path: string, t: Tree, names: seq<string>, extra: seq<string>): Option<Node>
    decreases |names|
  {
    if t.File? || !t.opens then None
    else if names == [] then Some(DirNode(Fold(path), path, Names(t.entries)))
    else
      match EntryOf(t.entries, names[0])
      case None => None
      case Some(e) =>
        var child := path + "/" + e.name;
        if IsExcluded(child, extra) then None
        else if TakenForDir(e) then NodeAt(child, e.tree, names[1..], extra)
        else if |names| == 1 then Some(FileNode(Fold(child), child))
        else None
  }

  /** The first thing on the way down that was taken for a directory and could not be opened. */
  function Gap(name: string, t: Tree, names: seq<string>): Option<string>
    decreases |names|
  {
    if t.File? || !t.opens then Some(name)
    else if names == [] then None
    else
      match EntryOf(t.entries, names[0])
      case Some(e) => if TakenForDir(e) then Gap(e.name, e.tree, names[1..]) else None
      case None => None
  }

  /** Existing spellings with the same fold are the same spelling, where there are no twins. */
  lemma {:induction false} FoldDetermines(t: Tree, a: seq<string>, b: seq<string>)
    requires NoTwins(t) && Exists(t, a) && Exists(t, b)
    requires FoldAll(a) == FoldAll(b)
    ensures a == b && AreNames(a)
    decreases |a|
  {
    hide Fold, Lower;
    if a != [] {
      var i :| 0 <= i < |t.entries| && t.entries[i].name == a[0] && Exists(t.entries[i].tree, a[1..]);
      var j :| 0 <= j < |t.entries| && t.entries[j].name == b[0] && Exists(t.entries[j].tree, b[1..]);
      assert FoldAll(a)[0] == FoldAll(b)[0];
      assert i == j;
      assert FoldAll(a[1..]) == FoldAll(a)[1..] == FoldAll(b)[1..] == FoldAll(b[1..]);
      FoldDetermines(t.entries[i].tree, a[1..], b[1..]);
      assert a == [a[0]] + a[1..] && b == [b[0]] + b[1..];
    }
  }

  /** Without twins, the walk's nodes are those `NodeAt` finds by exact name. */
  lemma {:induction false} NodeAtAgrees(path: string, t: Tree, names: seq<string>, extra: seq<string>, n: Node)
    requires NoTwins(t)
    ensures NodeFor(path, t, names, extra, n) <==> NodeAt(path, t, names, extra) == Some(n)
    decreases |names|
  {
    if t.Dir? && t.opens && names != [] {
      match EntryOf(t.entries, names[0])
      case None =>
      case Some(e) =>
        var k :| 0 <= k < |t.entries| && t.entries[k] == e;
        NodeAtAgrees(path + "/" + e.name, e.tree, names[1..], extra, n);
        assert forall i :: 0 <= i < |t.entries| && t.entries[i].name == names[0] ==> i == k;
        assert NodeUnder(path, e, names, extra, n) <==> NodeAt(path, t, names, extra) == Some(n);
    }
  }

  lemma {:induction false} ExistingAreNames(t: Tree, names: seq<string>)
    requires NoTwins(t) && Exists(t, names)
    ensures AreNames(names)
  {
    FoldDetermines(t, names, names);
  }

  const ROOT_NAMES := ["opt", "insurgency-server"]

  lemma {:induction false} RootFold()
    ensures Fold(GAME_ROOT) == GAME_ROOT
  {
  }

  lemma {:induction false} RootJoin()
    ensures Join(ROOT_NAMES) == GAME_ROOT
  {
  }

  lemma {:induction false} FoldedPath(names: seq<string>)
    ensures Fold(GAME_ROOT + Join(names)) == Join(ROOT_NAMES + FoldAll(names))
  {
    RootFold();
    FoldConcat(GAME_ROOT, Join(names));
    FoldJoin(names);
    RootJoin();
    JoinConcat(ROOT_NAMES, FoldAll(names));
  }

  lemma {:induction false} FoldedPathInjective(a: seq<string>, b: seq<string>)
    requires AreNames(a) && AreNames(b)
    requires Fold(GAME_ROOT + Join(a)) == Fold(GAME_ROOT + Join(b))
    ensures FoldAll(a) == FoldAll(b)
  {
    FoldedPath(a);
    FoldedPath(b);
    FoldedNames(a);
    FoldedNames(b);
    JoinConcat(ROOT_NAMES, FoldAll(a));
    JoinConcat(ROOT_NAMES, FoldAll(b));
    var k := |Join(ROOT_NAMES)|;
    assert Join(FoldAll(a)) == (Join(ROOT_NAMES) + Join(FoldAll(a)))[k..];
    assert Join(FoldAll(b)) == (Join(ROOT_NAMES) + Join(FoldAll(b)))[k..];
    JoinInjective(FoldAll(a), FoldAll(b));
  }

  /** Looking up an existing spelling finds that spelling's own node, or nothing. */
  lemma {:induction false} LookupAt(d: Disk, extra: seq<string>, names: seq<string>)
    requires NoTwins(d.game) && Exists(d.game, names)
    ensures Lookup(Indexed(d, extra), Fold(GAME_ROOT + Join(names))) == NodeAt(GAME_ROOT, d.game, names, extra)
  {
    var puts, cf := Indexed(d, extra), Fold(GAME_ROOT + Join(names));
    LookupFinds(puts, cf);
    var at := NodeAt(GAME_ROOT, d.game, names, extra);
    if at.Some? {
      NodeAtAgrees(GAME_ROOT, d.game, names, extra, at.value);
      NodePath(GAME_ROOT, d.game, names, extra, at.value);
      WalkHas(GAME_ROOT, d.game, names, extra, at.value);
    }
    if Lookup(puts, cf).Some? {
      var m := Lookup(puts, cf).value;
      var names' := PutsOf(d, extra, m);
      NodePath(GAME_ROOT, d.game, names', extra, m);
      ExistingAreNames(d.game, names);
      ExistingAreNames(d.game, names');
      FoldedPathInjective(names, names');
      FoldDetermines(d.game, names, names');
      NodeAtAgrees(GAME_ROOT, d.game, names, extra, m);
    }
  }

  /** One component further: what the parent's node, if any, says about a child that has none. */
  lemma {:induction false} GapStep(path: string, t: Tree, name: string, front: seq<string>, last: string,
         extra: seq<string>)
    requires NoTwins(t) && Exists(t, front + [last])
    requires !IsExcluded(path + Join(front + [last]), extra)
    requires NodeAt(path, t, front + [last], extra).None?
    ensures Exists(t, front)
    ensures match NodeAt(path, t, front, extra)
            case None => Gap(name, t, front + [last]) == Gap(name, t, front)
            case Some(an) => if an.FileNode? then Gap(name, t, front + [last]).None?
                             else
                               && Gap(name, t, front + [last]) == Some(last)
                               && (Fold(last) in an.ents <==> Fold(last) == last)
    decreases |front|
  {
    hide IsExcluded, Join, Fold;
    var names := front + [last];
    var i :| 0 <= i < |t.entries| && t.entries[i].name == names[0] && Exists(t.entries[i].tree, names[1..]);
    var e, child := t.entries[i], path + "/" + names[0];
    JoinHead(names);
    assert path + Join(names) == child + Join(names[1..]);
    assert EntryOf(t.entries, names[0]) == Some(e);
    if IsExcluded(child, extra) {
      ParentExcluded(path, names, extra);
      assert false;
    }
    if front == [] {
      assert names == [last];
      if t.opens && Fold(last) in Names(t.entries) {
        var j :| 0 <= j < |t.entries| && t.entries[j].name == Fold(last);
        FoldIdempotent(last);
        assert j == i;
      }
      if t.opens && TakenForDir(e) {
        assert names[1..] == [];
      }
    } else {
      assert front[0] == names[0] && names[1..] == front[1..] + [last];
      if t.opens && TakenForDir(e) {
        GapStep(child, e.tree, e.name, front[1..], last, extra);
      } else {
        assert Exists(e.tree, front[1..]) by { PrefixExists(e.tree, front[1..], last); }
      }
    }
  }

  lemma {:induction false} PrefixExists(t: Tree, front: seq<string>, last: string)
    requires Exists(t, front + [last])
    ensures Exists(t, front)
    decreases |front|
  {
    if front != [] {
      var names := front + [last];
      var i :| 0 <= i < |t.entries| && t.entries[i].name == names[0] && Exists(t.entries[i].tree, names[1..]);
      assert names[1..] == front[1..] + [last];
      PrefixExists(t.entries[i].tree, front[1..], last);
    }
  }

  lemma {:induction false} MissStep(puts: seq<Node>, front: string, last: string)
    requires front != "" && '/' !in last
    ensures MissAnswer(puts, front + "/" + last) ==
            match Lookup(puts, front)
            case Some(an) => Verdict(an, last)
            case None => MissAnswer(puts, front)
  {
    var s := front + "/" + last;
    LastSlashOfJoin(front, last);
    assert s[..|front|] == front && s[|front| + 1..] == last;
  }

  /** /opt, where it could be listed, lists the game root. */
  predicate OptListsRoot(d: Disk) {
    d.opt.Some? ==> ROOT_NAMES[1] in d.opt.value
  }

  lemma {:induction false} WalkKeysLong(d: Disk, extra: seq<string>, n: Node)
    requires n in Walk(GAME_ROOT, d.game, extra)
    ensures |n.cf| >= |GAME_ROOT|
  {
    var names := WalkOnly(GAME_ROOT, d.game, extra, n);
    NodePath(GAME_ROOT, d.game, names, extra, n);
  }

  lemma {:induction false} LookupOpt(d: Disk, extra: seq<string>)
    ensures Lookup(Indexed(d, extra), "/opt") ==
            if d.opt.Some? then Some(DirNode("/opt", "/opt", d.opt.value)) else None
  {
    var puts := Indexed(d, extra);
    LookupFinds(puts, "/opt");
    assert Fold("/opt") == "/opt" && Fold("/") == "/";
    assert d.opt.Some? ==> DirNode("/opt", "/opt", d.opt.value) in ListingNode("/opt", d.opt);
    if Lookup(puts, "/opt").Some? {
      var m := Lookup(puts, "/opt").value;
      if m in Walk(GAME_ROOT, d.game, extra) {
        WalkKeysLong(d, extra, m);
      }
      assert m in ListingNode("/", d.top) || m in ListingNode("/opt", d.opt);
    }
  }

  lemma {:induction false} RootMiss(d: Disk, extra: seq<string>, s: string)
    requires '/' !in s
    ensures MissAnswer(Indexed(d, extra), GAME_ROOT + s) ==
            if d.opt.Some? && ROOT_NAMES[1] + s !in d.opt.value then Enoent else Passthrough
  {
    hide Indexed, Lookup;
    var puts := Indexed(d, extra);
    assert GAME_ROOT + s == "/opt" + "/" + (ROOT_NAMES[1] + s);
    MissStep(puts, "/opt", ROOT_NAMES[1] + s);
    LookupOpt(d, extra);
    assert MissAnswer(puts, "/opt") == Passthrough by {
      LastSlashUnique("/opt", 0);
    }
  }

  lemma {:induction false} NodeHasNoGap(path: string, t: Tree, name: string, names: seq<string>, extra: seq<string>)
    requires NodeAt(path, t, names, extra).Some?
    ensures Gap(name, t, names).None?
    decreases |names|
  {
    if names != [] {
      var e := EntryOf(t.entries, names[0]).value;
      if TakenForDir(e) {
        NodeHasNoGap(path + "/" + e.name, e.tree, e.name, names[1..], extra);
      }
    }
  }

  /** The gap on the way to these components, if there is one, has a name that is not all lower case. */
  predicate MixedCaseGap(t: Tree, names: seq<string>) {
    var g := Gap(ROOT_NAMES[1], t, names);
    g.Some? && Fold(g.value) != g.value
  }

  lemma {:induction false} MissAtRoot(d: Disk, extra: seq<string>)
    requires OptListsRoot(d)
    ensures MissAnswer(Indexed(d, extra), Fold(GAME_ROOT + Join([]))) == Passthrough
  {
    RootFold();
    assert GAME_ROOT + Join([]) == GAME_ROOT + "" == GAME_ROOT;
    RootMiss(d, extra, "");
    assert ROOT_NAMES[1] + "" == ROOT_NAMES[1];
  }

  lemma {:induction false} FrontNotExcluded(front: seq<string>, last: string, extra: seq<string>)
    ensures IsExcluded(GAME_ROOT + Join(front), extra) ==> IsExcluded(GAME_ROOT + Join(front + [last]), extra)
  {
    JoinSnoc(front, last);
    assert GAME_ROOT + Join(front + [last]) == GAME_ROOT + Join(front) + "/" + last;
    if IsExcluded(GAME_ROOT + Join(front), extra) {
      ExclusionInherited(GAME_ROOT + Join(front), last, extra);
    }
  }

  lemma {:induction false} MissAbove(d: Disk, extra: seq<string>, front: seq<string>, last: string)
    requires NoTwins(d.game) && Exists(d.game, front) && IsName(last)
    ensures MissAnswer(Indexed(d, extra), Fold(GAME_ROOT + Join(front + [last]))) ==
            match NodeAt(GAME_ROOT, d.game, front, extra)
            case Some(an) => Verdict(an, Fold(last))
            case None => MissAnswer(Indexed(d, extra), Fold(GAME_ROOT + Join(front)))
  {
    var parent := GAME_ROOT + Join(front);
    JoinSnoc(front, last);
    assert GAME_ROOT + Join(front + [last]) == parent + "/" + last;
    assert Fold(parent + "/" + last) == Fold(parent) + "/" + Fold(last);
    SlashFolds(last);
    MissStep(Indexed(d, extra), Fold(parent), Fold(last));
    LookupAt(d, extra, front);
  }

  lemma {:induction false} MissBelow(d: Disk, extra: seq<string>, names: seq<string>)
    requires NoTwins(d.game) && Exists(d.game, names) && OptListsRoot(d)
    requires !IsExcluded(GAME_ROOT + Join(names), extra)
    requires NodeAt(GAME_ROOT, d.game, names, extra).None?
    ensures MissAnswer(Indexed(d, extra), Fold(GAME_ROOT + Join(names))) == Enoent <==> MixedCaseGap(d.game, names)
    decreases |names|
  {
    hide Indexed, MissAnswer, IsExcluded, Join, NoTwins, NodeAt;
    if names == [] {
      MissAtRoot(d, extra);
      assert Fold(ROOT_NAMES[1]) == ROOT_NAMES[1];
    } else {
      var front, last := names[..|names| - 1], names[|names| - 1];
      assert names == front + [last];
      GapStep(GAME_ROOT, d.game, ROOT_NAMES[1], front, last, extra);
      FrontNotExcluded(front, last, extra);
      ExistingAreNames(d.game, names);
      MissAbove(d, extra, front, last);
      if NodeAt(GAME_ROOT, d.game, front, extra).None? {
        MissBelow(d, extra, front);
      }
    }
  }

  /** Gap safety, exactly. For a tracked path that exists in the frozen tree as spelled, whatever could
      not be opened during the build, the answer is a false ENOENT if and only if nothing dirty covers
      it and the first unopened directory on the way has an upper-case letter in its name. */
  lemma {:induction false} FalseEnoentExactly(d: Disk, extra: seq<string>, dirty: bool, names: seq<string>)
    requires NoTwins(d.game) && Exists(d.game, names) && OptListsRoot(d)
    requires Tracked(GAME_ROOT + Join(names), extra)
    ensures AnswerFor(Indexed(d, extra), dirty, extra, GAME_ROOT + Join(names)) == Enoent <==>
            !dirty && MixedCaseGap(d.game, names)
  {
    LookupAt(d, extra, names);
    if NodeAt(GAME_ROOT, d.game, names, extra).Some? {
      NodeHasNoGap(GAME_ROOT, d.game, ROOT_NAMES[1], names, extra);
    } else {
      MissBelow(d, extra, names);
    }
  }

  lemma {:induction false} SlashFolds(s: string)
    ensures '/' in Fold(s) <==> '/' in s
  {
  }

  /** No key of the index lies under a neighbour of the game root. */
  lemma {:induction false} NothingUnderNeighbours(d: Disk, extra: seq<string>, s: string, rest: string)
    requires s != "" && s[0] != '/'
    ensures Lookup(Indexed(d, extra), GAME_ROOT + s + rest).None?
  {
    var puts, cf := Indexed(d, extra), GAME_ROOT + s + rest;
    LookupFinds(puts, cf);
    if Lookup(puts, cf).Some? {
      var m := Lookup(puts, cf).value;
      var names := PutsOf(d, extra, m);
      NodePath(GAME_ROOT, d.game, names, extra, m);
      FoldedPath(names);
      RootJoin();
      JoinConcat(ROOT_NAMES, FoldAll(names));
      assert cf == GAME_ROOT + Join(FoldAll(names));
      assert cf[|GAME_ROOT|..] == Join(FoldAll(names)) && cf[|GAME_ROOT|] == s[0];
      if names != [] {
        JoinHead(FoldAll(names));
      }
    }
  }

  predicate Below(rest: string) {
    rest == "" || rest[0] == '/'
  }

  lemma {:induction false} NeighbourMiss(d: Disk, extra: seq<string>, s: string, rest: string)
    requires s != "" && '/' !in s && Below(rest)
    ensures MissAnswer(Indexed(d, extra), GAME_ROOT + s + rest) ==
            if d.opt.Some? && ROOT_NAMES[1] + s !in d.opt.value then Enoent else Passthrough
    decreases |rest|
  {
    hide Indexed, Lookup, MissAnswer;
    var puts := Indexed(d, extra);
    if rest == "" {
      assert GAME_ROOT + s + rest == GAME_ROOT + s;
      RootMiss(d, extra, s);
    } else {
      var i := LastSlash(rest);
      var front, last := rest[..i], rest[i + 1..];
      assert rest == front + "/" + last;
      assert GAME_ROOT + s + rest == GAME_ROOT + s + front + "/" + last;
      MissStep(puts, GAME_ROOT + s + front, last);
      NothingUnderNeighbours(d, extra, s, front);
      NeighbourMiss(d, extra, s, front);
    }
  }

  /** The tracked-path test accepts paths that merely begin like the game root. For such a neighbour and for
      everything below it the verdict comes from the listing of /opt: ENOENT unless it lists the folded name. */
  lemma {:induction false} NamesBeginningLikeTheRoot(d: Disk, extra: seq<string>, dirty: bool, s: string, rest: string)
    requires s != "" && '/' !in s && Below(rest)
    requires Tracked(GAME_ROOT + s + rest, extra)
    ensures AnswerFor(Indexed(d, extra), dirty, extra, GAME_ROOT + s + rest) == Enoent <==>
            !dirty && d.opt.Some? && ROOT_NAMES[1] + Fold(s) !in d.opt.value
  {
    hide Indexed, Lookup, MissAnswer, Tracked;
    RootFold();
    FoldConcat(GAME_ROOT, s);
    FoldConcat(GAME_ROOT + s, rest);
    SlashFolds(s);
    assert Fold(s)[0] == Lower(s[0]);
    assert Fold(s)[0] in Fold(s);
    NothingUnderNeighbours(d, extra, Fold(s), Fold(rest));
    NeighbourMiss(d, extra, Fold(s), Fold(rest));
  }
}
