/** Which indexed ancestor decides about a miss, for any tree - case twins, gaps and all. */
module Ancestors {
  import opened Options
  import opened Paths
  import opened CaseIndex
  import opened GameTree
  import opened Resolve
  import opened IndexTheorems

  /** Usable names throughout: readdir yields none that is empty or has a slash in it. */
  ghost predicate Named(t: Tree) {
    t.Dir? ==> forall i :: 0 <= i < |t.entries| ==> IsName(t.entries[i].name) && Named(t.entries[i].tree)
  }

  lemma {:induction false} ExistingNamed(t: Tree, names: seq<string>)
    requires Named(t) && Exists(t, names)
    ensures AreNames(names)
    decreases |names|
  {
    if names != [] {
      var i :| 0 <= i < |t.entries| && t.entries[i].name == names[0] && Exists(t.entries[i].tree, names[1..]);
      ExistingNamed(t.entries[i].tree, names[1..]);
      assert names == [names[0]] + names[1..];
    }
  }

  // ---- What the index holds for a path ----

  /** The node the walk puts last for a path of the tree that has the fold of this one. */
  function Holder(d: Disk, extra: seq<string>, names: seq<string>): Option<Node> {
    Lookup(Walk(GAME_ROOT, d.game, extra), Fold(GAME_ROOT + Join(names)))
  }

  lemma {:induction false} LookupConcat(a: seq<Node>, b: seq<Node>, cf: string)
    ensures Lookup(a + b, cf) == if Lookup(b, cf).Some? then Lookup(b, cf) else Lookup(a, cf)
    decreases |b|
  {
    if b == [] {
      assert a + b == a;
    } else {
      assert (a + b)[..|a + b| - 1] == a + b[..|b| - 1];
      LookupConcat(a, b[..|b| - 1], cf);
    }
  }

  /** The two ancestors' own nodes do not get in the way. */
  lemma {:induction false} LookupIsHolder(d: Disk, extra: seq<string>, names: seq<string>)
    ensures Lookup(Indexed(d, extra), Fold(GAME_ROOT + Join(names))) == Holder(d, extra, names)
  {
    hide Walk;
    var tops, cf := ListingNode("/", d.top) + ListingNode("/opt", d.opt), Fold(GAME_ROOT + Join(names));
    LookupConcat(tops, Walk(GAME_ROOT, d.game, extra), cf);
    LookupFinds(tops, cf);
    assert |cf| >= |GAME_ROOT|;
  }

  /** These components lead to something the walk puts, and differ from names in case only. */
  ghost predicate Reached(d: Disk, extra: seq<string>, names: seq<string>, other: seq<string>, n: Node) {
    FoldAll(other) == FoldAll(names) && NodeFor(GAME_ROOT, d.game, other, extra, n)
  }

  lemma {:induction false} HolderExactly(d: Disk, extra: seq<string>, names: seq<string>)
    requires Named(d.game) && AreNames(names)
    ensures Holder(d, extra, names).Some? <==> exists other, n :: Reached(d, extra, names, other, n)
    ensures var h := Holder(d, extra, names); h.Some? ==> exists other :: Reached(d, extra, names, other, h.value)
  {
    hide Walk, NodeFor;
    var puts, cf := Walk(GAME_ROOT, d.game, extra), Fold(GAME_ROOT + Join(names));
    LookupFinds(puts, cf);
    if Holder(d, extra, names).Some? {
      var n := Holder(d, extra, names).value;
      var other := WalkOnly(GAME_ROOT, d.game, extra, n);
      NodePath(GAME_ROOT, d.game, other, extra, n);
      ExistingNamed(d.game, other);
      FoldedPathInjective(other, names);
      assert Reached(d, extra, names, other, n);
    }
    if other, n :| Reached(d, extra, names, other, n) {
      NodePath(GAME_ROOT, d.game, other, extra, n);
      WalkHas(GAME_ROOT, d.game, other, extra, n);
      FoldedPath(other);
      FoldedPath(names);
    }
  }

  // ---- The miss ----

  /** The length of the longest proper ancestor that the index holds something for. */
  function Deepest(d: Disk, extra: seq<string>, names: seq<string>): (k: Option<nat>)
    ensures k.Some? ==> k.value < |names| && Holder(d, extra, names[..k.value]).Some?
    ensures forall j :: (if k.Some? then k.value + 1 else 0) <= j < |names| ==> Holder(d, extra, names[..j]).None?
    decreases |names|
  {
    if names == [] then None
    else
      var n := |names| - 1;
      if Holder(d, extra, names[..n]).Some? then Some(n)
      else
        assert forall j :: 0 <= j < n ==> names[..n][..j] == names[..j];
        Deepest(d, extra, names[..n])
  }

  /** The deepest ancestor with a node is a directory whose listing lacks the folded next name; without any such
      ancestor, /opt could be listed and lacks the game root. */
  predicate AncestorLacks(d: Disk, extra: seq<string>, names: seq<string>) {
    match Deepest(d, extra, names)
    case Some(k) =>
      var an := Holder(d, extra, names[..k]).value;
      an.DirNode? && Fold(names[k]) !in an.ents
    case None => d.opt.Some? && ROOT_NAMES[1] !in d.opt.value
  }

  lemma {:induction false} MissAtTop(d: Disk, extra: seq<string>)
    ensures MissAnswer(Indexed(d, extra), Fold(GAME_ROOT + Join([]))) == Enoent <==>
            d.opt.Some? && ROOT_NAMES[1] !in d.opt.value
  {
    hide Indexed, MissAnswer;
    RootFold();
    assert GAME_ROOT + Join([]) == GAME_ROOT + "" == GAME_ROOT;
    RootMiss(d, extra, "");
    assert ROOT_NAMES[1] + "" == ROOT_NAMES[1];
  }

  lemma {:induction false} MissUp(d: Disk, extra: seq<string>, front: seq<string>, last: string)
    requires IsName(last)
    ensures MissAnswer(Indexed(d, extra), Fold(GAME_ROOT + Join(front + [last]))) ==
            match Holder(d, extra, front)
            case Some(an) => Verdict(an, Fold(last))
            case None => MissAnswer(Indexed(d, extra), Fold(GAME_ROOT + Join(front)))
  {
    hide Indexed, MissAnswer, Lookup, Walk;
    var parent := GAME_ROOT + Join(front);
    JoinSnoc(front, last);
    assert GAME_ROOT + Join(front + [last]) == parent + "/" + last;
    assert Fold(parent + "/" + last) == Fold(parent) + "/" + Fold(last);
    SlashFolds(last);
    MissStep(Indexed(d, extra), Fold(parent), Fold(last));
    LookupIsHolder(d, extra, front);
  }

  lemma {:induction false} MissDecided(d: Disk, extra: seq<string>, names: seq<string>)
    requires AreNames(names)
    ensures MissAnswer(Indexed(d, extra), Fold(GAME_ROOT + Join(names))) == Enoent <==> AncestorLacks(d, extra, names)
    decreases |names|
  {
    hide Indexed, MissAnswer, Join, Holder, Fold;
    if names == [] {
      MissAtTop(d, extra);
    } else {
      var n := |names| - 1;
      assert names == names[..n] + [names[n]];
      MissUp(d, extra, names[..n], names[n]);
      if Holder(d, extra, names[..n]).None? {
        MissDecided(d, extra, names[..n]);
        if Deepest(d, extra, names).Some? {
          assert names[..n][..Deepest(d, extra, names).value] == names[..Deepest(d, extra, names).value];
        }
      }
    }
  }

  /** Every verdict on a normalised path, whatever the tree: ENOENT if and only if nothing dirty covers it, the
      index holds nothing for it, and the deepest ancestor it does hold something for - the spelling put last,
      where there are several - is a directory that does not list the folded next name. */
  lemma {:induction false} EnoentExactly(d: Disk, extra: seq<string>, dirty: bool, names: seq<string>)
    requires AreNames(names) && Tracked(GAME_ROOT + Join(names), extra)
    ensures AnswerFor(Indexed(d, extra), dirty, extra, GAME_ROOT + Join(names)) == Enoent <==>
            !dirty && Holder(d, extra, names).None? && AncestorLacks(d, extra, names)
  {
    hide Indexed, MissAnswer, Tracked, Lookup, Walk, AncestorLacks;
    LookupIsHolder(d, extra, names);
    MissDecided(d, extra, names);
  }

  // ---- Lower case is safe but for twins ----

  /** No directory lists a name twice. */
  ghost predicate NoDoubles(t: Tree) {
    t.Dir? ==>
      && (forall i :: 0 <= i < |t.entries| ==> NoDoubles(t.entries[i].tree))
      && var es := t.entries;
         forall i, j :: 0 <= i < |es| && 0 <= j < |es| && es[i].name == es[j].name ==> i == j
  }

  lemma {:induction false} OneMoreName(opens: bool, es: seq<Entry>, e: Entry)
    ensures NoDoubles(Dir(opens, []))
    ensures NoDoubles(Dir(opens, es + [e])) <==>
            NoDoubles(Dir(opens, es)) && NoDoubles(e.tree) && forall i :: 0 <= i < |es| ==> es[i].name != e.name
  {
    var more := es + [e];
    assert forall i :: 0 <= i < |es| ==> more[i] == es[i];
    assert more[|es|] == e;
  }

  lemma {:induction false} OwnNodeLists(path: string, t: Tree, names: seq<string>, k: nat, extra: seq<string>, n: Node)
    requires NoDoubles(t) && Exists(t, names) && k < |names| && NodeFor(path, t, names[..k], extra, n)
    ensures n.FileNode? || names[k] in n.ents
    decreases k
  {
    var i :| 0 <= i < |t.entries| && t.entries[i].name == names[0] && Exists(t.entries[i].tree, names[1..]);
    if k == 0 {
      assert Names(t.entries)[i] == names[0];
    } else {
      var e := t.entries[i];
      assert NodeUnder(path, e, names[..k], extra, n);
      if TakenForDir(e) {
        assert names[..k][1..] == names[1..][..k - 1];
        OwnNodeLists(path + "/" + e.name, e.tree, names[1..], k - 1, extra, n);
      }
    }
  }

  /** An existing path in lower case is answered ENOENT only where some ancestor of it, or the path itself, has a
      twin in the tree: another spelling that differs in case only. */
  lemma {:induction false} OnlyTwinsHideLowerCase(d: Disk, extra: seq<string>, dirty: bool, names: seq<string>)
    returns (k: nat, other: seq<string>)
    requires Named(d.game) && NoDoubles(d.game) && OptListsRoot(d) && Exists(d.game, names) && FoldAll(names) == names
    requires Tracked(GAME_ROOT + Join(names), extra)
    requires AnswerFor(Indexed(d, extra), dirty, extra, GAME_ROOT + Join(names)) == Enoent
    ensures k < |names| && other != names[..k] && FoldAll(other) == FoldAll(names[..k]) && Exists(d.game, other)
  {
    hide Indexed, Tracked, AnswerFor, Holder, NodeFor, NoDoubles, Named;
    ExistingNamed(d.game, names);
    EnoentExactly(d, extra, dirty, names);
    k := Deepest(d, extra, names).value;
    var n := Holder(d, extra, names[..k]).value;
    HolderExactly(d, extra, names[..k]);
    other :| Reached(d, extra, names[..k], other, n);
    NodePath(GAME_ROOT, d.game, other, extra, n);
    assert Fold(names[k]) == names[k] by { assert FoldAll(names)[k] == Fold(names[k]); }
    if other == names[..k] {
      OwnNodeLists(GAME_ROOT, d.game, names, k, extra, n);
    }
  }

  // ---- And twins do hide it ----

  lemma {:induction false} ContainedChars(p: string, sub: string, c: char)
    requires Contains(p, sub) && c in sub
    ensures c in p
  {
  }

  /** None of these letters, no match in the built-in exclusion list. */
  lemma {:induction false} NothingBuiltIn(p: string)
    requires 'd' !in p && 'l' !in p && 'f' !in p
    ensures !IsExcluded(p, [])
  {
    if IsExcluded(p, []) {
      if Contains(p, "/download") { ContainedChars(p, "/download", 'd'); }
      if Contains(p, "/logs") { ContainedChars(p, "/logs", 'l'); }
      if Contains(p, "/cfg/") { ContainedChars(p, "/cfg/", 'f'); }
      if Contains(p, "/addons/sourcemod/data") { ContainedChars(p, "/addons/sourcemod/data", 'd'); }
      if Contains(p, "/addons/sourcemod/logs") { ContainedChars(p, "/addons/sourcemod/logs", 'd'); }
      if Contains(p, "console.log") { ContainedChars(p, "console.log", 'l'); }
    }
  }

  const SHUT := Entry("maps", DtDir, Dir(false, [Entry("y", DtOther, File)]))
  const OPEN := Entry("Maps", DtDir, Dir(true, []))
  const TWINS := Disk(None, None, Dir(true, [OPEN, SHUT]))

  lemma {:induction false} TwinPaths()
    ensures Exists(TWINS.game, ["maps", "y"])
    ensures Gap(ROOT_NAMES[1], TWINS.game, ["maps", "y"]) == Some("maps")
  {
    var names := ["maps", "y"];
    assert names[1..] == ["y"] && names[1..][1..] == [];
    assert SHUT.tree.entries[0].name == "y" && Exists(SHUT.tree.entries[0].tree, names[1..][1..]);
    assert Exists(SHUT.tree, names[1..]);
    assert TWINS.game.entries[1] == SHUT;
    assert EntryOf([SHUT], "maps") == Some(SHUT);
    assert TWINS.game.entries[1..] == [SHUT];
    assert EntryOf(TWINS.game.entries, "maps") == Some(SHUT);
  }

  lemma {:induction false} WalkTwo(path: string, t: Tree, extra: seq<string>)
    requires t.Dir? && |t.entries| == 2
    ensures WalkUpTo(path, t, 2, extra) == WalkEntry(path, t, 0, extra) + WalkEntry(path, t, 1, extra)
  {
    assert WalkUpTo(path, t, 1, extra) == WalkUpTo(path, t, 0, extra) + WalkEntry(path, t, 0, extra);
  }

  lemma {:induction false} TwinEntries()
    ensures WalkEntry(GAME_ROOT, TWINS.game, 0, []) == [DirNode(GAME_ROOT + "/maps", GAME_ROOT + "/Maps", [])]
    ensures WalkEntry(GAME_ROOT, TWINS.game, 1, []) == []
  {
    hide Walk, IsExcluded, Fold;
    var open := GAME_ROOT + "/Maps";
    assert GAME_ROOT + "/" + "Maps" == open && GAME_ROOT + "/" + "maps" == GAME_ROOT + "/maps";
    ShutDir(GAME_ROOT + "/maps");
    OpenPlain();
    OpenFold(open);
    EmptyDir(open);
  }

  lemma {:induction false} OpenPlain()
    ensures !IsExcluded(GAME_ROOT + "/Maps", [])
  {
    hide IsExcluded;
    NothingBuiltIn(GAME_ROOT + "/Maps");
  }

  lemma {:induction false} OpenFold(open: string)
    requires open == GAME_ROOT + "/Maps"
    ensures Fold(open) == GAME_ROOT + "/maps"
  {
    RootFold();
    FoldConcat(GAME_ROOT, "/Maps");
    assert Fold("/Maps") == "/maps";
  }

  lemma {:induction false} ShutDir(path: string)
    ensures Walk(path, SHUT.tree, []) == []
  {
  }

  lemma {:induction false} EmptyDir(path: string)
    ensures Walk(path, OPEN.tree, []) == [DirNode(Fold(path), path, [])]
  {
  }

  lemma {:induction false} TwinPuts()
    ensures Indexed(TWINS, []) ==
            [DirNode(GAME_ROOT, GAME_ROOT, ["Maps", "maps"]), DirNode(GAME_ROOT + "/maps", GAME_ROOT + "/Maps", [])]
  {
    hide WalkEntry, IsExcluded;
    var t := TWINS.game;
    TwinEntries();
    WalkTwo(GAME_ROOT, t, []);
    RootFold();
    assert Names(t.entries) == ["Maps", "maps"];
  }

  lemma {:induction false} TwinTracked()
    ensures Join(["maps", "y"]) == "/maps/y"
    ensures Tracked(GAME_ROOT + "/maps/y", [])
  {
    hide IsExcluded;
    TwinJoin();
    TwinPlain();
  }

  lemma {:induction false} TwinPlain()
    ensures !IsExcluded(GAME_ROOT + "/maps/y", [])
  {
    hide IsExcluded;
    NothingBuiltIn(GAME_ROOT + "/maps/y");
  }

  lemma {:induction false} TwinJoin()
    ensures Join(["maps", "y"]) == "/maps/y"
  {
    JoinHead(["maps", "y"]);
    JoinHead(["y"]);
    assert ["maps", "y"][1..] == ["y"] && ["y"][1..] == [];
  }

  lemma {:induction false} TwinLookup(cf: string)
    requires cf == GAME_ROOT + "/maps" || cf == GAME_ROOT + "/maps/y"
    ensures Lookup(Indexed(TWINS, []), cf) ==
            if cf == GAME_ROOT + "/maps" then Some(DirNode(GAME_ROOT + "/maps", GAME_ROOT + "/Maps", [])) else None
  {
    TwinPuts();
    var root := DirNode(GAME_ROOT, GAME_ROOT, ["Maps", "maps"]);
    var maps := DirNode(GAME_ROOT + "/maps", GAME_ROOT + "/Maps", []);
    assert Indexed(TWINS, []) == [root] + [maps];
    LookupSnoc([root], maps, cf);
    LookupSnoc([], root, cf);
    assert [] + [root] == [root];
    assert |cf| > |GAME_ROOT|;
  }

  lemma {:induction false} TwinFold(q: string)
    requires q == GAME_ROOT + "/maps/y"
    ensures Fold(q) == q && Fold("maps") == "maps"
  {
    RootFold();
    FoldConcat(GAME_ROOT, "/maps/y");
    assert Fold("/maps/y") == "/maps/y";
  }

  lemma {:induction false} TwinAncestor()
    ensures Holder(TWINS, [], ["maps", "y"]) == None
    ensures AncestorLacks(TWINS, [], ["maps", "y"])
  {
    hide Holder, Join, Lookup, Indexed, Fold;
    var names := ["maps", "y"];
    assert names[..1] == ["maps"] && |names| - 1 == 1;
    TwinTracked();
    TwinFold(GAME_ROOT + "/maps/y");
    TwinLookup(GAME_ROOT + "/maps/y");
    LookupIsHolder(TWINS, [], names);
    TwinFolded();
    TwinLookup(GAME_ROOT + "/maps");
    LookupIsHolder(TWINS, [], ["maps"]);
    assert Deepest(TWINS, [], names) == Some(1);
    assert names[1] == "y" && Holder(TWINS, [], names[..1]).value.ents == [];
  }

  lemma {:induction false} TwinFolded()
    ensures Fold(GAME_ROOT + Join(["maps"])) == GAME_ROOT + "/maps"
  {
    JoinHead(["maps"]);
    assert ["maps"][1..] == [] && Join([]) == "";
    assert "/" + "maps" + "" == "/maps";
    RootFold();
    FoldConcat(GAME_ROOT, "/maps");
    assert Fold("/maps") == "/maps";
  }

  /** Twins do break gap safety: "maps" could not be opened, and the file in it is reported missing
      although that name is in lower case, because its twin "Maps" answers for it. */
  lemma {:induction false} TwinHidesGap()
    ensures Exists(TWINS.game, ["maps", "y"]) && OptListsRoot(TWINS) && !MixedCaseGap(TWINS.game, ["maps", "y"])
    ensures Tracked(GAME_ROOT + Join(["maps", "y"]), [])
    ensures AnswerFor(Indexed(TWINS, []), false, [], GAME_ROOT + Join(["maps", "y"])) == Enoent
  {
    hide Indexed, Holder, AncestorLacks, Tracked, Exists, Gap, Join, AnswerFor;
    TwinPaths();
    TwinTracked();
    TwinFold(GAME_ROOT + "/maps/y");
    TwinAncestor();
    assert AreNames(["maps", "y"]);
    EnoentExactly(TWINS, [], false, ["maps", "y"]);
  }
}
