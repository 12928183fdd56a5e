/** What loading a file does, told from its text: its lines from first to last. */
module BaseLines {
  import opened Options
  import opened KeyValues
  import opened Lookups
  import opened Flatten
  import opened SectionOrder
  import Syntax

  // ---- Which file, and which text ----

  /** The name is looked for in one directory after the other, and the first one that has it counts. */
  lemma {:induction false} FirstDirectoryCounts(dirs: Dirs, name: string)
    ensures Resolve(dirs, name).None? <==> forall i :: 0 <= i < |dirs| ==> name !in dirs[i]
    ensures forall i :: 0 <= i < |dirs| && name in dirs[i] && (forall j :: 0 <= j < i ==> name !in dirs[j]) ==>
              Resolve(dirs, name) == Some(dirs[i][name])
  {
    if dirs != [] {
      FirstDirectoryCounts(dirs[1..], name);
      assert forall i :: 0 < i < |dirs| ==> dirs[i] == dirs[1..][i - 1];
      forall i | 0 <= i < |dirs| && name in dirs[i] && (forall j :: 0 <= j < i ==> name !in dirs[j])
        ensures Resolve(dirs, name) == Some(dirs[i][name])
      {
        if i > 0 {
          assert name in dirs[1..][i - 1];
          assert forall j :: 0 <= j < i - 1 ==> dirs[1..][j] == dirs[j + 1];
        }
      }
    }
  }

  predicate IsBaseLine(k: KV) {
    k.Leaf? && SameName(k.name, "#base")
  }

  lemma {:induction false} BaseLine(k: KV)
    ensures IsBaseKey(k) <==> IsBaseLine(k)
  {
    hide SameName, LowerChar;
    NamesMatch(k, Block("#base", []));
    assert LowerName("#base") == "#base" by { PlainName(); }
  }

  lemma {:induction false} PlainName()
    ensures LowerName("#base") == "#base"
  {
  }

  /** One block, and otherwise #base lines only. */
  predicate WellFormed(top: seq<KV>, i: nat) {
    i < |top| && top[i].Block? && forall j :: 0 <= j < |top| && j != i ==> IsBaseLine(top[j])
  }

  lemma {:induction false} NoBlocks(top: seq<KV>)
    requires forall j :: 0 <= j < |top| ==> top[j].Leaf?
    ensures Blocks(top) == []
  {
    if top != [] {
      NoBlocks(top[1..]);
    }
  }

  lemma {:induction false} OneBlock(top: seq<KV>, i: nat)
    requires i < |top| && top[i].Block? && forall j :: 0 <= j < |top| && j != i ==> top[j].Leaf?
    ensures Blocks(top) == [top[i]]
  {
    if i == 0 {
      NoBlocks(top[1..]);
    } else {
      OneBlock(top[1..], i - 1);
    }
  }

  lemma {:induction false} TwoBlocks(top: seq<KV>)
    requires |Blocks(top)| == 1
    ensures exists i :: 0 <= i < |top| && top[i].Block? && forall j :: 0 <= j < |top| && j != i ==> top[j].Leaf?
  {
    if top[0].Leaf? {
      TwoBlocks(top[1..]);
      var i :| 0 <= i < |top[1..]| && top[1..][i].Block?
        && forall j :: 0 <= j < |top[1..]| && j != i ==> top[1..][j].Leaf?;
      assert top[i + 1].Block?;
      assert forall j :: 0 < j < |top| ==> top[j] == top[1..][j - 1];
    } else {
      assert Blocks(top[1..]) == [];
      NothingIn(top[1..]);
      assert forall j :: 0 < j < |top| ==> top[j] == top[1..][j - 1];
      assert top[0].Block?;
    }
  }

  lemma {:induction false} NothingIn(top: seq<KV>)
    requires Blocks(top) == []
    ensures forall j :: 0 <= j < |top| ==> top[j].Leaf?
  {
    if top != [] {
      NothingIn(top[1..]);
      assert forall j :: 0 < j < |top| ==> top[j] == top[1..][j - 1];
    }
  }

  /** A file opens exactly where it is found, parses, and is one block with nothing beside it but #base lines; and
      that block is what it opens to. */
  lemma {:induction false} OpensExactly(dirs: Dirs, name: string)
    ensures OpenFile(dirs, name).Good? <==>
            && Resolve(dirs, name).Some? && Syntax.ParseText(Resolve(dirs, name).value).Ok?
            && exists i: nat :: WellFormed(Syntax.ParseText(Resolve(dirs, name).value).value, i)
    ensures forall i: nat ::
              OpenFile(dirs, name).Good? && WellFormed(Syntax.ParseText(Resolve(dirs, name).value).value, i) ==>
                OpenFile(dirs, name).file.root == Syntax.ParseText(Resolve(dirs, name).value).value[i]
  {
    hide Resolve, Syntax.ParseText, IsBaseKey, IsBaseLine;
    if Resolve(dirs, name).Some? && Syntax.ParseText(Resolve(dirs, name).value).Ok? {
      var top := Syntax.ParseText(Resolve(dirs, name).value).value;
      forall k ensures IsBaseKey(k) <==> IsBaseLine(k) {
        BaseLine(k);
      }
      if i: nat :| WellFormed(top, i) {
        LinesAreLeaves(top, i);
        OneBlock(top, i);
      }
      if |Blocks(top)| == 1 && !HasStray(top) {
        TwoBlocks(top);
        var i :| 0 <= i < |top| && top[i].Block? && forall j :: 0 <= j < |top| && j != i ==> top[j].Leaf?;
        assert WellFormed(top, i);
      }
      forall i: nat | WellFormed(top, i) ensures Blocks(top) == [top[i]] {
        LinesAreLeaves(top, i);
        OneBlock(top, i);
      }
    }
  }

  lemma {:induction false} LinesAreLeaves(top: seq<KV>, i: nat)
    requires WellFormed(top, i)
    ensures forall j :: 0 <= j < |top| && j != i ==> top[j].Leaf?
  {
  }

  // ---- In the order of the lines ----

  /** One line after the other: a #base line has its file loaded and merged in, the block is passed over. */
  function LoadAlong(dirs: Dirs, root: KV, top: seq<KV>, limit: nat): Loaded
    requires limit > 0
    decreases |top|
  {
    if top == [] then Ok(root)
    else if top[0].Block? then LoadAlong(dirs, root, top[1..], limit)
    else
      match Load(dirs, top[0].value, limit - 1)
      case Err(e) => Err(e)
      case Ok(base) =>
        if !SameName(base.name, root.name) then Err(OtherBlock)
        else LoadAlong(dirs, Merge(root, base, 0), top[1..], limit)
  }

  lemma {:induction false} OntoAlong(dirs: Dirs, root: KV, top: seq<KV>, limit: nat)
    requires limit > 0 && forall j :: 0 <= j < |top| && top[j].Leaf? ==> IsBaseLine(top[j])
    ensures LoadOnto(dirs, root, Bases(top), limit) == LoadAlong(dirs, root, top, limit)
    decreases |top|
  {
    hide Load, Merge, SameName, Key;
    if top != [] {
      BaseLine(top[0]);
      if top[0].Leaf? {
        assert ([top[0].value] + Bases(top[1..]))[1..] == Bases(top[1..]);
        var l := Load(dirs, top[0].value, limit - 1);
        if l.Ok? {
          NamesMatch(l.root, root);
          OntoAlong(dirs, Merge(root, l.root, 0), top[1..], limit);
        }
      } else {
        OntoAlong(dirs, root, top[1..], limit);
      }
    }
  }

  /** A file that opens is loaded along its lines, first to last. */
  lemma {:induction false} LoadsAlongItsLines(dirs: Dirs, name: string, limit: nat, i: nat)
    requires limit > 0 && Resolve(dirs, name).Some? && Syntax.ParseText(Resolve(dirs, name).value).Ok?
    requires WellFormed(Syntax.ParseText(Resolve(dirs, name).value).value, i)
    ensures var top := Syntax.ParseText(Resolve(dirs, name).value).value;
            Load(dirs, name, limit) == LoadAlong(dirs, top[i], top, limit)
  {
    hide Resolve, Syntax.ParseText, LoadAlong, LoadOnto, IsBaseLine;
    var top := Syntax.ParseText(Resolve(dirs, name).value).value;
    OpensExactly(dirs, name);
    OntoAlong(dirs, top[i], top, limit);
    OpenedBases(dirs, name);
    LoadUnfolds(dirs, name, limit);
  }

  lemma {:induction false} OpenedBases(dirs: Dirs, name: string)
    requires OpenFile(dirs, name).Good?
    ensures OpenFile(dirs, name).file.bases == Bases(Syntax.ParseText(Resolve(dirs, name).value).value)
  {
    hide Resolve, Syntax.ParseText;
  }

  /** So the file of a #base line is merged into what the lines before it have left, and the lines behind it go on
      from there. */
  lemma {:induction false} LineByLine(dirs: Dirs, root: KV, a: seq<KV>, line: KV, b: seq<KV>, limit: nat)
    requires limit > 0 && line.Leaf?
    ensures LoadAlong(dirs, root, a + [line] + b, limit) ==
            match LoadAlong(dirs, root, a, limit)
            case Err(e) => Err(e)
            case Ok(sofar) =>
              match Load(dirs, line.value, limit - 1)
              case Err(e) => Err(e)
              case Ok(base) =>
                if !SameName(base.name, sofar.name) then Err(OtherBlock)
                else LoadAlong(dirs, Merge(sofar, base, 0), b, limit)
    decreases |a|
  {
    hide Load, Merge, SameName;
    var top := a + [line] + b;
    if a == [] {
      assert top[0] == line && top[1..] == b;
    } else {
      assert top[0] == a[0] && top[1..] == a[1..] + [line] + b;
      if a[0].Block? {
        LineByLine(dirs, root, a[1..], line, b, limit);
      } else {
        var l := Load(dirs, a[0].value, limit - 1);
        if l.Ok? && SameName(l.root.name, root.name) {
          LineByLine(dirs, Merge(root, l.root, 0), a[1..], line, b, limit);
        }
      }
    }
  }

  // ---- What the include tree says ----

  /** A lookup without any merging, line by line. */
  function LookAlong(dirs: Dirs, sofar: Probe, top: seq<KV>, limit: nat, path: seq<string>): Probe
    requires limit > 0
    decreases |top|
  {
    if top == [] then sofar
    else if top[0].Block? then LookAlong(dirs, sofar, top[1..], limit, path)
    else LookAlong(dirs, Over(sofar, LookIncluded(dirs, top[0].value, limit - 1, path)), top[1..], limit, path)
  }

  lemma {:induction false} LookOntoAlong(dirs: Dirs, sofar: Probe, top: seq<KV>, limit: nat, path: seq<string>)
    requires limit > 0 && forall j :: 0 <= j < |top| && top[j].Leaf? ==> IsBaseLine(top[j])
    ensures LookOnto(dirs, sofar, Bases(top), limit, path) == LookAlong(dirs, sofar, top, limit, path)
    decreases |top|
  {
    hide LookIncluded, Over, SameName;
    if top != [] {
      BaseLine(top[0]);
      if top[0].Leaf? {
        assert ([top[0].value] + Bases(top[1..]))[1..] == Bases(top[1..]);
        LookOntoAlong(dirs, Over(sofar, LookIncluded(dirs, top[0].value, limit - 1, path)), top[1..], limit, path);
      } else {
        LookOntoAlong(dirs, sofar, top[1..], limit, path);
      }
    }
  }

  /** The lookup along the include tree asks the file's own block first, and then the files of its #base lines in
      the order of the lines. */
  lemma {:induction false} LooksAlongItsLines(dirs: Dirs, name: string, limit: nat, i: nat, path: seq<string>)
    requires limit > 0 && Resolve(dirs, name).Some? && Syntax.ParseText(Resolve(dirs, name).value).Ok?
    requires WellFormed(Syntax.ParseText(Resolve(dirs, name).value).value, i)
    ensures var top := Syntax.ParseText(Resolve(dirs, name).value).value;
            LookIncluded(dirs, name, limit, path) == LookAlong(dirs, Look(top[i], path), top, limit, path)
  {
    hide Resolve, Syntax.ParseText, LookAlong, LookOnto, IsBaseLine, OpenFile;
    var top := Syntax.ParseText(Resolve(dirs, name).value).value;
    OpensExactly(dirs, name);
    OpenedBases(dirs, name);
    LookOntoAlong(dirs, Look(top[i], path), top, limit, path);
  }
}
