/** Loading a theater with its #base chain, from files held in memory, and what the flattened theater says
    compared with the files it came from. */
module Flatten {
  import opened Options
  import opened KeyValues
  import opened MergeLaws
  import opened BaseOrder
  import opened Lookups
  import opened Orphans
  import opened Overlay
  import Syntax

  datatype LoadError =
    | NotFound
    | BadSyntax(error: Syntax.Error)
    | StrayKeys
    | NotOneBlock
    | OtherBlock
    | TooDeep

  datatype Loaded = Ok(root: KV) | Err(error: LoadError)

  /** The search directories, nearest first: file name to text. */
  type Dirs = seq<map<string, string>>

  function Resolve(dirs: Dirs, name: string): Option<string> {
    if dirs == [] then None
    else if name in dirs[0] then Some(dirs[0][name])
    else Resolve(dirs[1..], name)
  }

  const BASE := "#base"

  predicate IsBaseKey(k: KV) {
    k.Leaf? && Key(k) == BASE
  }

  function Bases(top: seq<KV>): seq<string> {
    if top == [] then []
    else if IsBaseKey(top[0]) then [top[0].value] + Bases(top[1..])
    else Bases(top[1..])
  }

  function Blocks(top: seq<KV>): (bs: seq<KV>)
    ensures forall i :: 0 <= i < |bs| ==> bs[i].Block? && bs[i] in top
  {
    if top == [] then []
    else if top[0].Block? then [top[0]] + Blocks(top[1..])
    else Blocks(top[1..])
  }

  predicate HasStray(top: seq<KV>) {
    exists i :: 0 <= i < |top| && top[i].Leaf? && !IsBaseKey(top[i])
  }

  datatype File = File(root: KV, bases: seq<string>)
  datatype Opened = Good(file: File) | Bad(error: LoadError)

  /** One file: its single top-level block, and the files it is based on. */
  function OpenFile(dirs: Dirs, name: string): (r: Opened)
    ensures r.Good? ==> r.file.root.Block?
  {
    match Resolve(dirs, name)
    case None => Bad(NotFound)
    case Some(text) =>
      match Syntax.ParseText(text)
      case Err(e) => Bad(BadSyntax(e))
      case Ok(top) =>
        if HasStray(top) then Bad(StrayKeys)
        else if |Blocks(top)| != 1 then Bad(NotOneBlock)
        else Good(File(Blocks(top)[0], Bases(top)))
  }

  /** A file's block with every base merged in, each with its own bases first. `limit` is the
      interpreter's recursion limit, which is what stops a circular chain. */
  function Load(dirs: Dirs, name: string, limit: nat): Loaded
    decreases limit, 0
  {
    if limit == 0 then Err(TooDeep)
    else
      match OpenFile(dirs, name)
      case Bad(e) => Err(e)
      case Good(f) => LoadOnto(dirs, f.root, f.bases, limit)
  }

  function LoadOnto(dirs: Dirs, root: KV, bases: seq<string>, limit: nat): Loaded
    requires limit > 0
    decreases limit - 1, |bases| + 1
  {
    if bases == [] then Ok(root)
    else
      match Load(dirs, bases[0], limit - 1)
      case Err(e) => Err(e)
      case Ok(base) =>
        if Key(base) != Key(root) then Err(OtherBlock)
        else LoadOnto(dirs, Merge(root, base, 0), bases[1..], limit)
  }

  lemma {:induction false} LoadUnfolds(dirs: Dirs, name: string, limit: nat)
    ensures Load(dirs, name, limit) ==
            if limit == 0 then Err(TooDeep)
            else if OpenFile(dirs, name).Bad? then Err(OpenFile(dirs, name).error)
            else LoadOnto(dirs, OpenFile(dirs, name).file.root, OpenFile(dirs, name).file.bases, limit)
  {
    hide OpenFile;
  }

  lemma {:induction false} OntoStep(dirs: Dirs, root: KV, bases: seq<string>, i: nat, limit: nat)
    requires limit > 0 && i <= |bases|
    ensures LoadOnto(dirs, root, bases[i..], limit) ==
            if i == |bases| then Ok(root)
            else
              var base := Load(dirs, bases[i], limit - 1);
              if base.Err? then base
              else if Key(base.root) != Key(root) then Err(OtherBlock)
              else LoadOnto(dirs, Merge(root, base.root, 0), bases[i + 1..], limit)
  {
    hide Merge, OpenFile, Load;
    if i < |bases| {
      assert bases[i..][1..] == bases[i + 1..];
    }
  }

  method LoadFile(dirs: Dirs, name: string, limit: nat) returns (r: Loaded)
    ensures r == Load(dirs, name, limit)
    decreases limit
  {
    hide OpenFile, Merge, Load, LoadOnto;
    LoadUnfolds(dirs, name, limit);
    if limit == 0 {
      return Err(TooDeep);
    }
    var source := OpenFile(dirs, name);
    if source.Bad? {
      return Err(source.error);
    }
    var root, bases := source.file.root, source.file.bases;
    var i := 0;
    assert bases[0..] == bases;
    while i < |bases|
      invariant i <= |bases|
      invariant LoadOnto(dirs, root, bases[i..], limit) == Load(dirs, name, limit)
    {
      OntoStep(dirs, root, bases, i, limit);
      var base := LoadFile(dirs, bases[i], limit - 1);
      if base.Err? {
        return base;
      }
      if Key(base.root) != Key(root) {
        return Err(OtherBlock);
      }
      root := MergeInto(root, base.root, 0);
      i := i + 1;
    }
    OntoStep(dirs, root, bases, i, limit);
    r := Ok(root);
  }

  // ---- Flattening preserves every lookup ----

  /** The lookup without any merging: in the file itself, then over what its bases answer in turn. */
  function LookIncluded(dirs: Dirs, name: string, limit: nat, path: seq<string>): Probe
    decreases limit, 0
  {
    if limit == 0 then MissingAt(0)
    else
      match OpenFile(dirs, name)
      case Bad(_) => MissingAt(0)
      case Good(f) => LookOnto(dirs, Look(f.root, path), f.bases, limit, path)
  }

  function LookOnto(dirs: Dirs, sofar: Probe, bases: seq<string>, limit: nat, path: seq<string>): Probe
    requires limit > 0
    decreases limit - 1, |bases| + 1
  {
    if bases == [] then sofar
    else LookOnto(dirs, Over(sofar, LookIncluded(dirs, bases[0], limit - 1, path)), bases[1..], limit, path)
  }

  /** At every merge that loading this file performs, in it and in the files it is based on, what the base
      repeats shows nowhere. */
  predicate LoadFits(dirs: Dirs, name: string, limit: nat)
    decreases limit, 0
  {
    limit > 0 && OpenFile(dirs, name).Good? ==>
      OntoFits(dirs, OpenFile(dirs, name).file.root, OpenFile(dirs, name).file.bases, limit)
  }

  predicate OntoFits(dirs: Dirs, root: KV, bases: seq<string>, limit: nat)
    requires limit > 0
    decreases limit - 1, |bases| + 1
  {
    bases != [] ==>
      && LoadFits(dirs, bases[0], limit - 1)
      && match Load(dirs, bases[0], limit - 1)
         case Err(_) => true
         case Ok(base) => Key(base) == Key(root) ==>
           Fits(root, base, 0) && OntoFits(dirs, Merge(root, base, 0), bases[1..], limit)
  }

  /** Reading the flattened theater is reading the files along the include tree: no answer appears, goes
      missing or changes. */
  lemma {:induction false} FlatteningPreservesLookups(dirs: Dirs, name: string, limit: nat, path: seq<string>)
    requires Load(dirs, name, limit).Ok? && LoadFits(dirs, name, limit)
    ensures Look(Load(dirs, name, limit).root, path) == LookIncluded(dirs, name, limit, path)
    decreases limit, 0
  {
    hide OpenFile, Look, Over;
    var f := OpenFile(dirs, name).file;
    OntoPreservesLookups(dirs, f.root, f.bases, limit, path);
  }

  lemma {:induction false} OntoPreservesLookups(dirs: Dirs, root: KV, bases: seq<string>, limit: nat, path: seq<string>)
    requires limit > 0 && LoadOnto(dirs, root, bases, limit).Ok? && OntoFits(dirs, root, bases, limit)
    ensures Look(LoadOnto(dirs, root, bases, limit).root, path) == LookOnto(dirs, Look(root, path), bases, limit, path)
    decreases limit - 1, |bases| + 1
  {
    hide OpenFile, Look, Over, Merge, Fits;
    if bases != [] {
      var base := Load(dirs, bases[0], limit - 1).root;
      FlatteningPreservesLookups(dirs, bases[0], limit - 1, path);
      FitsOverlays(root, base, 0, path);
      OntoPreservesLookups(dirs, Merge(root, base, 0), bases[1..], limit, path);
    }
  }

  /** Every file that parses has a settled block. */
  ghost predicate Usable(dirs: Dirs) {
    forall name :: OpenFile(dirs, name).Good? ==> Settled(OpenFile(dirs, name).file.root)
  }

  /** Where every file is settled, every merge fits, and what is loaded is itself settled. */
  lemma {:induction false} SettledFilesFit(dirs: Dirs, name: string, limit: nat)
    requires Usable(dirs)
    ensures LoadFits(dirs, name, limit)
    ensures Load(dirs, name, limit).Ok? ==> Settled(Load(dirs, name, limit).root)
    decreases limit, 0
  {
    hide OpenFile, Settled;
    if limit > 0 && OpenFile(dirs, name).Good? {
      var f := OpenFile(dirs, name).file;
      assert Settled(f.root);
      SettledOnto(dirs, f.root, f.bases, limit);
    }
  }

  lemma {:induction false} SettledOnto(dirs: Dirs, root: KV, bases: seq<string>, limit: nat)
    requires limit > 0 && Usable(dirs) && Settled(root)
    ensures OntoFits(dirs, root, bases, limit)
    ensures LoadOnto(dirs, root, bases, limit).Ok? ==> Settled(LoadOnto(dirs, root, bases, limit).root)
    decreases limit - 1, |bases| + 1
  {
    hide OpenFile, Settled, Merge, Usable, Fits;
    if bases != [] {
      SettledFilesFit(dirs, bases[0], limit - 1);
      var l := Load(dirs, bases[0], limit - 1);
      if l.Ok? && Key(l.root) == Key(root) {
        SettledFits(root, l.root, 0);
        SettledCloses(root, l.root, 0);
        SettledOnto(dirs, Merge(root, l.root, 0), bases[1..], limit);
      }
    }
  }

  lemma {:induction false} DistinctStays(ts: seq<KV>, bs: seq<KV>, e: nat)
    requires DistinctKeys(ts)
    ensures DistinctKeys(MergeAll(ts, bs, e))
    decreases |bs|
  {
    hide First, LowerName, Merge;
    if bs != [] {
      DistinctStays(ts, bs[..|bs| - 1], e);
    }
  }

  /** Where the file itself names each section once, so does what is loaded, whatever its bases do. */
  lemma {:induction false} SectionsStayDistinct(dirs: Dirs, root: KV, bases: seq<string>, limit: nat)
    requires limit > 0 && root.Block? && DistinctKeys(root.children) && LoadOnto(dirs, root, bases, limit).Ok?
    ensures var r := LoadOnto(dirs, root, bases, limit).root; r.Block? && DistinctKeys(r.children)
    decreases |bases|
  {
    hide OpenFile, DistinctKeys, MergeAll, Hits;
    if bases != [] {
      var base := Load(dirs, bases[0], limit - 1).root;
      if base.Block? {
        DistinctStays(root.children, base.children, 0);
      }
      SectionsStayDistinct(dirs, Merge(root, base, 0), bases[1..], limit);
    }
  }

  // ---- Whatever is loaded can be written and read back ----

  lemma {:induction false} LexIsPrintable(s: string)
    ensures Quoteless(Syntax.Lex(s).tokens)
    decreases |s|
  {
    if s == "" {
    } else if Syntax.IsSpace(s[0]) || s[0] == '{' || s[0] == '}' {
      LexIsPrintable(s[1..]);
    } else if Syntax.IsComment(s) {
      LexIsPrintable(s[Syntax.IndexOf(s, '\n', 0)..]);
    } else if s[0] == '"' {
      var j := Syntax.IndexOf(s, '"', 1);
      if j < |s| {
        LexIsPrintable(s[j + 1..]);
      }
    } else if s[0] != '[' {
      LexIsPrintable(s[Syntax.WordEnd(s, 0)..]);
    }
  }

  predicate AllPrintable(ks: seq<KV>) {
    forall i :: 0 <= i < |ks| ==> Syntax.Printable(ks[i])
  }

  predicate Quoteless(ts: seq<Syntax.Token>) {
    forall i :: 0 <= i < |ts| && ts[i].Str? ==> '"' !in ts[i].text
  }

  lemma {:induction false} ParseIsPrintable(ts: seq<Syntax.Token>, stop: Option<Syntax.Error>, closing: bool)
    requires Quoteless(ts) && Syntax.Parse(ts, stop, closing).Ok?
    ensures AllPrintable(Syntax.Parse(ts, stop, closing).value.children)
    ensures Quoteless(Syntax.Parse(ts, stop, closing).value.rest)
    decreases |ts|
  {
    if ts == [] || ts[0].Close? {
    } else if ts[1].Str? {
      ParseIsPrintable(ts[2..], stop, closing);
    } else {
      ParseIsPrintable(ts[2..], stop, true);
      ParseIsPrintable(Syntax.Parse(ts[2..], stop, true).value.rest, stop, closing);
    }
  }

  lemma {:induction false} MergeIsPrintable(t: KV, b: KV, depth: nat)
    requires Syntax.Printable(t) && Syntax.Printable(b)
    ensures Syntax.Printable(Merge(t, b, depth))
    decreases b, 1
  {
    if t.Block? && b.Block? {
      MergeAllIsPrintable(t.children, b.children, depth);
      var m := MergeAll(t.children, b.children, depth);
      if BaseOrdered(t, depth) {
        var r := Arranged(t.children, b.children, depth);
        ArrangedPermutes(t.children, b.children, depth);
        forall i | 0 <= i < |r| ensures Syntax.Printable(r[i]) {
          assert r[i] in multiset(r);
          assert r[i] in m;
        }
      }
    }
  }

  lemma {:induction false} MergeAllIsPrintable(ts: seq<KV>, bs: seq<KV>, e: nat)
    requires AllPrintable(ts) && AllPrintable(bs)
    ensures AllPrintable(MergeAll(ts, bs, e))
    decreases bs, 0
  {
    if bs != [] {
      var n := |bs| - 1;
      MergeAllIsPrintable(ts, bs[..n], e);
      var m := MergeAll(ts, bs[..n], e);
      if Has(m, Key(bs[n])) {
        MergeIsPrintable(m[First(m, Key(bs[n]))], bs[n], e + 1);
      }
    }
  }

  lemma {:induction false} OpenedIsPrintable(dirs: Dirs, name: string)
    requires OpenFile(dirs, name).Good?
    ensures Syntax.Printable(OpenFile(dirs, name).file.root)
  {
    var l := Syntax.Lex(Resolve(dirs, name).value);
    LexIsPrintable(Resolve(dirs, name).value);
    ParseIsPrintable(l.tokens, l.error, false);
  }

  lemma {:induction false} LoadedIsPrintable(dirs: Dirs, name: string, limit: nat)
    requires Load(dirs, name, limit).Ok?
    ensures Syntax.Printable(Load(dirs, name, limit).root)
    decreases limit, 0
  {
    hide OpenFile, Syntax.Printable;
    OpenedIsPrintable(dirs, name);
    OntoIsPrintable(dirs, OpenFile(dirs, name).file.root, OpenFile(dirs, name).file.bases, limit);
  }

  lemma {:induction false} OntoIsPrintable(dirs: Dirs, root: KV, bases: seq<string>, limit: nat)
    requires limit > 0 && Syntax.Printable(root) && LoadOnto(dirs, root, bases, limit).Ok?
    ensures Syntax.Printable(LoadOnto(dirs, root, bases, limit).root)
    decreases limit - 1, |bases| + 1
  {
    hide OpenFile, Syntax.Printable, Merge;
    if bases != [] {
      var base := Load(dirs, bases[0], limit - 1).root;
      LoadedIsPrintable(dirs, bases[0], limit - 1);
      MergeIsPrintable(root, base, 0);
      OntoIsPrintable(dirs, Merge(root, base, 0), bases[1..], limit);
    }
  }

  lemma {:induction false} KeepIsPrintable(atts: seq<KV>, reg: set<string>)
    requires AllPrintable(atts)
    ensures AllPrintable(Keep(atts, reg))
  {
    hide Orphan, Syntax.Printable;
    if atts != [] {
      KeepIsPrintable(atts[1..], reg);
    }
  }

  lemma {:induction false} WalkIsPrintable(k: KV, reg: set<string>)
    requires Syntax.Printable(k)
    ensures Syntax.Printable(Walk(k, reg))
    decreases k, 0
  {
    if k.Block? {
      WalkAllIsPrintable(k.children, reg);
    }
  }

  lemma {:induction false} WalkAllIsPrintable(ks: seq<KV>, reg: set<string>)
    requires AllPrintable(ks)
    ensures AllPrintable(WalkAll(ks, reg))
    decreases ks, 0
  {
    if ks != [] {
      WalkAllIsPrintable(ks[1..], reg);
      if IsSection(ks[0]) {
        KeepIsPrintable(ks[0].children, reg);
      } else {
        WalkIsPrintable(ks[0], reg);
      }
    }
  }

  lemma {:induction false} SectionsArePrintable(ss: seq<KV>, reg: set<string>)
    requires AllPrintable(ss)
    ensures AllPrintable(CleanSections(ss, reg))
  {
    if ss != [] {
      SectionsArePrintable(ss[1..], reg);
      if ss[0].Block? {
        EachIsPrintable(ss[0].children, reg);
      }
    }
  }

  lemma {:induction false} EachIsPrintable(ds: seq<KV>, reg: set<string>)
    requires AllPrintable(ds)
    ensures AllPrintable(WalkEach(ds, reg))
  {
    if ds != [] {
      EachIsPrintable(ds[1..], reg);
      WalkIsPrintable(ds[0], reg);
    }
  }

  /** From files to file: a theater that loads is always written without an error, whatever was merged and
      dropped on the way, and what is written reads back as exactly the theater that was built. */
  lemma {:induction false} BuiltTheaterReadsBack(dirs: Dirs, name: string, limit: nat, reg: set<string>)
    requires Load(dirs, name, limit).Ok? && '\n' !in name
    ensures var built := Clean(Load(dirs, name, limit).root, reg);
            && Syntax.Render(name, built).Ok?
            && Syntax.ParseText(Syntax.Render(name, built).value) == Syntax.Ok([built])
  {
    var root := Load(dirs, name, limit).root;
    LoadedIsPrintable(dirs, name, limit);
    if root.Block? {
      SectionsArePrintable(root.children, reg);
    }
    Syntax.RenderedReadsBack(name, Clean(root, reg));
  }
}
