/** The clean-up after merging: attachments restricted to weapons that do not exist are dropped, because
    the engine would show them on every weapon. */
module Orphans {
  import opened Options
  import opened KeyValues
  import opened MergeLaws

  /** The first child of this name, whatever its case. */
  function ChildOf(k: KV, name: string): Option<KV> {
    if k.Leaf? then None else Pick(k.children, LowerName(name))
  }

  predicate IsBase(k: KV) {
    var b := ChildOf(k, "IsBase");
    b.Some? && b.value.Leaf? && b.value.value != "0" && b.value.value != ""
  }

  /** The registered weapons, or None where "weapons" is a value rather than a block, which crashes. */
  function Registered(root: KV): Option<set<string>> {
    match ChildOf(root, "weapons")
    case None => Some({})
    case Some(w) => if w.Leaf? then None else Some(NotBases(w.children))
  }

  function NotBases(ws: seq<KV>): set<string> {
    set i | 0 <= i < |ws| && !IsBase(ws[i]) :: Key(ws[i])
  }

  predicate IsSection(k: KV) {
    k.Block? && (Key(k) == "viewmodel_attachments" || Key(k) == "world_attachments")
  }

  function LeafValues(ks: seq<KV>): seq<string> {
    if ks == [] then []
    else (if ks[0].Leaf? then [LowerName(ks[0].value)] else []) + LeafValues(ks[1..])
  }

  /** The weapons an attachment's list names; none where it has no list, or one that names nothing. */
  function WeaponList(att: KV): seq<string> {
    var ws := ChildOf(att, "weapons");
    if ws.Some? && ws.value.Block? then LeafValues(ws.value.children) else []
  }

  predicate Orphan(att: KV, reg: set<string>) {
    WeaponList(att) != [] && forall i :: 0 <= i < |WeaponList(att)| ==> WeaponList(att)[i] !in reg
  }

  function Keep(atts: seq<KV>, reg: set<string>): seq<KV> {
    if atts == [] then []
    else if Orphan(atts[0], reg) then Keep(atts[1..], reg)
    else [atts[0]] + Keep(atts[1..], reg)
  }

  function Gone(atts: seq<KV>, reg: set<string>): seq<KV> {
    if atts == [] then []
    else if Orphan(atts[0], reg) then [atts[0]] + Gone(atts[1..], reg)
    else Gone(atts[1..], reg)
  }

  // ---- The walk ----

  function Walk(k: KV, reg: set<string>): (r: KV)
    ensures r.name == k.name && r.Leaf? == k.Leaf? && (k.Leaf? ==> r == k)
    decreases k, 0
  {
    if k.Leaf? then k else Block(k.name, WalkAll(k.children, reg))
  }

  function WalkAll(ks: seq<KV>, reg: set<string>): (r: seq<KV>)
    ensures |r| == |ks|
    decreases ks, 0
  {
    if ks == [] then [] else [WalkOne(ks[0], reg)] + WalkAll(ks[1..], reg)
  }

  function WalkOne(c: KV, reg: set<string>): (r: KV)
    ensures r.name == c.name && r.Leaf? == c.Leaf? && (c.Leaf? ==> r == c)
    decreases c, 1
  {
    if IsSection(c) then Block(c.name, Keep(c.children, reg)) else Walk(c, reg)
  }

  /** Walks every block definition of every section of the theater. */
  function Clean(root: KV, reg: set<string>): KV {
    if root.Leaf? then root else Block(root.name, CleanSections(root.children, reg))
  }

  function CleanSections(ss: seq<KV>, reg: set<string>): (r: seq<KV>)
    ensures |r| == |ss|
  {
    if ss == [] then []
    else [CleanSection(ss[0], reg)] + CleanSections(ss[1..], reg)
  }

  function CleanSection(s: KV, reg: set<string>): KV {
    if s.Leaf? then s else Block(s.name, WalkEach(s.children, reg))
  }

  function WalkEach(ds: seq<KV>, reg: set<string>): (r: seq<KV>)
    ensures |r| == |ds|
  {
    if ds == [] then [] else [Walk(ds[0], reg)] + WalkEach(ds[1..], reg)
  }

  // ---- The attachments there are, in the order they are met ----

  function Attachments(k: KV): seq<KV>
    decreases k, 0
  {
    if k.Leaf? then [] else AttachmentsAll(k.children)
  }

  function AttachmentsAll(ks: seq<KV>): seq<KV>
    decreases ks, 0
  {
    if ks == [] then []
    else AttachmentsOne(ks[0]) + AttachmentsAll(ks[1..])
  }

  function AttachmentsOne(c: KV): seq<KV>
    decreases c, 1
  {
    if IsSection(c) then c.children else Attachments(c)
  }

  function AttachmentsOfRoot(root: KV): seq<KV> {
    if root.Leaf? then [] else AttachmentsOfSections(root.children)
  }

  function AttachmentsOfSections(ss: seq<KV>): seq<KV> {
    if ss == [] then []
    else AttachmentsOfSection(ss[0]) + AttachmentsOfSections(ss[1..])
  }

  function AttachmentsOfSection(s: KV): seq<KV> {
    if s.Leaf? then [] else AttachmentsOfEach(s.children)
  }

  function AttachmentsOfEach(ds: seq<KV>): seq<KV> {
    if ds == [] then [] else Attachments(ds[0]) + AttachmentsOfEach(ds[1..])
  }

  /** The tree with its attachment sections emptied: everything the clean-up must not touch. */
  function Frame(k: KV): KV
    decreases k, 0
  {
    if k.Leaf? then k else Block(k.name, FrameAll(k.children))
  }

  function FrameAll(ks: seq<KV>): seq<KV>
    decreases ks, 0
  {
    if ks == [] then [] else [FrameOne(ks[0])] + FrameAll(ks[1..])
  }

  function FrameOne(c: KV): KV
    decreases c, 1
  {
    if IsSection(c) then Block(c.name, []) else Frame(c)
  }

  function FrameOfRoot(root: KV): KV {
    if root.Leaf? then root else Block(root.name, FrameOfSections(root.children))
  }

  function FrameOfSections(ss: seq<KV>): seq<KV> {
    if ss == [] then []
    else [FrameOfSection(ss[0])] + FrameOfSections(ss[1..])
  }

  function FrameOfSection(s: KV): KV {
    if s.Leaf? then s else Block(s.name, FrameOfEach(s.children))
  }

  function FrameOfEach(ds: seq<KV>): seq<KV> {
    if ds == [] then [] else [Frame(ds[0])] + FrameOfEach(ds[1..])
  }

  // ---- The program ----

  lemma {:induction false} WalkFrom(ks: seq<KV>, i: nat, reg: set<string>)
    requires i < |ks|
    ensures WalkAll(ks[i..], reg) == [WalkOne(ks[i], reg)] + WalkAll(ks[i + 1..], reg)
    ensures Gone(AttachmentsAll(ks[i..]), reg) ==
            Gone(AttachmentsOne(ks[i]), reg) + Gone(AttachmentsAll(ks[i + 1..]), reg)
  {
    hide WalkOne, AttachmentsOne, Gone;
    assert ks[i..][1..] == ks[i + 1..];
    GoneConcat(AttachmentsOne(ks[i]), AttachmentsAll(ks[i + 1..]), reg);
  }

  lemma {:induction false} WalkNone(reg: set<string>)
    ensures WalkAll([], reg) == [] && Gone([], reg) == [] && Gone(AttachmentsAll([]), reg) == []
  {
  }

  method WalkInto(k: KV, reg: set<string>) returns (r: KV, dropped: seq<KV>)
    ensures r == Walk(k, reg)
    ensures dropped == Gone(Attachments(k), reg)
    decreases k
  {
    hide Orphan, Keep, Key, Gone, WalkAll, AttachmentsAll;
    WalkNone(reg);
    dropped := [];
    if k.Leaf? {
      return k, dropped;
    }
    var out: seq<KV> := [];
    var i := 0;
    assert k.children[0..] == k.children;
    while i < |k.children|
      invariant i <= |k.children|
      invariant out + WalkAll(k.children[i..], reg) == WalkAll(k.children, reg)
      invariant dropped + Gone(AttachmentsAll(k.children[i..]), reg) == Gone(AttachmentsAll(k.children), reg)
    {
      var c := k.children[i];
      var c', gone;
      if IsSection(c) {
        var keep;
        keep, gone := Sift(c.children, reg);
        c' := Block(c.name, keep);
      } else {
        c', gone := WalkInto(c, reg);
      }
      WalkFrom(k.children, i, reg);
      out, dropped := out + [c'], dropped + gone;
      i := i + 1;
    }
    assert k.children[i..] == [];
    r := Block(k.name, out);
  }

  method Sift(atts: seq<KV>, reg: set<string>) returns (keep: seq<KV>, gone: seq<KV>)
    ensures keep == Keep(atts, reg) && gone == Gone(atts, reg)
  {
    hide Orphan;
    keep, gone := [], [];
    var i := 0;
    while i < |atts|
      invariant i <= |atts|
      invariant keep + Keep(atts[i..], reg) == Keep(atts, reg)
      invariant gone + Gone(atts[i..], reg) == Gone(atts, reg)
    {
      assert atts[i..][1..] == atts[i + 1..];
      if Orphan(atts[i], reg) {
        gone := gone + [atts[i]];
      } else {
        keep := keep + [atts[i]];
      }
      i := i + 1;
    }
  }

  method WalkDefinitions(ds: seq<KV>, reg: set<string>) returns (out: seq<KV>, dropped: seq<KV>)
    ensures out == WalkEach(ds, reg)
    ensures dropped == Gone(AttachmentsOfEach(ds), reg)
  {
    hide Orphan, Walk, Gone, Attachments;
    GoneNone(reg);
    out, dropped := [], [];
    var i := 0;
    while i < |ds|
      invariant i <= |ds|
      invariant out + WalkEach(ds[i..], reg) == WalkEach(ds, reg)
      invariant dropped + Gone(AttachmentsOfEach(ds[i..]), reg) == Gone(AttachmentsOfEach(ds), reg)
    {
      var d, gone := WalkInto(ds[i], reg);
      assert ds[i..][1..] == ds[i + 1..];
      GoneConcat(Attachments(ds[i]), AttachmentsOfEach(ds[i + 1..]), reg);
      out, dropped := out + [d], dropped + gone;
      i := i + 1;
    }
  }

  method WalkSection(s: KV, reg: set<string>) returns (r: KV, dropped: seq<KV>)
    ensures r == CleanSection(s, reg)
    ensures dropped == Gone(AttachmentsOfSection(s), reg)
  {
    r, dropped := s, [];
    if s.Block? {
      var ds, gone := WalkDefinitions(s.children, reg);
      r, dropped := Block(s.name, ds), gone;
    }
  }

  /** drop_orphan_attachments: the cleaned theater and what was dropped, or None for the crash. */
  method DropOrphans(root: KV) returns (r: Option<(KV, seq<KV>)>)
    ensures Registered(root).None? ==> r.None?
    ensures Registered(root).Some? ==>
              r == Some((Clean(root, Registered(root).value), Gone(AttachmentsOfRoot(root), Registered(root).value)))
  {
    hide Orphan, CleanSection, Gone, AttachmentsOfSection, Registered;
    var weapons := Registered(root);
    if weapons.None? {
      return None;
    }
    var reg := weapons.value;
    GoneNone(reg);
    if root.Leaf? {
      return Some((root, []));
    }
    var out: seq<KV>, dropped: seq<KV> := [], [];
    var ss := root.children;
    var i := 0;
    while i < |ss|
      invariant i <= |ss|
      invariant out + CleanSections(ss[i..], reg) == CleanSections(ss, reg)
      invariant dropped + Gone(AttachmentsOfSections(ss[i..]), reg) == Gone(AttachmentsOfSections(ss), reg)
    {
      assert ss[i..][1..] == ss[i + 1..];
      var s, gone := WalkSection(ss[i], reg);
      GoneConcat(AttachmentsOfSection(ss[i]), AttachmentsOfSections(ss[i + 1..]), reg);
      out, dropped := out + [s], dropped + gone;
      i := i + 1;
    }
    assert ss[i..] == [] && out == CleanSections(ss, reg) && dropped == Gone(AttachmentsOfSections(ss), reg);
    r := Some((Block(root.name, out), dropped));
  }

  lemma {:induction false} GoneNone(reg: set<string>)
    ensures Gone([], reg) == []
  {
  }

  // ---- What the clean-up achieves ----

  lemma {:induction false} GoneConcat(a: seq<KV>, b: seq<KV>, reg: set<string>)
    ensures Gone(a + b, reg) == Gone(a, reg) + Gone(b, reg)
  {
    hide Orphan;
    if a == [] {
      assert a + b == b;
    } else {
      assert (a + b)[1..] == a[1..] + b;
      GoneConcat(a[1..], b, reg);
    }
  }

  lemma {:induction false} KeepConcat(a: seq<KV>, b: seq<KV>, reg: set<string>)
    ensures Keep(a + b, reg) == Keep(a, reg) + Keep(b, reg)
  {
    hide Orphan;
    if a == [] {
      assert a + b == b;
    } else {
      assert (a + b)[1..] == a[1..] + b;
      KeepConcat(a[1..], b, reg);
    }
  }

  lemma {:induction false} WalkKeeps(k: KV, reg: set<string>)
    ensures Attachments(Walk(k, reg)) == Keep(Attachments(k), reg)
    ensures Frame(Walk(k, reg)) == Frame(k)
    decreases k, 0
  {
    if k.Block? {
      WalkAllKeeps(k.children, reg);
    }
  }

  lemma {:induction false} WalkAllKeeps(ks: seq<KV>, reg: set<string>)
    ensures AttachmentsAll(WalkAll(ks, reg)) == Keep(AttachmentsAll(ks), reg)
    ensures FrameAll(WalkAll(ks, reg)) == FrameAll(ks)
    decreases ks, 0
  {
    hide Orphan, Keep, WalkOne, AttachmentsOne, FrameOne;
    if ks != [] {
      WalkAllKeeps(ks[1..], reg);
      assert WalkAll(ks, reg)[1..] == WalkAll(ks[1..], reg);
      WalkOneKeeps(ks[0], reg);
      KeepConcat(AttachmentsOne(ks[0]), AttachmentsAll(ks[1..]), reg);
    } else {
      KeepNone(reg);
    }
  }

  lemma {:induction false} KeepNone(reg: set<string>)
    ensures Keep([], reg) == []
  {
  }

  lemma {:induction false} WalkOneKeeps(c: KV, reg: set<string>)
    ensures AttachmentsOne(WalkOne(c, reg)) == Keep(AttachmentsOne(c), reg)
    ensures FrameOne(WalkOne(c, reg)) == FrameOne(c)
    decreases c, 1
  {
    hide Keep, LowerName;
    assert IsSection(WalkOne(c, reg)) == IsSection(c);
    if !IsSection(c) {
      WalkKeeps(c, reg);
    }
  }

  lemma {:induction false} EachKeeps(ds: seq<KV>, reg: set<string>)
    ensures AttachmentsOfEach(WalkEach(ds, reg)) == Keep(AttachmentsOfEach(ds), reg)
    ensures FrameOfEach(WalkEach(ds, reg)) == FrameOfEach(ds)
  {
    hide Keep, Walk, Attachments, Frame;
    KeepNone(reg);
    if ds != [] {
      assert WalkEach(ds, reg)[1..] == WalkEach(ds[1..], reg);
      WalkKeeps(ds[0], reg);
      EachKeeps(ds[1..], reg);
      KeepConcat(Attachments(ds[0]), AttachmentsOfEach(ds[1..]), reg);
    }
  }

  lemma {:induction false} SectionsKeep(ss: seq<KV>, reg: set<string>)
    ensures AttachmentsOfSections(CleanSections(ss, reg)) == Keep(AttachmentsOfSections(ss), reg)
    ensures FrameOfSections(CleanSections(ss, reg)) == FrameOfSections(ss)
  {
    hide Keep, CleanSection, AttachmentsOfSection, FrameOfSection;
    KeepNone(reg);
    if ss != [] {
      assert CleanSections(ss, reg)[1..] == CleanSections(ss[1..], reg);
      SectionsKeep(ss[1..], reg);
      SectionKeeps(ss[0], reg);
      KeepConcat(AttachmentsOfSection(ss[0]), AttachmentsOfSections(ss[1..]), reg);
    }
  }

  lemma {:induction false} SectionKeeps(s: KV, reg: set<string>)
    ensures AttachmentsOfSection(CleanSection(s, reg)) == Keep(AttachmentsOfSection(s), reg)
    ensures FrameOfSection(CleanSection(s, reg)) == FrameOfSection(s)
  {
    KeepNone(reg);
    if s.Block? {
      EachKeeps(s.children, reg);
    }
  }

  /** The attachments left are those that were no orphans, in their order, and nothing else is touched. */
  lemma {:induction false} CleanKeepsTheRest(root: KV, reg: set<string>)
    ensures AttachmentsOfRoot(Clean(root, reg)) == Keep(AttachmentsOfRoot(root), reg)
    ensures FrameOfRoot(Clean(root, reg)) == FrameOfRoot(root)
  {
    KeepNone(reg);
    if root.Block? {
      SectionsKeep(root.children, reg);
    }
  }

  lemma {:induction false} KeepIsSound(atts: seq<KV>, reg: set<string>)
    ensures forall i :: 0 <= i < |Keep(atts, reg)| ==> !Orphan(Keep(atts, reg)[i], reg) && Keep(atts, reg)[i] in atts
    ensures multiset(Keep(atts, reg)) + multiset(Gone(atts, reg)) == multiset(atts)
  {
    hide Orphan;
    if atts != [] {
      KeepIsSound(atts[1..], reg);
      assert atts == [atts[0]] + atts[1..];
      assert multiset(atts) == multiset{atts[0]} + multiset(atts[1..]);
    }
  }

  /** The engine's per-weapon filter: a list sets a bit for each registered name, and no bits mean all. */
  predicate Applies(att: KV, weapon: string, reg: set<string>) {
    (forall i :: 0 <= i < |WeaponList(att)| ==> WeaponList(att)[i] !in reg) || weapon in WeaponList(att)
  }

  /** An attachment is dropped exactly when its list names something and it would show on another weapon. */
  lemma {:induction false} OrphansAreTheMisapplied(att: KV, reg: set<string>)
    requires reg != {}
    ensures Orphan(att, reg) <==>
            WeaponList(att) != [] && exists w :: w in reg && Applies(att, w, reg) && w !in WeaponList(att)
  {
  }

  /** After the clean-up no attachment whose list names something shows on a registered weapon it does not name. */
  lemma {:induction false} NothingMisapplied(root: KV, reg: set<string>, i: nat, weapon: string)
    requires i < |AttachmentsOfRoot(Clean(root, reg))| && weapon in reg
    ensures var att := AttachmentsOfRoot(Clean(root, reg))[i];
            WeaponList(att) != [] && Applies(att, weapon, reg) ==> weapon in WeaponList(att)
  {
    CleanKeepsTheRest(root, reg);
    KeepIsSound(AttachmentsOfRoot(root), reg);
  }

  /** This attachment declares a list: a block, with names in it or not. */
  predicate Declares(att: KV) {
    ChildOf(att, "weapons").Some? && ChildOf(att, "weapons").value.Block?
  }

  predicate Misapplied(att: KV, reg: set<string>) {
    exists w :: w in reg && Applies(att, w, reg) && w !in WeaponList(att)
  }

  lemma {:induction false} NamesNothing(ks: seq<KV>)
    ensures LeafValues(ks) == [] <==> forall i :: 0 <= i < |ks| ==> ks[i].Block?
  {
    if ks != [] {
      NamesNothing(ks[1..]);
      assert forall i :: 0 < i < |ks| ==> ks[i] == ks[1..][i - 1];
    }
  }

  /** The one declared list that the clean-up lets through: after it, an attachment with a list shows on some
      registered weapon the list does not name if and only if the list names nothing at all. */
  lemma {:induction false} OnlyEmptyListsMisapply(root: KV, reg: set<string>, i: nat)
    requires reg != {} && i < |AttachmentsOfRoot(Clean(root, reg))|
    requires Declares(AttachmentsOfRoot(Clean(root, reg))[i])
    ensures var att := AttachmentsOfRoot(Clean(root, reg))[i];
            var list := ChildOf(att, "weapons").value.children;
            Misapplied(att, reg) <==> forall j :: 0 <= j < |list| ==> list[j].Block?
  {
    hide AttachmentsOfRoot, Clean, LowerName;
    var att := AttachmentsOfRoot(Clean(root, reg))[i];
    NamesNothing(ChildOf(att, "weapons").value.children);
    CleanKeepsTheRest(root, reg);
    KeepIsSound(AttachmentsOfRoot(root), reg);
    OrphansAreTheMisapplied(att, reg);
  }

  const EMPTY_LIST := Block("a", [Block("weapons", [])])

  /** Such a list is no orphan, wherever it stands, and shows on every weapon. */
  lemma {:induction false} EmptyListIsKept(reg: set<string>, weapon: string)
    ensures Declares(EMPTY_LIST) && Keep([EMPTY_LIST], reg) == [EMPTY_LIST] && Applies(EMPTY_LIST, weapon, reg)
  {
    assert LowerName("weapons") == "weapons";
    assert EMPTY_LIST.children[0] == Block("weapons", []);
  }

  // ---- The registered weapons stay what they were ----

  lemma {:induction false} WalkAllPicks(ks: seq<KV>, reg: set<string>, key: string)
    ensures First(WalkAll(ks, reg), key) == First(ks, key)
    ensures Has(ks, key) ==>
              var c, c' := ks[First(ks, key)], WalkAll(ks, reg)[First(ks, key)];
              c.Leaf? == c'.Leaf? && (c.Leaf? ==> c' == c)
  {
    hide WalkOne, LowerName;
    if ks != [] {
      WalkAllPicks(ks[1..], reg, key);
      assert WalkAll(ks, reg)[1..] == WalkAll(ks[1..], reg);
    }
  }

  lemma {:induction false} WalkKeepsIsBase(k: KV, reg: set<string>)
    ensures IsBase(Walk(k, reg)) == IsBase(k) && Key(Walk(k, reg)) == Key(k)
  {
    if k.Block? {
      WalkAllPicks(k.children, reg, LowerName("IsBase"));
    }
  }

  lemma {:induction false} WalkEachAt(ds: seq<KV>, reg: set<string>, i: nat)
    requires i < |ds|
    ensures WalkEach(ds, reg)[i] == Walk(ds[i], reg)
  {
    if i > 0 {
      WalkEachAt(ds[1..], reg, i - 1);
    }
  }

  lemma {:induction false} SectionKey(s: KV, reg: set<string>)
    ensures Key(CleanSection(s, reg)) == Key(s)
  {
  }

  lemma {:induction false} SectionsFirst(ss: seq<KV>, reg: set<string>, key: string)
    ensures First(CleanSections(ss, reg), key) == First(ss, key)
    ensures Has(ss, key) ==> CleanSections(ss, reg)[First(ss, key)] == CleanSection(ss[First(ss, key)], reg)
  {
    hide CleanSection, LowerName;
    if ss != [] {
      SectionKey(ss[0], reg);
      SectionsFirst(ss[1..], reg, key);
      assert CleanSections(ss, reg)[1..] == CleanSections(ss[1..], reg);
    }
  }

  lemma {:induction false} SectionsPick(ss: seq<KV>, reg: set<string>, key: string)
    ensures Pick(CleanSections(ss, reg), key) ==
            match Pick(ss, key)
            case None => None
            case Some(s) => Some(CleanSection(s, reg))
  {
    hide CleanSection, CleanSections, First;
    SectionsFirst(ss, reg, key);
  }

  /** Dropping attachments never changes which weapons are registered - for any set they are dropped by. */
  lemma {:induction false} RegisteredUnchanged(root: KV, reg: set<string>)
    ensures Registered(Clean(root, reg)) == Registered(root)
  {
    if root.Block? {
      SectionsPick(root.children, reg, LowerName("weapons"));
      var w := ChildOf(root, "weapons");
      if w.Some? && w.value.Block? {
        NotBasesUnchanged(w.value.children, reg);
      }
    }
  }

  lemma {:induction false} NotBasesUnchanged(ds: seq<KV>, reg: set<string>)
    ensures NotBases(WalkEach(ds, reg)) == NotBases(ds)
  {
    hide IsBase;
    var ws := WalkEach(ds, reg);
    forall i | 0 <= i < |ds| ensures IsBase(ws[i]) == IsBase(ds[i]) && Key(ws[i]) == Key(ds[i]) {
      WalkEachAt(ds, reg, i);
      WalkKeepsIsBase(ds[i], reg);
    }
    forall key ensures key in NotBases(ws) <==> key in NotBases(ds) {
      if key in NotBases(ws) {
        var i :| 0 <= i < |ws| && !IsBase(ws[i]) && Key(ws[i]) == key;
        assert !IsBase(ds[i]) && Key(ds[i]) == key;
      }
      if key in NotBases(ds) {
        var i :| 0 <= i < |ds| && !IsBase(ds[i]) && Key(ds[i]) == key;
        assert !IsBase(ws[i]) && Key(ws[i]) == key;
      }
    }
  }

  // ---- Once is enough ----

  lemma {:induction false} KeepTwice(atts: seq<KV>, reg: set<string>)
    ensures Keep(Keep(atts, reg), reg) == Keep(atts, reg)
    ensures Gone(Keep(atts, reg), reg) == []
  {
    hide Orphan;
    if atts != [] {
      KeepTwice(atts[1..], reg);
      if !Orphan(atts[0], reg) {
        assert Keep(atts, reg)[1..] == Keep(atts[1..], reg);
      }
    }
  }

  lemma {:induction false} WalkTwice(k: KV, reg: set<string>)
    ensures Walk(Walk(k, reg), reg) == Walk(k, reg)
    decreases k, 0
  {
    if k.Block? {
      WalkAllTwice(k.children, reg);
    }
  }

  lemma {:induction false} WalkAllTwice(ks: seq<KV>, reg: set<string>)
    ensures WalkAll(WalkAll(ks, reg), reg) == WalkAll(ks, reg)
    decreases ks, 0
  {
    hide WalkOne;
    if ks != [] {
      assert WalkAll(ks, reg)[1..] == WalkAll(ks[1..], reg);
      WalkAllTwice(ks[1..], reg);
      WalkOneTwice(ks[0], reg);
    }
  }

  lemma {:induction false} WalkOneTwice(c: KV, reg: set<string>)
    ensures WalkOne(WalkOne(c, reg), reg) == WalkOne(c, reg)
    decreases c, 1
  {
    hide Keep, LowerName;
    assert IsSection(WalkOne(c, reg)) == IsSection(c);
    if IsSection(c) {
      KeepTwice(c.children, reg);
    } else {
      WalkTwice(c, reg);
    }
  }

  lemma {:induction false} EachTwice(ds: seq<KV>, reg: set<string>)
    ensures WalkEach(WalkEach(ds, reg), reg) == WalkEach(ds, reg)
  {
    if ds != [] {
      assert WalkEach(ds, reg)[1..] == WalkEach(ds[1..], reg);
      WalkTwice(ds[0], reg);
      EachTwice(ds[1..], reg);
    }
  }

  lemma {:induction false} SectionsTwice(ss: seq<KV>, reg: set<string>)
    ensures CleanSections(CleanSections(ss, reg), reg) == CleanSections(ss, reg)
  {
    if ss != [] {
      assert CleanSections(ss, reg)[1..] == CleanSections(ss[1..], reg);
      SectionsTwice(ss[1..], reg);
      if ss[0].Block? {
        EachTwice(ss[0].children, reg);
      }
    }
  }

  /** A second pass over a cleaned theater finds the same weapons, changes nothing and drops nothing. */
  lemma {:induction false} SecondPassDropsNothing(root: KV, reg: set<string>)
    requires Registered(root) == Some(reg)
    ensures Registered(Clean(root, reg)) == Some(reg)
    ensures Clean(Clean(root, reg), reg) == Clean(root, reg)
    ensures Gone(AttachmentsOfRoot(Clean(root, reg)), reg) == []
  {
    RegisteredUnchanged(root, reg);
    CleanKeepsTheRest(root, reg);
    KeepTwice(AttachmentsOfRoot(root), reg);
    if root.Block? {
      SectionsTwice(root.children, reg);
    }
  }
}
