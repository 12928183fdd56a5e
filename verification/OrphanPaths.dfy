/** Which attachments are orphans and where in a theater they stand, spelled out: names are literals that match in
    any case, a child is the first of its name, and a place in the tree is the path of child numbers that leads to
    it, so that nothing here depends on how the clean-up walks. */
module OrphanPaths {
  import opened Options
  import opened KeyValues
  import opened Orphans
  import opened SectionOrder

  // ---- Children by name ----

  /** Child i is the first of this name, whatever its case. */
  predicate NamedAt(k: KV, name: string, i: nat): (r: bool)
    ensures r ==> k.Block? && i < |k.children|
  {
    && k.Block? && i < |k.children| && SameName(k.children[i].name, name)
    && forall j :: 0 <= j < i ==> !SameName(k.children[j].name, name)
  }

  lemma {:induction false} ChildAt(k: KV, name: string, i: nat)
    requires NamedAt(k, name, i)
    ensures ChildOf(k, name) == Some(k.children[i])
  {
    hide SameName, LowerName;
    forall j | 0 <= j <= i ensures Key(k.children[j]) == LowerName(name) <==> SameName(k.children[j].name, name) {
      NamesMatch(k.children[j], Block(name, []));
    }
  }

  lemma {:induction false} ChildFound(k: KV, name: string) returns (i: nat)
    requires ChildOf(k, name).Some?
    ensures NamedAt(k, name, i)
  {
    hide SameName, LowerName;
    i := First(k.children, LowerName(name));
    forall j | 0 <= j <= i ensures Key(k.children[j]) == LowerName(name) <==> SameName(k.children[j].name, name) {
      NamesMatch(k.children[j], Block(name, []));
    }
  }

  // ---- Registered weapons ----

  /** Its first child named IsBase is a value other than 0 and the empty one. */
  ghost predicate SetsBase(k: KV) {
    exists i: nat :: NamedAt(k, "IsBase", i) && k.children[i].Leaf? && k.children[i].value !in {"0", ""}
  }

  lemma {:induction false} BaseExactly(k: KV)
    ensures IsBase(k) <==> SetsBase(k)
  {
    hide NamedAt, ChildOf;
    if IsBase(k) {
      var i := ChildFound(k, "IsBase");
      ChildAt(k, "IsBase", i);
    }
    if SetsBase(k) {
      var i: nat :| NamedAt(k, "IsBase", i) && k.children[i].Leaf? && k.children[i].value !in {"0", ""};
      ChildAt(k, "IsBase", i);
    }
  }

  /** The weapons registered in this section go by this name. */
  ghost predicate RegistersAs(ws: seq<KV>, name: string) {
    exists i :: 0 <= i < |ws| && SameName(ws[i].name, name) && !SetsBase(ws[i])
  }

  lemma {:induction false} RegistersExactly(ws: seq<KV>, name: string)
    ensures LowerName(name) in NotBases(ws) <==> RegistersAs(ws, name)
  {
    hide SameName, LowerName, IsBase, SetsBase;
    forall i | 0 <= i < |ws|
      ensures Key(ws[i]) == LowerName(name) <==> SameName(ws[i].name, name)
      ensures IsBase(ws[i]) <==> SetsBase(ws[i])
    {
      NamesMatch(ws[i], Block(name, []));
      BaseExactly(ws[i]);
    }
  }

  /** The weapons section is the first child of that name. It crashes where that is a value. */
  lemma {:induction false} RegisteredInWords(root: KV, name: string)
    ensures (forall i: nat :: !NamedAt(root, "weapons", i)) ==> Registered(root) == Some({})
    ensures forall i: nat :: NamedAt(root, "weapons", i) ==>
              && (Registered(root).None? <==> root.children[i].Leaf?)
              && (root.children[i].Block? ==>
                    (LowerName(name) in Registered(root).value <==> RegistersAs(root.children[i].children, name)))
  {
    hide NamedAt, LowerName, ChildOf, NotBases, RegistersAs;
    if ChildOf(root, "weapons").Some? {
      var j := ChildFound(root, "weapons");
    }
    forall i: nat | NamedAt(root, "weapons", i)
      ensures ChildOf(root, "weapons") == Some(root.children[i])
      ensures root.children[i].Block? ==>
                (LowerName(name) in NotBases(root.children[i].children) <==>
                 RegistersAs(root.children[i].children, name))
    {
      ChildAt(root, "weapons", i);
      if root.children[i].Block? {
        RegistersExactly(root.children[i].children, name);
      }
    }
  }

  // ---- Orphans ----

  /** The attachment's first child named weapons is a block with this value in it. */
  ghost predicate Lists(att: KV, value: string) {
    exists i: nat, j: nat :: ListsAt(att, i, j, value)
  }

  predicate ListsAt(att: KV, i: nat, j: nat, value: string) {
    && NamedAt(att, "weapons", i) && att.children[i].Block? && j < |att.children[i].children|
    && att.children[i].children[j].Leaf? && att.children[i].children[j].value == value
  }

  lemma {:induction false} LeafValuesHold(ks: seq<KV>, v: string)
    ensures v in LeafValues(ks) <==> exists j :: 0 <= j < |ks| && ks[j].Leaf? && LowerName(ks[j].value) == v
  {
    hide LowerName;
    if ks != [] {
      LeafValuesHold(ks[1..], v);
      if v in LeafValues(ks[1..]) {
        var j :| 0 <= j < |ks| - 1 && ks[1..][j].Leaf? && LowerName(ks[1..][j].value) == v;
        assert ks[j + 1].Leaf? && LowerName(ks[j + 1].value) == v;
      }
      if j :| 0 < j < |ks| && ks[j].Leaf? && LowerName(ks[j].value) == v {
        assert ks[1..][j - 1].Leaf? && LowerName(ks[1..][j - 1].value) == v;
      }
    }
  }

  lemma {:induction false} ListedExactly(att: KV, v: string)
    ensures v in WeaponList(att) <==> exists value :: Lists(att, value) && LowerName(value) == v
  {
    hide LowerName, NamedAt, ChildOf, LeafValues;
    var w := ChildOf(att, "weapons");
    if v in WeaponList(att) {
      var i := ChildFound(att, "weapons");
      ChildAt(att, "weapons", i);
      LeafValuesHold(w.value.children, v);
      var j: nat :| j < |w.value.children| && w.value.children[j].Leaf? && LowerName(w.value.children[j].value) == v;
      assert ListsAt(att, i, j, w.value.children[j].value);
    }
    if value :| Lists(att, value) && LowerName(value) == v {
      var i: nat, j: nat :| ListsAt(att, i, j, value);
      ChildAt(att, "weapons", i);
      LeafValuesHold(w.value.children, v);
    }
  }

  /** An attachment is dropped exactly when it lists something and no registered weapon goes by a listed name. */
  lemma {:induction false} OrphanInWords(att: KV, ws: seq<KV>)
    ensures Orphan(att, NotBases(ws)) <==>
            && (exists value :: Lists(att, value))
            && (forall value :: Lists(att, value) ==> !RegistersAs(ws, value))
  {
    hide WeaponList, NotBases, Lists, RegistersAs, LowerName;
    var list, reg := WeaponList(att), NotBases(ws);
    if value :| Lists(att, value) {
      ListedExactly(att, LowerName(value));
    }
    if list != [] {
      ListedExactly(att, list[0]);
    }
    forall value | Lists(att, value) ensures LowerName(value) in list {
      ListedExactly(att, LowerName(value));
    }
    forall value ensures LowerName(value) in reg <==> RegistersAs(ws, value) {
      RegistersExactly(ws, value);
    }
    forall i | 0 <= i < |list| ensures exists value :: Lists(att, value) && LowerName(value) == list[i] {
      ListedExactly(att, list[i]);
    }
  }

  /** What is kept and what is dropped of attachments side by side, in their order. */
  lemma {:induction false} Sifted(a: seq<KV>, att: KV, b: seq<KV>, reg: set<string>)
    ensures Keep(a + [att] + b, reg) == Keep(a, reg) + (if Orphan(att, reg) then [] else [att]) + Keep(b, reg)
    ensures Gone(a + [att] + b, reg) == Gone(a, reg) + (if Orphan(att, reg) then [att] else []) + Gone(b, reg)
  {
    hide Orphan;
    assert a + [att] + b == a + ([att] + b);
    KeepConcat(a, [att] + b, reg);
    GoneConcat(a, [att] + b, reg);
  }

  // ---- Places ----

  /** The node that these child numbers lead to. */
  function At(k: KV, path: seq<nat>): Option<KV> {
    if path == [] then Some(k)
    else if k.Leaf? || path[0] >= |k.children| then None
    else At(k.children[path[0]], path[1..])
  }

  predicate HoldsAttachments(k: KV) {
    k.Block? && (SameName(k.name, "viewmodel_attachments") || SameName(k.name, "world_attachments"))
  }

  lemma {:induction false} SectionsExactly(k: KV)
    ensures IsSection(k) <==> HoldsAttachments(k)
  {
    hide SameName, LowerName;
    SectionNames();
    NamesMatch(k, Block("viewmodel_attachments", []));
    NamesMatch(k, Block("world_attachments", []));
  }

  lemma {:induction false} SectionNames()
    ensures LowerName("viewmodel_attachments") == "viewmodel_attachments"
    ensures LowerName("world_attachments") == "world_attachments"
  {
  }

  predicate SectionAt(k: KV, path: seq<nat>) {
    At(k, path).Some? && HoldsAttachments(At(k, path).value)
  }

  /** From this depth on, no node above the path's end holds attachments. */
  predicate Open(k: KV, path: seq<nat>, from: nat) {
    forall m :: from <= m < |path| ==> !SectionAt(k, path[..m])
  }

  /** What the clean-up leaves at a path: the same node, and where it holds attachments those that are no orphans. */
  predicate Left(before: Option<KV>, after: Option<KV>, cut: bool, reg: set<string>) {
    match before
    case None => after == None
    case Some(Leaf(n, v)) => after == before
    case Some(Block(n, cs)) =>
      && after.Some? && after.value.Block? && after.value.name == n
      && (cut && HoldsAttachments(before.value) ==> after.value.children == Keep(cs, reg))
  }

  lemma {:induction false} WalkAllAt(ks: seq<KV>, reg: set<string>, i: nat)
    requires i < |ks|
    ensures WalkAll(ks, reg)[i] == WalkOne(ks[i], reg)
  {
    hide WalkOne;
    if i > 0 {
      WalkAllAt(ks[1..], reg, i - 1);
    }
  }

  lemma {:induction false} OpenBelow(k: KV, path: seq<nat>, from: nat)
    requires k.Block? && path != [] && path[0] < |k.children| && Open(k, path, from + 1)
    ensures Open(k.children[path[0]], path[1..], from)
    ensures from == 0 && |path| > 1 ==> !HoldsAttachments(k.children[path[0]])
  {
    hide HoldsAttachments;
    forall m | from <= m < |path| - 1 ensures !SectionAt(k.children[path[0]], path[1..][..m]) {
      assert path[..m + 1][1..] == path[1..][..m];
      assert !SectionAt(k, path[..m + 1]);
    }
    if from == 0 && |path| > 1 {
      assert path[1..][..0] == [];
    }
  }

  lemma {:induction false} WalkLeaves(k: KV, reg: set<string>, path: seq<nat>)
    requires Open(k, path, 1)
    ensures Left(At(k, path), At(Walk(k, reg), path), path != [], reg)
    decreases |path|
  {
    hide HoldsAttachments, Keep, Open;
    if k.Block? && path != [] && path[0] < |k.children| {
      var c := k.children[path[0]];
      WalkAllAt(k.children, reg, path[0]);
      OpenBelow(k, path, 0);
      SectionsExactly(c);
      if |path| == 1 {
        assert At(k, path) == At(c, path[1..]) == Some(c);
      } else {
        OpenFurther(c, path[1..]);
        WalkLeaves(c, reg, path[1..]);
      }
    }
  }

  lemma {:induction false} OpenFurther(k: KV, path: seq<nat>)
    requires Open(k, path, 0)
    ensures Open(k, path, 1)
  {
  }

  lemma {:induction false} SectionsAt(ss: seq<KV>, reg: set<string>, i: nat)
    requires i < |ss|
    ensures CleanSections(ss, reg)[i] == CleanSection(ss[i], reg)
  {
    hide CleanSection;
    if i > 0 {
      SectionsAt(ss[1..], reg, i - 1);
    }
  }

  lemma {:induction false} SectionLeaves(s: KV, reg: set<string>, path: seq<nat>)
    requires Open(s, path, 2)
    ensures Left(At(s, path), At(CleanSection(s, reg), path), |path| > 1, reg)
  {
    hide HoldsAttachments, Keep, Open, Walk;
    if s.Block? && path != [] && path[0] < |s.children| {
      WalkEachAt(s.children, reg, path[0]);
      OpenBelow(s, path, 1);
      WalkLeaves(s.children[path[0]], reg, path[1..]);
    }
  }

  /** Attachments stand in a block named viewmodel_attachments or world_attachments that lies below a definition,
      which lies in a section of the theater. Every node that does not lie in such a block stays where and what it
      is, and of such a block's children all stay, in their order, but the orphans. */
  lemma {:induction false} CleanInWords(root: KV, reg: set<string>, path: seq<nat>)
    requires Open(root, path, 3)
    ensures Left(At(root, path), At(Clean(root, reg), path), |path| > 2, reg)
  {
    hide HoldsAttachments, Keep, Open, CleanSection;
    if root.Block? && path != [] && path[0] < |root.children| {
      SectionsAt(root.children, reg, path[0]);
      OpenBelow(root, path, 2);
      SectionLeaves(root.children[path[0]], reg, path[1..]);
    }
  }

  // ---- All that are met ----

  /** The path leads to a child of the first block on it, from this depth on, that holds attachments. */
  predicate MetAt(k: KV, path: seq<nat>, from: nat, att: KV) {
    && |path| > from && At(k, path) == Some(att) && SectionAt(k, path[..|path| - 1])
    && Open(k, path[..|path| - 1], from)
  }

  ghost predicate Met(k: KV, from: nat, att: KV) {
    exists path :: MetAt(k, path, from, att)
  }

  lemma {:induction false} MetDown(k: KV, path: seq<nat>, from: nat, att: KV)
    requires k.Block? && path != [] && path[0] < |k.children|
    ensures MetAt(k, path, from + 1, att) <==> MetAt(k.children[path[0]], path[1..], from, att)
  {
    hide HoldsAttachments;
    var n, c, rest := |path| - 1, k.children[path[0]], path[1..];
    if n > from {
      var up, down := path[..n], rest[..n - 1];
      assert up[1..] == down;
      assert At(k, up) == At(c, down);
      forall m | from <= m < n - 1 ensures At(k, up[..m + 1]) == At(c, down[..m]) {
        assert up[..m + 1][1..] == down[..m];
      }
      assert Open(k, up, from + 1) ==> Open(c, down, from) by {
        if Open(k, up, from + 1) {
          forall m | from <= m < n - 1 ensures !SectionAt(c, down[..m]) {
            assert !SectionAt(k, up[..m + 1]);
          }
        }
      }
      assert Open(c, down, from) ==> Open(k, up, from + 1) by {
        if Open(c, down, from) {
          forall m | from + 1 <= m < n ensures !SectionAt(k, up[..m]) {
            assert !SectionAt(c, down[..m - 1]);
          }
        }
      }
    }
  }

  lemma {:induction false} MetHere(c: KV, path: seq<nat>, att: KV)
    ensures HoldsAttachments(c) ==>
              (MetAt(c, path, 0, att) <==> |path| == 1 && path[0] < |c.children| && att == c.children[path[0]])
    ensures !HoldsAttachments(c) ==> (MetAt(c, path, 0, att) <==> MetAt(c, path, 1, att))
  {
    hide SameName;
    if path != [] {
      var up := path[..|path| - 1];
      assert At(c, []) == Some(c);
      if |path| > 1 {
        assert up[..0] == [];
        assert Open(c, up, 0) <==> !SectionAt(c, up[..0]) && Open(c, up, 1);
      } else {
        assert up == [];
        if c.Block? && path[0] < |c.children| {
          assert At(c, path) == At(c.children[path[0]], path[1..]);
          assert path[1..] == [];
        }
      }
    }
  }

  lemma {:induction false} InSome(ks: seq<KV>, att: KV)
    ensures att in AttachmentsAll(ks) <==> exists i :: 0 <= i < |ks| && att in AttachmentsOne(ks[i])
  {
    hide AttachmentsOne;
    if ks != [] {
      InSome(ks[1..], att);
      assert forall i :: 0 <= i < |ks| - 1 ==> ks[1..][i] == ks[i + 1];
      assert forall i :: 0 < i < |ks| ==> ks[i] == ks[1..][i - 1];
    }
  }

  lemma {:induction false} OneMet(c: KV, att: KV)
    ensures att in AttachmentsOne(c) <==> Met(c, 0, att)
    decreases c, 1
  {
    hide HoldsAttachments, MetAt;
    SectionsExactly(c);
    if HoldsAttachments(c) {
      IsBlock(c);
      if path :| MetAt(c, path, 0, att) {
        MetHere(c, path, att);
      }
      if att in c.children {
        var i: nat :| i < |c.children| && c.children[i] == att;
        MetHere(c, [i], att);
      }
    } else {
      AllMet(c, att);
      forall path ensures MetAt(c, path, 0, att) <==> MetAt(c, path, 1, att) {
        MetHere(c, path, att);
      }
    }
  }

  lemma {:induction false} IsBlock(c: KV)
    requires HoldsAttachments(c)
    ensures c.Block?
  {
  }

  lemma {:induction false} AllMet(k: KV, att: KV)
    ensures att in Attachments(k) <==> Met(k, 1, att)
    decreases k, 0
  {
    hide HoldsAttachments, MetAt, AttachmentsOne, AttachmentsAll;
    forall path | MetAt(k, path, 1, att) ensures k.Block? && path != [] && path[0] < |k.children| {
      MetInside(k, path, 1, att);
    }
    if k.Block? {
      InSome(k.children, att);
      forall i | 0 <= i < |k.children|
        ensures att in AttachmentsOne(k.children[i]) <==> Met(k.children[i], 0, att)
      {
        OneMet(k.children[i], att);
      }
      Lifted(k, 0, att);
    }
  }

  lemma {:induction false} MetInside(k: KV, path: seq<nat>, from: nat, att: KV)
    requires MetAt(k, path, from, att)
    ensures path != [] && k.Block? && path[0] < |k.children|
  {
  }

  /** Met below a block is met below one of its children. */
  lemma {:induction false} Lifted(k: KV, from: nat, att: KV)
    requires k.Block?
    ensures Met(k, from + 1, att) <==> exists i :: 0 <= i < |k.children| && Met(k.children[i], from, att)
  {
    hide MetAt;
    var deeper := from + 1;
    if path :| MetAt(k, path, deeper, att) {
      MetInside(k, path, deeper, att);
      MetDown(k, path, from, att);
      assert MetAt(k.children[path[0]], path[1..], from, att);
    }
    if i: nat :| i < |k.children| && Met(k.children[i], from, att) {
      var path :| MetAt(k.children[i], path, from, att);
      var longer := [i] + path;
      assert longer[1..] == path;
      MetDown(k, longer, from, att);
    }
  }

  lemma {:induction false} InEach(ds: seq<KV>, att: KV)
    ensures att in AttachmentsOfEach(ds) <==> exists i :: 0 <= i < |ds| && att in Attachments(ds[i])
  {
    hide Attachments;
    if ds != [] {
      InEach(ds[1..], att);
      assert forall i :: 0 <= i < |ds| - 1 ==> ds[1..][i] == ds[i + 1];
      assert forall i :: 0 < i < |ds| ==> ds[i] == ds[1..][i - 1];
    }
  }

  lemma {:induction false} InSections(ss: seq<KV>, att: KV)
    ensures att in AttachmentsOfSections(ss) <==> exists i :: 0 <= i < |ss| && att in AttachmentsOfSection(ss[i])
  {
    hide AttachmentsOfSection;
    if ss != [] {
      InSections(ss[1..], att);
      assert forall i :: 0 <= i < |ss| - 1 ==> ss[1..][i] == ss[i + 1];
      assert forall i :: 0 < i < |ss| ==> ss[i] == ss[1..][i - 1];
    }
  }

  lemma {:induction false} SectionMet(s: KV, att: KV)
    ensures att in AttachmentsOfSection(s) <==> Met(s, 2, att)
  {
    hide MetAt, Attachments, AttachmentsOfEach;
    forall path | MetAt(s, path, 2, att) ensures s.Block? {
      MetInside(s, path, 2, att);
    }
    if s.Block? {
      InEach(s.children, att);
      forall i | 0 <= i < |s.children|
        ensures att in Attachments(s.children[i]) <==> Met(s.children[i], 1, att)
      {
        AllMet(s.children[i], att);
      }
      Lifted(s, 1, att);
    }
  }

  /** An attachment is met exactly where a path leads to it through the theater, a section, a definition, and then
      any blocks that do not hold attachments, into one that does. */
  lemma {:induction false} MetExactly(root: KV, att: KV)
    ensures att in AttachmentsOfRoot(root) <==> exists path :: MetAt(root, path, 3, att)
  {
    hide MetAt, AttachmentsOfSection, AttachmentsOfSections;
    forall path | MetAt(root, path, 3, att) ensures root.Block? {
      MetInside(root, path, 3, att);
    }
    if root.Block? {
      InSections(root.children, att);
      forall i | 0 <= i < |root.children|
        ensures att in AttachmentsOfSection(root.children[i]) <==> Met(root.children[i], 2, att)
      {
        SectionMet(root.children[i], att);
      }
      Lifted(root, 2, att);
    }
  }
}
