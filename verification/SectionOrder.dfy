/** Names and the order of sections, spelled out: which names match, and which sections keep base order. */
module SectionOrder {
  import opened KeyValues
  import opened MergeLaws
  import opened BaseOrder
  import Lookups
  import opened Shuffles

  // ---- Which names match ----

  const BIG := [
    "ABCDEFGH",
    "IJKLMNOP",
    "QRSTUVWX",
    "YZ\U{C0}\U{C1}\U{C2}\U{C3}\U{C4}\U{C5}",
    "\U{C6}\U{C7}\U{C8}\U{C9}\U{CA}\U{CB}\U{CC}\U{CD}",
    "\U{CE}\U{CF}\U{D0}\U{D1}\U{D2}\U{D3}\U{D4}\U{D5}",
    "\U{D6}\U{D8}\U{D9}\U{DA}\U{DB}\U{DC}\U{DD}\U{DE}"]
  const LITTLE := [
    "abcdefgh",
    "ijklmnop",
    "qrstuvwx",
    "yz\U{E0}\U{E1}\U{E2}\U{E3}\U{E4}\U{E5}",
    "\U{E6}\U{E7}\U{E8}\U{E9}\U{EA}\U{EB}\U{EC}\U{ED}",
    "\U{EE}\U{EF}\U{F0}\U{F1}\U{F2}\U{F3}\U{F4}\U{F5}",
    "\U{F6}\U{F8}\U{F9}\U{FA}\U{FB}\U{FC}\U{FD}\U{FE}"]

  /** The big letter b of the table and its little one. */
  predicate Pair(b: char, l: char) {
    exists k, i :: 0 <= k < 7 && 0 <= i < |BIG[k]| && BIG[k][i] == b && i < |LITTLE[k]| && LITTLE[k][i] == l
  }

  predicate SameLetter(c: char, d: char) {
    c == d || Pair(c, d) || Pair(d, c)
  }

  /** Two names are the same but for the case of letters. */
  predicate SameName(a: string, b: string) {
    |a| == |b| && forall i :: 0 <= i < |a| ==> SameLetter(a[i], b[i])
  }

  lemma {:induction false} Lowered(big: string, little: string)
    requires LowerName(big) == little
    ensures |big| == |little| && forall i :: 0 <= i < |big| ==> LowerChar(big[i]) == little[i]
  {
  }

  lemma {:induction false} LowerTable(k: nat)
    requires k < 7
    ensures LowerName(BIG[k]) == LITTLE[k]
  {
    if k < 4 {
      AsciiTable(k);
    } else {
      LatinTable(k);
    }
  }

  lemma {:induction false} AsciiTable(k: nat)
    requires k < 4
    ensures LowerName(BIG[k]) == LITTLE[k]
  {
    assert LowerName(BIG[0]) == LITTLE[0] && LowerName(BIG[1]) == LITTLE[1];
    assert LowerName(BIG[2]) == LITTLE[2] && LowerName(BIG[3]) == LITTLE[3];
  }

  lemma {:induction false} LatinTable(k: nat)
    requires 4 <= k < 7
    ensures LowerName(BIG[k]) == LITTLE[k]
  {
    assert LowerName(BIG[4]) == LITTLE[4] && LowerName(BIG[5]) == LITTLE[5] && LowerName(BIG[6]) == LITTLE[6];
  }

  /** The letters of the table, counted through. */
  lemma {:induction false} BigAt(k: nat, i: nat)
    requires k < 7 && i < 8
    ensures |BIG[k]| == 8
    ensures var p := 8 * k + i; BIG[k][i] as int == if p < 26 then 65 + p else if p < 49 then 166 + p else 167 + p
  {
    if k == 0 {
    } else if k == 1 {
    } else if k == 2 {
    } else if k == 3 {
    } else if k == 4 {
    } else if k == 5 {
    } else {
      assert k == 6;
    }
  }

  lemma {:induction false} Listed(c: char)
    requires LowerChar(c) != c
    ensures Pair(c, LowerChar(c))
  {
    var n := c as int;
    var place := if n <= 90 then n - 65 else if n < 215 then n - 166 else n - 167;
    var k, i := place / 8, place % 8;
    BigAt(k, i);
    LowerTable(k);
    Lowered(BIG[k], LITTLE[k]);
    AtPlace(c, k, i);
  }

  lemma {:induction false} AtPlace(c: char, k: nat, i: nat)
    requires k < 7 && i < |BIG[k]| && BIG[k][i] == c && i < |LITTLE[k]| && LITTLE[k][i] == LowerChar(c)
    ensures Pair(c, LowerChar(c))
  {
    hide LowerChar;
  }

  lemma {:induction false} Paired(b: char, l: char)
    requires Pair(b, l)
    ensures LowerChar(b) == l && LowerChar(l) == l
  {
    hide LowerName;
    var k, i :| 0 <= k < 7 && 0 <= i < |BIG[k]| && BIG[k][i] == b && i < |LITTLE[k]| && LITTLE[k][i] == l;
    LowerTable(k);
    Lowered(BIG[k], LITTLE[k]);
    LoweredTwice(b);
  }

  lemma {:induction false} LoweredTwice(c: char)
    ensures LowerChar(LowerChar(c)) == LowerChar(c)
  {
  }

  lemma {:induction false} LettersMatch(c: char, d: char)
    ensures LowerChar(c) == LowerChar(d) <==> SameLetter(c, d)
  {
    hide Pair;
    if SameLetter(c, d) && c != d {
      if Pair(c, d) {
        Paired(c, d);
      } else {
        Paired(d, c);
      }
    }
    if LowerChar(c) == LowerChar(d) {
      if LowerChar(c) != c {
        Listed(c);
      }
      if LowerChar(d) != d {
        Listed(d);
      }
      OneBig(c, d);
    }
  }

  lemma {:induction false} OneBig(c: char, d: char)
    requires LowerChar(c) == LowerChar(d)
    ensures c == d || LowerChar(c) == c || LowerChar(d) == d
  {
  }

  /** Two children match by name exactly where their names are the same but for the case of these letters. */
  lemma {:induction false} NamesMatch(x: KV, y: KV)
    ensures Key(x) == Key(y) <==> SameName(x.name, y.name)
  {
    hide LowerChar, SameLetter;
    var a, b := x.name, y.name;
    forall i | 0 <= i < |a| && i < |b| ensures LowerChar(a[i]) == LowerChar(b[i]) <==> SameLetter(a[i], b[i]) {
      LettersMatch(a[i], b[i]);
    }
    if Key(x) == Key(y) {
      forall i | 0 <= i < |a| ensures SameLetter(a[i], b[i]) {
        assert LowerName(a)[i] == LowerName(b)[i];
      }
    }
    if SameName(a, b) {
      assert forall i :: 0 <= i < |a| ==> LowerName(a)[i] == LowerName(b)[i];
    }
  }

  /** What a match does: the base's child is merged into the first child of its name; without one, it comes
      last. */
  lemma {:induction false} MatchedOrAppended(ts: seq<KV>, b: KV, e: nat, i: nat)
    requires i <= |ts| && (forall j :: 0 <= j < i ==> !SameName(ts[j].name, b.name))
    requires i < |ts| ==> SameName(ts[i].name, b.name)
    ensures MergeAll(ts, [b], e) == if i < |ts| then ts[i := Merge(ts[i], b, e + 1)] else ts + [b]
  {
    hide Key, SameName, Merge;
    forall j | 0 <= j < |ts| ensures Key(ts[j]) == Key(b) <==> SameName(ts[j].name, b.name) {
      NamesMatch(ts[j], b);
    }
    FirstUnique(ts, Key(b), i);
    assert [b][..0] == [] && MergeAll(ts, [], e) == ts;
  }

  // ---- Which sections keep base order ----

  lemma {:induction false} SectionName()
    ensures LowerName("weapon_upgrades") == WEAPON_UPGRADES
  {
  }

  /** Capital letters make no difference; another name does. */
  lemma {:induction false} SectionSpellings()
    ensures SameName("Weapon_Upgrades", "weapon_upgrades") && !SameName("ammo", "weapon_upgrades")
  {
    hide LowerChar, Pair;
    LettersMatch('W', 'w');
    LettersMatch('U', 'u');
    assert LowerChar('W') == 'w' == LowerChar('w') && LowerChar('U') == 'u' == LowerChar('u') by { TwoCapitals(); }
  }

  lemma {:induction false} TwoCapitals()
    ensures LowerChar('W') == 'w' == LowerChar('w') && LowerChar('U') == 'u' == LowerChar('u')
  {
  }

  /** A section of this name, in whatever case, takes the order of the base: with distinct names in the base,
      child k of the merged section has the base's k-th name. */
  lemma {:induction false} UpgradesInBaseOrder(name: string, ts: seq<KV>, b: KV)
    requires SameName(name, "weapon_upgrades")
    requires b.Block? && forall i, j :: 0 <= i < j < |b.children| ==> !SameName(b.children[i].name, b.children[j].name)
    ensures var r := Merge(Block(name, ts), b, 1).children;
            |r| >= |b.children| && forall k :: 0 <= k < |b.children| ==> SameName(r[k].name, b.children[k].name)
  {
    hide SameName, Key, MergeAll, Arranged, LowerName;
    var t, bs := Block(name, ts), b.children;
    Upgrades(t);
    ChildrenOf(t, b, 1);
    forall i, j | 0 <= i < j < |bs| ensures Key(bs[i]) != Key(bs[j]) {
      NamesMatch(bs[i], bs[j]);
    }
    BaseKeepsItsIds(ts, bs, 1);
    var r := Arranged(ts, bs, 1);
    forall k | 0 <= k < |bs| ensures SameName(r[k].name, bs[k].name) {
      NamesMatch(r[k], bs[k]);
    }
  }

  lemma {:induction false} Upgrades(t: KV)
    ensures BaseOrdered(t, 1) <==> SameName(t.name, "weapon_upgrades")
  {
    hide SameName, LowerName;
    SectionName();
    NamesMatch(t, Block("weapon_upgrades", []));
  }

  /** Every other section, and everything above and below the sections, keeps the derived side's order: its
      children stand first, each where it stood, under the name it had. */
  lemma {:induction false} OthersInDerivedOrder(t: KV, b: KV, depth: nat)
    requires depth != 1 || !SameName(t.name, "weapon_upgrades")
    ensures t.Block? ==>
              var r := Merge(t, b, depth).children;
              |r| >= |t.children| && forall k :: 0 <= k < |t.children| ==> r[k].name == t.children[k].name
  {
    hide SameName, Key, Merge, MergeAll;
    if t.Block? && b.Block? {
      if depth == 1 {
        Upgrades(t);
      }
      ChildrenOf(t, b, depth);
      forall k | 0 <= k < |t.children| ensures MergeAll(t.children, b.children, depth)[k].name == t.children[k].name {
        NameStays(t.children, b.children, depth, k);
      }
    } else {
      Lookups.LeafAddsNothing(t, b, depth);
    }
  }

  lemma {:induction false} NameStays(ts: seq<KV>, bs: seq<KV>, e: nat, k: nat)
    requires k < |ts|
    ensures MergeAll(ts, bs, e)[k].name == ts[k].name
    decreases |bs|
  {
    hide First, Merge, Key;
    if bs != [] {
      NameStays(ts, bs[..|bs| - 1], e, k);
    }
  }
}
