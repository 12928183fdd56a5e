/** Which paths the cache answers for, spelled out. */
module Exclusions {
  import opened Paths
  import opened CaseIndex
  import opened GameTree
  import opened Resolve
  import opened IndexTheorems

  /** The text has this piece somewhere in it. */
  ghost predicate Has(text: string, piece: string) {
    exists a: string, b: string :: text == a + piece + b
  }

  ghost predicate HasOneOfSix(path: string) {
    || Has(path, "/download") || Has(path, "/logs") || Has(path, "/cfg/")
    || Has(path, "/addons/sourcemod/data") || Has(path, "/addons/sourcemod/logs") || Has(path, "console.log")
  }

  /** It is this directory of the game tree or lies below it. */
  ghost predicate LiesIn(path: string, dir: string) {
    path == "/opt/insurgency-server" + dir || exists rest :: path == "/opt/insurgency-server" + dir + "/" + rest
  }

  lemma {:induction false} HasExactly(text: string, piece: string)
    ensures Contains(text, piece) <==> Has(text, piece)
  {
    if Contains(text, piece) {
      var i :| 0 <= i <= |text| && OccursAt(text, i, piece);
      assert text == text[..i] + piece + text[i + |piece|..];
    }
    if Has(text, piece) {
      var a: string, b: string :| text == a + piece + b;
      assert OccursAt(text, |a|, piece);
    }
  }

  ghost predicate LiesInOne(path: string, extra: seq<string>) {
    exists i :: 0 <= i < |extra| && LiesIn(path, extra[i])
  }

  lemma {:induction false} ExcludedExactly(path: string, extra: seq<string>)
    ensures IsExcluded(path, extra) <==> HasOneOfSix(path) || LiesInOne(path, extra)
  {
    hide Has, Contains, LiesIn;
    HasExactly(path, "/download");
    HasExactly(path, "/logs");
    HasExactly(path, "/cfg/");
    HasExactly(path, "/addons/sourcemod/data");
    HasExactly(path, "/addons/sourcemod/logs");
    HasExactly(path, "console.log");
    forall i | 0 <= i < |extra| ensures UnderDir(path, extra[i]) <==> LiesIn(path, extra[i]) {
      LiesInExactly(path, extra[i]);
    }
  }

  /** The cache takes responsibility for a path exactly when it begins like the game root, is shorter than 4096
      characters, has none of the six built-in pieces in it and lies in none of the configured directories. */
  lemma {:induction false} TrackedExactly(path: string, extra: seq<string>)
    ensures Tracked(path, extra) <==>
            && "/opt/insurgency-server" <= path && |path| < 4096 && !HasOneOfSix(path)
            && forall i :: 0 <= i < |extra| ==> !LiesIn(path, extra[i])
  {
    hide IsExcluded, LiesIn, HasOneOfSix;
    ExcludedExactly(path, extra);
  }

  lemma {:induction false} LiesInExactly(path: string, dir: string)
    ensures UnderDir(path, dir) <==> LiesIn(path, dir)
  {
    UnderDirExactly(path, dir);
  }

  // ---- What the operation answers ----

  const SIX := ["/download", "/logs", "/cfg/", "/addons/sourcemod/data", "/addons/sourcemod/logs", "console.log"]

  /** A path with one of the six pieces in it goes to libc as it is, whatever the index and the dirty set hold. */
  lemma {:induction false} BuiltInsPassThrough(puts: seq<Node>, dirty: bool, extra: seq<string>, a: string, b: string,
         k: nat)
    requires k < 6
    ensures AnswerFor(puts, dirty, extra, a + SIX[k] + b) == Passthrough
  {
    hide AnswerFor;
    assert Has(a + SIX[k] + b, SIX[k]);
    TrackedExactly(a + SIX[k] + b, extra);
    Untracked(puts, dirty, extra, a + SIX[k] + b);
  }

  lemma {:induction false} Untracked(puts: seq<Node>, dirty: bool, extra: seq<string>, path: string)
    requires !Tracked(path, extra)
    ensures AnswerFor(puts, dirty, extra, path) == Passthrough
  {
  }

  /** Nor does the index hold such a path below the root. */
  lemma {:induction false} BuiltInsNotIndexed(d: Disk, extra: seq<string>, n: Node, a: string, b: string, k: nat)
    requires k < 6 && n in Indexed(d, extra) && |n.path| > |GAME_ROOT|
    ensures n.path != a + SIX[k] + b
  {
    hide Indexed, NodeFor;
    LongKey(d, extra, n);
    var names := PutsOf(d, extra, n);
    NodePath(GAME_ROOT, d.game, names, extra, n);
    NothingJoined();
    HasExactly(n.path, SIX[k]);
  }

  lemma {:induction false} NothingJoined()
    ensures GAME_ROOT + Join([]) == GAME_ROOT
  {
  }

  lemma {:induction false} LongKey(d: Disk, extra: seq<string>, n: Node)
    requires n in Indexed(d, extra) && |n.path| > |GAME_ROOT|
    ensures |n.cf| >= |GAME_ROOT|
  {
    hide Walk;
    assert n !in ListingNode("/", d.top) && n !in ListingNode("/opt", d.opt);
    WalkKeysLong(d, extra, n);
  }

  /** Elsewhere, and for paths in a configured directory or of 4096 characters and more, the cache stays out. */
  lemma {:induction false} OthersPassThrough(puts: seq<Node>, dirty: bool, extra: seq<string>, path: string)
    requires !("/opt/insurgency-server" <= path) || |path| >= 4096
             || exists i :: 0 <= i < |extra| && LiesIn(path, extra[i])
    ensures AnswerFor(puts, dirty, extra, path) == Passthrough
  {
    hide AnswerFor, LiesIn, HasOneOfSix;
    TrackedExactly(path, extra);
    Untracked(puts, dirty, extra, path);
  }

  /** Everything else is answered from the index: where it holds the path under some spelling, and every spelling
      it holds is short enough, the answer is one of those. */
  lemma {:induction false} TheRestIsAnswered(puts: seq<Node>, dirty: bool, extra: seq<string>, path: string, n: Node)
    requires "/opt/insurgency-server" <= path && |path| < 4096 && !HasOneOfSix(path)
    requires forall i :: 0 <= i < |extra| ==> !LiesIn(path, extra[i])
    requires n in puts && n.cf == Fold(path)
    requires forall m :: m in puts && m.cf == Fold(path) ==> |m.path| < 4096
    ensures exists m :: m in puts && m.cf == Fold(path) && AnswerFor(puts, dirty, extra, path) == Hit(m.path)
  {
    hide Fold, LiesIn, HasOneOfSix;
    TrackedExactly(path, extra);
    LookupFinds(puts, Fold(path));
  }

  // ---- Case folding ----

  const CAPITALS := ["ABCDEFGH", "IJKLMNOP", "QRSTUVWX", "YZ"]
  const SMALL := ["abcdefgh", "ijklmnop", "qrstuvwx", "yz"]

  /** Folding makes these letters small and changes nothing else. */
  lemma {:induction false} FoldTable(c: char)
    ensures forall k :: 0 <= k < 4 ==> Fold(CAPITALS[k]) == SMALL[k]
    ensures (forall k :: 0 <= k < 4 ==> c !in CAPITALS[k]) ==> Fold([c]) == [c]
  {
    assert Fold(CAPITALS[0]) == SMALL[0];
    assert Fold(CAPITALS[1]) == SMALL[1];
    assert Fold(CAPITALS[2]) == SMALL[2];
    assert Fold(CAPITALS[3]) == SMALL[3];
    if 'A' <= c <= 'Z' {
      Capital(c);
    }
  }

  lemma {:induction false} Capital(c: char)
    requires 'A' <= c <= 'Z'
    ensures exists k :: 0 <= k < 4 && c in CAPITALS[k]
  {
    if c <= 'H' {
      assert c in CAPITALS[0];
    } else if c <= 'P' {
      assert c in CAPITALS[1];
    } else if c <= 'X' {
      assert c in CAPITALS[2];
    } else {
      assert c in CAPITALS[3];
    }
  }
}
