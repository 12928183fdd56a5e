/** Absolute paths as the case-folding cache handles them: C strings compared byte by byte, folded
    with `tolower` in the C locale, taken apart at slashes, and tested against the exclusion list. */
module Paths {

  const GAME_ROOT := "/opt/insurgency-server"

  // ---- Case folding ----

  function Lower(c: char): char {
    if 'A' <= c <= 'Z' then (c as int + 32) as char else c
  }

  function Fold(s: string): (f: string)
    ensures |f| == |s|
    ensures forall i :: 0 <= i < |s| ==> f[i] == Lower(s[i])
  {
    seq(|s|, i requires 0 <= i < |s| => Lower(s[i]))
  }

  lemma {:induction false} FoldConcat(a: string, b: string)
    ensures Fold(a + b) == Fold(a) + Fold(b)
  {
  }

  lemma {:induction false} FoldIdempotent(s: string)
    ensures Fold(Fold(s)) == Fold(s)
  {
  }

  // ---- Components ----

  /** A directory-entry name: readdir never yields an empty one or one with a slash in it. */
  predicate IsName(s: string) {
    s != "" && '/' !in s
  }

  predicate AreNames(names: seq<string>) {
    forall i :: 0 <= i < |names| ==> IsName(names[i])
  }

  /** "/a/b/c" for ["a", "b", "c"]. */
  function Join(names: seq<string>): string {
    if names == [] then "" else Join(names[..|names| - 1]) + "/" + names[|names| - 1]
  }

  function FoldAll(names: seq<string>): (f: seq<string>)
    ensures |f| == |names|
    ensures forall i :: 0 <= i < |names| ==> f[i] == Fold(names[i])
  {
    seq(|names|, i requires 0 <= i < |names| => Fold(names[i]))
  }

  lemma {:induction false} FoldedNames(names: seq<string>)
    requires AreNames(names)
    ensures AreNames(FoldAll(names))
  {
  }

  lemma {:induction false} JoinSnoc(names: seq<string>, n: string)
    ensures Join(names + [n]) == Join(names) + "/" + n
  {
  }

  lemma {:induction false} JoinConcat(a: seq<string>, b: seq<string>)
    ensures Join(a + b) == Join(a) + Join(b)
    decreases |b|
  {
    if b == [] {
      assert a + b == a;
    } else {
      var b', n := b[..|b| - 1], b[|b| - 1];
      assert a + b == (a + b') + [n];
      JoinSnoc(a + b', n);
      JoinConcat(a, b');
    }
  }

  lemma {:induction false} FoldJoin(names: seq<string>)
    ensures Fold(Join(names)) == Join(FoldAll(names))
  {
    if names != [] {
      var front, last := names[..|names| - 1], names[|names| - 1];
      FoldJoin(front);
      FoldConcat(Join(front) + "/", last);
      FoldConcat(Join(front), "/");
      assert FoldAll(names)[..|names| - 1] == FoldAll(front);
      assert Fold("/") == "/";
    }
  }

  /** strrchr(s, '/'): the position of the last slash, or -1 where there is none. */
  function LastSlash(s: string): (i: int)
    ensures -1 <= i < |s|
    ensures i >= 0 ==> s[i] == '/'
    ensures forall j :: i < j < |s| ==> s[j] != '/'
  {
    if s == "" then -1
    else if s[|s| - 1] == '/' then |s| - 1
    else LastSlash(s[..|s| - 1])
  }

  lemma {:induction false} LastSlashUnique(s: string, i: nat)
    requires i < |s| && s[i] == '/'
    requires forall j :: i < j < |s| ==> s[j] != '/'
    ensures LastSlash(s) == i
  {
  }

  lemma {:induction false} LastSlashOfJoin(front: string, last: string)
    requires '/' !in last
    ensures LastSlash(front + "/" + last) == |front|
  {
    hide LastSlash;
    var s := front + "/" + last;
    forall j | |front| < j < |s| ensures s[j] != '/' {
      assert s[j] == last[j - |front| - 1];
    }
    LastSlashUnique(s, |front|);
  }

  /** A normalised path determines its components. */
  lemma {:induction false} JoinInjective(a: seq<string>, b: seq<string>)
    requires AreNames(a) && AreNames(b)
    requires Join(a) == Join(b)
    ensures a == b
  {
    if a == [] || b == [] {
    } else {
      var a', x := a[..|a| - 1], a[|a| - 1];
      var b', y := b[..|b| - 1], b[|b| - 1];
      LastSlashOfJoin(Join(a'), x);
      LastSlashOfJoin(Join(b'), y);
      assert Join(a)[..|Join(a')|] == Join(a') && Join(b)[..|Join(b')|] == Join(b');
      assert Join(a)[|Join(a')| + 1..] == x && Join(b)[|Join(b')| + 1..] == y;
      JoinInjective(a', b');
      assert a == a' + [x] && b == b' + [y];
    }
  }

  // ---- Exclusion ----

  predicate OccursAt(p: string, i: int, sub: string) {
    0 <= i <= |p| - |sub| && p[i..i + |sub|] == sub
  }

  /** strstr(p, sub) != NULL. */
  predicate Contains(p: string, sub: string) {
    exists i :: 0 <= i <= |p| && OccursAt(p, i, sub)
  }

  predicate UnderRoot(p: string) {
    GAME_ROOT <= p
  }

  /** The path lies in the directory `excl` of the game tree, on a component boundary. */
  predicate UnderDir(p: string, excl: string) {
    && UnderRoot(p)
    && var rel := p[|GAME_ROOT|..];
    && excl <= rel
    && (|rel| == |excl| || rel[|excl|] == '/')
  }

  /** Exactly the directory itself and what lies below it; not a name that merely begins like it. */
  lemma {:induction false} UnderDirExactly(p: string, excl: string)
    ensures UnderDir(p, excl) <==>
            p == GAME_ROOT + excl || exists rest :: p == GAME_ROOT + excl + "/" + rest
  {
    var dir := GAME_ROOT + excl;
    if UnderDir(p, excl) {
      var rel := p[|GAME_ROOT|..];
      assert p == GAME_ROOT + rel;
      if |rel| > |excl| {
        assert rel == excl + "/" + rel[|excl| + 1..];
        assert p == dir + "/" + rel[|excl| + 1..];
      } else {
        assert rel == excl;
      }
    }
    if rest :| p == dir + "/" + rest {
      assert p[|GAME_ROOT|..] == excl + ("/" + rest);
    }
    if p == dir {
      assert p[|GAME_ROOT|..] == excl;
    }
  }

  predicate IsExcluded(p: string, extra: seq<string>) {
    || (exists i :: 0 <= i < |extra| && UnderDir(p, extra[i]))
    || Contains(p, "/download")
    || Contains(p, "/logs")
    || Contains(p, "/cfg/")
    || Contains(p, "/addons/sourcemod/data")
    || Contains(p, "/addons/sourcemod/logs")
    || Contains(p, "console.log")
  }

  lemma {:induction false} ContainsExtends(p: string, more: string, sub: string)
    requires Contains(p, sub)
    ensures Contains(p + more, sub)
  {
    var i :| 0 <= i <= |p| && OccursAt(p, i, sub);
    assert (p + more)[i..i + |sub|] == sub;
    assert OccursAt(p + more, i, sub);
  }

  /** Exclusion is inherited: nothing below an excluded path can be indexed or answered. */
  lemma {:induction false} ExclusionInherited(p: string, rest: string, extra: seq<string>)
    requires IsExcluded(p, extra)
    ensures IsExcluded(p + "/" + rest, extra)
  {
    var q := p + "/" + rest;
    assert q == p + ("/" + rest);
    if i :| 0 <= i < |extra| && UnderDir(p, extra[i]) {
      var rel := p[|GAME_ROOT|..];
      assert q[|GAME_ROOT|..] == rel + "/" + rest;
      assert UnderDir(q, extra[i]);
    } else {
      var sub :|
        sub in ["/download", "/logs", "/cfg/", "/addons/sourcemod/data", "/addons/sourcemod/logs", "console.log"]
        && Contains(p, sub);
      ContainsExtends(p, "/" + rest, sub);
    }
  }
}
