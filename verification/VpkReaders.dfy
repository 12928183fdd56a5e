/** The two readers as the programs run them: three nested loops moving one position through the bytes. Both
    programs share the loops; they differ in what they do with an entry and where the bytes come from. The loops
    are proved against one scanner that remembers the level it is at: what was collected so far, followed by
    what the scanner collects from the present position, stays the same at every turn of every loop. */
module VpkReaders {
  import opened Bytes
  import opened VpkTree

  const SLASH: byte := 47
  const DOT: byte := 46
  const SPACE: byte := 32

  /** The path an entry unpacks to. " " stands for the root. */
  function FullName(r: Rec): Name {
    (if r.path == [] || r.path == [SPACE] then [] else r.path + [SLASH]) + r.base + [DOT] + r.ext
  }

  function FullNames(recs: seq<Rec>): (ns: seq<Name>)
    ensures |ns| == |recs|
    ensures forall i :: 0 <= i < |recs| ==> ns[i] == FullName(recs[i])
  {
    seq(|recs|, i requires 0 <= i < |recs| => FullName(recs[i]))
  }

  /** The string at pos, and the position after its NUL; ok is false where there is no NUL left. */
  method ReadStr(t: seq<byte>, pos: nat) returns (ok: bool, s: Name, next: nat)
    ensures var rest := Skip(t, pos);
            ok <==> NulAt(rest) < |rest|
    ensures ok ==> pos < next <= |t| && s == Skip(t, pos)[..NulAt(Skip(t, pos))]
                   && t[next..] == Skip(t, next) == Skip(t, pos)[NulAt(Skip(t, pos)) + 1..]
  {
    hide NulAt;
    s, next := [], pos;
    ok := false;
    if pos > |t| {
      return;
    }
    var rest := t[pos..];
    var end := pos;
    while end < |t| && t[end] != NUL
      invariant pos <= end <= |t|
      invariant forall j :: pos <= j < end ==> t[j] != NUL
    {
      end := end + 1;
    }
    assert forall j :: 0 <= j < end - pos ==> rest[j] == t[pos + j];
    if end < |t| {
      assert rest[end - pos] == NUL;
      assert NulAt(rest) == end - pos;
      ok, s, next := true, t[pos..end], end + 1;
      assert t[next..] == rest[end - pos + 1..];
    }
  }

  lemma {:induction false} NoTurn(rest: seq<byte>, level: Level, ext: Name, path: Name)
    requires NulAt(rest) == |rest|
    ensures Scan(rest, level, ext, path) == Scanned([], false)
  {
    hide NulAt, Ahead, Skip, ReadRec, Preload;
  }

  lemma {:induction false} ScanOn(rest: seq<byte>, level: Level, ext: Name, path: Name)
    requires Turn(rest, level, ext, path).Go? && Turn(rest, level, ext, path).recs == []
    ensures var go := Turn(rest, level, ext, path);
            Scan(rest, level, ext, path) == Scan(go.rest, go.level, go.ext, go.path)
  {
    hide Turn, NulAt, Skip, Ahead, ReadRec, Preload;
    var go := Turn(rest, level, ext, path);
    AheadTwice([], [], Scan(go.rest, go.level, go.ext, go.path));
  }

  lemma {:induction false} ExtAt(rest: seq<byte>)
    requires NulAt(rest) < |rest|
    ensures var i := NulAt(rest);
            Scan(rest, ExtLevel, [], []) ==
            if i == 0 then Scanned([], true) else Scan(rest[i + 1..], PathLevel, rest[..i], [])
  {
    hide NulAt, Skip, Ahead, ReadRec, Preload;
    if NulAt(rest) > 0 {
      ScanOn(rest, ExtLevel, [], []);
    }
  }

  lemma {:induction false} PathAt(rest: seq<byte>, ext: Name)
    requires NulAt(rest) < |rest|
    ensures var i := NulAt(rest);
            Scan(rest, PathLevel, ext, []) ==
            if i == 0 then Scan(rest[i + 1..], ExtLevel, [], []) else Scan(rest[i + 1..], NameLevel, ext, rest[..i])
  {
    hide NulAt, Skip, Ahead, ReadRec, Preload, Scan;
    ScanOn(rest, PathLevel, ext, []);
  }

  lemma {:induction false} NamesEnd(rest: seq<byte>, ext: Name, path: Name)
    requires NulAt(rest) == 0 < |rest|
    ensures Scan(rest, NameLevel, ext, path) == Scan(rest[1..], PathLevel, ext, [])
  {
    hide NulAt, Skip, Ahead, ReadRec, Preload, Scan;
    ScanOn(rest, NameLevel, ext, path);
  }

  lemma {:induction false} TurnRecord(rest: seq<byte>, after: seq<byte>, ext: Name, path: Name, s: Name)
    requires s != [] && NulAt(rest) < |rest| && s == rest[..NulAt(rest)] && after == rest[NulAt(rest) + 1..]
    ensures Turn(rest, NameLevel, ext, path) ==
            if |after| < RECORD then Stop(false)
            else Go([ReadRec(ext, path, s, after)], Skip(after, RECORD + Preload(after)), NameLevel, ext, path)
  {
    hide ReadRec, Preload, NulAt, Skip;
  }

  lemma {:induction false} SkipTwice(t: seq<byte>, n: nat, k: nat)
    requires n <= |t|
    ensures Skip(t[n..], k) == Skip(t, n + k)
  {
    if n + k <= |t| {
      assert t[n..][k..] == t[n + k..];
    }
  }

  lemma {:induction false} RecordAt(t: seq<byte>, rest: seq<byte>, next: nat, ext: Name, path: Name, s: Name)
    requires next <= |t| && s != [] && NulAt(rest) < |rest| && s == rest[..NulAt(rest)]
    requires t[next..] == rest[NulAt(rest) + 1..]
    ensures |t| - next < RECORD ==> Scan(rest, NameLevel, ext, path) == Scanned([], false)
    ensures |t| - next >= RECORD ==>
              Scan(rest, NameLevel, ext, path) ==
              Ahead([ReadRec(ext, path, s, t[next..])],
                    Scan(Skip(t, next + RECORD + Preload(t[next..])), NameLevel, ext, path))
  {
    hide ReadRec, Preload, NulAt, Ahead, Turn, Skip;
    var after := t[next..];
    TurnRecord(rest, after, ext, path, s);
    if |after| >= RECORD {
      SkipTwice(t, next, RECORD + Preload(after));
    }
  }

  lemma {:induction false} SkipNone(t: seq<byte>)
    ensures Skip(t, 0) == t
  {
  }

  lemma {:induction false} Ends(out: seq<Rec>, complete: bool)
    ensures Ahead(out, Scanned([], complete)) == Scanned(out, complete)
  {
  }

  /** Every path in a directory, as far as its bytes go. Stops quietly where they run out. */
  method Entries(tree: seq<byte>) returns (out: seq<Rec>, complete: bool)
    ensures Scanned(out, complete) == Scan(tree, ExtLevel, [], [])
  {
    hide Scan, NulAt, ReadRec, Preload, Ahead, Skip;
    out := [];
    var pos := 0;
    SkipNone(tree);
    AheadTwice([], [], Scan(tree, ExtLevel, [], []));
    ghost var whole := Scan(tree, ExtLevel, [], []);
    while true
      invariant Ahead(out, Scan(Skip(tree, pos), ExtLevel, [], [])) == whole
      decreases |tree| - pos
    {
      var ok, ext, afterExt := ReadStr(tree, pos);
      if !ok { NoTurn(Skip(tree, pos), ExtLevel, [], []); Ends(out, false); return out, false; }
      ExtAt(Skip(tree, pos));
      pos := afterExt;
      if ext == [] { Ends(out, true); return out, true; }
      while true
        invariant pos <= |tree| && afterExt <= pos
        invariant Ahead(out, Scan(Skip(tree, pos), PathLevel, ext, [])) == whole
        decreases |tree| - pos
      {
        var ok, path, afterPath := ReadStr(tree, pos);
        if !ok { NoTurn(Skip(tree, pos), PathLevel, ext, []); Ends(out, false); return out, false; }
        PathAt(Skip(tree, pos), ext);
        pos := afterPath;
        if path == [] { break; }
        while true
          invariant afterPath <= pos
          invariant Ahead(out, Scan(Skip(tree, pos), NameLevel, ext, path)) == whole
          decreases |tree| - pos
        {
          var ok, name, afterName := ReadStr(tree, pos);
          if !ok { NoTurn(Skip(tree, pos), NameLevel, ext, path); Ends(out, false); return out, false; }
          if name == [] {
            NamesEnd(Skip(tree, pos), ext, path);
            pos := afterName;
            break;
          }
          RecordAt(tree, Skip(tree, pos), afterName, ext, path, name);
          if |tree| - afterName < RECORD { Ends(out, false); return out, false; }
          var r := ReadRec(ext, path, name, tree[afterName..]);
          pos := afterName + RECORD + Preload(tree[afterName..]);
          AheadTwice(out, [r], Scan(Skip(tree, pos), NameLevel, ext, path));
          out := out + [r];
        }
      }
    }
  }
}
