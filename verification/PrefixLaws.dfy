/** The prefixed output as a whole: which characters get a prefix, when the splitting into writes shows, and
    why the input can always be recovered. */
module PrefixLaws {
  import opened PrefixedWriter

  function Flat(ss: seq<string>): string {
    if ss == [] then [] else Flat(ss[..|ss| - 1]) + ss[|ss| - 1]
  }

  // ---- Marks ----

  /** A line starts here: at the front, after a line feed, and after a carriage return no line feed follows. */
  predicate StartsLine(s: string, i: nat)
    requires i < |s|
  {
    i == 0 || s[i - 1] == LF || (s[i - 1] == CR && s[i] != LF)
  }

  function LineStarts(s: string): (m: seq<bool>)
    ensures |m| == |s| && forall i :: 0 <= i < |s| ==> m[i] == StartsLine(s, i)
  {
    seq(|s|, i requires 0 <= i < |s| => StartsLine(s, i))
  }

  /** The prefix in front of every marked character. */
  function Stamp(prefix: string, s: string, m: seq<bool>): string
    requires |m| == |s|
  {
    if s == [] then [] else (if m[0] then prefix else []) + [s[0]] + Stamp(prefix, s[1..], m[1..])
  }

  /** What prefixing promises: one prefix before each line. */
  function Prefixed(prefix: string, s: string): string {
    Stamp(prefix, s, LineStarts(s))
  }

  function Starts(needs: bool, p: string): (m: seq<bool>)
    ensures |m| == |p| && forall i :: 0 <= i < |p| ==> m[i] == if i == 0 then needs else StartsLine(p, i)
  {
    seq(|p|, i requires 0 <= i < |p| => if i == 0 then needs else StartsLine(p, i))
  }

  lemma {:induction false} StampConcat(prefix: string, a: string, m: seq<bool>, b: string, n: seq<bool>)
    requires |m| == |a| && |n| == |b|
    ensures Stamp(prefix, a + b, m + n) == Stamp(prefix, a, m) + Stamp(prefix, b, n)
    decreases |a|
  {
    if a == [] {
      assert a + b == b && m + n == n;
    } else {
      assert (a + b)[1..] == a[1..] + b && (m + n)[1..] == m[1..] + n;
      StampConcat(prefix, a[1..], m[1..], b, n);
    }
  }

  function Unmarked(n: nat): (m: seq<bool>)
    ensures |m| == n && forall i :: 0 <= i < n ==> !m[i]
  {
    seq(n, _ => false)
  }

  lemma {:induction false} StampNone(prefix: string, s: string)
    ensures Stamp(prefix, s, Unmarked(|s|)) == s
    decreases |s|
  {
    if s != [] {
      assert Unmarked(|s|)[1..] == Unmarked(|s| - 1);
      StampNone(prefix, s[1..]);
    }
  }

  /** A first line is marked at its front or not at all. */
  lemma {:induction false} StampLine(prefix: string, needs: bool, p: string)
    requires p != []
    ensures Stamp(prefix, p, [needs] + Unmarked(|p| - 1)) == (if needs then prefix else []) + p
  {
    assert ([needs] + Unmarked(|p| - 1))[1..] == Unmarked(|p| - 1);
    StampNone(prefix, p[1..]);
    assert [p[0]] + p[1..] == p;
  }

  lemma {:induction false} InsideLine(p: string, i: nat)
    requires 0 < i < LineLength(p)
    ensures !StartsLine(p, i)
  {
    hide IndexOf;
  }

  lemma {:induction false} AfterLine(p: string)
    requires p != [] && LineLength(p) < |p|
    ensures StartsLine(p, LineLength(p))
  {
    hide IndexOf;
  }

  lemma {:induction false} StartsSplit(needs: bool, p: string)
    requires p != []
    ensures var k := LineLength(p); Starts(needs, p) == [needs] + Unmarked(k - 1) + Starts(true, p[k..])
  {
    hide LineLength;
    var k := LineLength(p);
    var m, n := Starts(needs, p), [needs] + Unmarked(k - 1) + Starts(true, p[k..]);
    forall i | 0 <= i < |p| ensures m[i] == n[i] {
      if 0 < i < k {
        InsideLine(p, i);
      } else if i == k {
        AfterLine(p);
      }
    }
  }

  lemma {:induction false} FlatFront(s: string, more: seq<string>)
    ensures Flat([s] + more) == s + Flat(more)
    decreases |more|
  {
    if more == [] {
      assert [s] + more == [s] && [s][..0] == [];
    } else {
      var n := |more| - 1;
      assert ([s] + more)[..|more|] == [s] + more[..n];
      FlatFront(s, more[..n]);
    }
  }

  /** What the loop writes line by line is the stamping, character by character. */
  lemma {:induction false} PiecesStamp(prefix: string, needs: bool, p: string)
    ensures Flat(Pieces(prefix, needs, p)) == Stamp(prefix, p, Starts(needs, p))
    decreases |p|
  {
    hide LineLength;
    if p != [] {
      var k := LineLength(p);
      var line := (if needs then prefix else []) + p[..k];
      FlatFront(line, Pieces(prefix, true, p[k..]));
      PiecesStamp(prefix, true, p[k..]);
      StartsSplit(needs, p);
      StampLine(prefix, needs, p[..k]);
      StampConcat(prefix, p[..k], [needs] + Unmarked(k - 1), p[k..], Starts(true, p[k..]));
      assert p[..k] + p[k..] == p;
    }
  }

  // ---- Many writes ----

  /** Whether the next write starts a line, after all of these. */
  function NeedsAll(ws: seq<string>): bool {
    if ws == [] then true else NeedsAfter(NeedsAll(ws[..|ws| - 1]), ws[|ws| - 1])
  }

  /** Everything the underlying writer receives for a sequence of writes. */
  function Output(prefix: string, ws: seq<string>): string {
    if ws == [] then []
    else Output(prefix, ws[..|ws| - 1]) + Flat(Pieces(prefix, NeedsAll(ws[..|ws| - 1]), ws[|ws| - 1]))
  }

  /** A sequence of writes through the writer. */
  method WriteAll(w: Writer, ws: seq<string>)
    requires w.Valid() && w.sink == [] && w.needsPrefix
    modifies w
    ensures w.Valid() && Flat(w.sink) == Output(w.prefix, ws) && w.needsPrefix == NeedsAll(ws)
  {
    hide Pieces, NeedsAfter;
    for i := 0 to |ws|
      invariant w.Valid() && Flat(w.sink) == Output(w.prefix, ws[..i]) && w.needsPrefix == NeedsAll(ws[..i])
    {
      assert ws[..i + 1][..i] == ws[..i];
      FlatConcat(w.sink, Pieces(w.prefix, w.needsPrefix, ws[i]));
      var _ := w.Write(ws[i]);
    }
    assert ws[..|ws|] == ws;
  }

  lemma {:induction false} FlatConcat(a: seq<string>, b: seq<string>)
    ensures Flat(a + b) == Flat(a) + Flat(b)
    decreases |b|
  {
    if b == [] {
      assert a + b == a;
    } else {
      var n := |b| - 1;
      assert (a + b)[..|a + b| - 1] == a + b[..n];
      FlatConcat(a, b[..n]);
    }
  }

  function Marks(ws: seq<string>): (m: seq<bool>)
    ensures |m| == |Flat(ws)|
  {
    if ws == [] then [] else Marks(ws[..|ws| - 1]) + Starts(NeedsAll(ws[..|ws| - 1]), ws[|ws| - 1])
  }

  lemma {:induction false} OutputStamp(prefix: string, ws: seq<string>)
    ensures Output(prefix, ws) == Stamp(prefix, Flat(ws), Marks(ws))
  {
    if ws != [] {
      var n := |ws| - 1;
      var before, p, needs := ws[..n], ws[n], NeedsAll(ws[..n]);
      OutputStamp(prefix, before);
      PiecesStamp(prefix, needs, p);
      StampConcat(prefix, Flat(before), Marks(before), p, Starts(needs, p));
    }
  }

  predicate EndsLine(s: string) {
    s == [] || s[|s| - 1] == CR || s[|s| - 1] == LF
  }

  lemma {:induction false} NeedsAllIs(ws: seq<string>)
    ensures NeedsAll(ws) == EndsLine(Flat(ws))
  {
    if ws != [] {
      NeedsAllIs(ws[..|ws| - 1]);
    }
  }

  /** A write that begins with the line feed of a carriage return already written. */
  predicate Splits(a: string, b: string) {
    a != [] && b != [] && a[|a| - 1] == CR && b[0] == LF
  }

  function CountSplits(ws: seq<string>): nat {
    if ws == [] then 0
    else CountSplits(ws[..|ws| - 1]) + if Splits(Flat(ws[..|ws| - 1]), ws[|ws| - 1]) then 1 else 0
  }

  function Count(m: seq<bool>): nat {
    if m == [] then 0 else Count(m[..|m| - 1]) + if m[|m| - 1] then 1 else 0
  }

  lemma {:induction false} CountConcat(a: seq<bool>, b: seq<bool>)
    ensures Count(a + b) == Count(a) + Count(b)
    decreases |b|
  {
    if b == [] {
      assert a + b == a;
    } else {
      assert (a + b)[..|a + b| - 1] == a + b[..|b| - 1];
      CountConcat(a, b[..|b| - 1]);
    }
  }

  /** One more write: its marks are the line starts of the whole, but for the front of a split pair. */
  lemma {:induction false} LineStartsConcat(a: string, b: string)
    ensures LineStarts(a + b) == LineStarts(a) + Starts(EndsLine(a) && !Splits(a, b), b)
  {
  }

  lemma {:induction false} StartsCount(b: string)
    requires b != []
    ensures Count(Starts(true, b)) == Count(Starts(false, b)) + 1
  {
    var t, f := Starts(true, b), Starts(false, b);
    assert t == [true] + t[1..] && f == [false] + t[1..];
    CountConcat([true], t[1..]);
    CountConcat([false], t[1..]);
    assert Count([true]) == 1 && Count([false]) == 0 by {
      assert [true][..0] == [] && [false][..0] == [];
    }
  }

  lemma {:induction false} MarksCount(ws: seq<string>)
    ensures Count(Marks(ws)) == Count(LineStarts(Flat(ws))) + CountSplits(ws)
    ensures CountSplits(ws) == 0 ==> Marks(ws) == LineStarts(Flat(ws))
  {
    hide Starts, Count, EndsLine;
    if ws == [] {
      assert LineStarts([]) == Marks([]) == [];
    } else {
      var n := |ws| - 1;
      var a, b := Flat(ws[..n]), ws[n];
      MarksCount(ws[..n]);
      NeedsAllIs(ws[..n]);
      LineStartsConcat(a, b);
      CountConcat(Marks(ws[..n]), Starts(EndsLine(a), b));
      CountConcat(LineStarts(a), Starts(EndsLine(a) && !Splits(a, b), b));
      if Splits(a, b) {
        SplitEnds(a, b);
        StartsCount(b);
      }
    }
  }

  lemma {:induction false} SplitEnds(a: string, b: string)
    requires Splits(a, b)
    ensures EndsLine(a)
  {
  }

  lemma {:induction false} StampLength(prefix: string, s: string, m: seq<bool>)
    requires |m| == |s|
    ensures |Stamp(prefix, s, m)| == |s| + |prefix| * Count(m)
    decreases |s|
  {
    if s != [] {
      StampLength(prefix, s[1..], m[1..]);
      assert m == [m[0]] + m[1..];
      CountConcat([m[0]], m[1..]);
      assert [m[0]][..0] == [];
      assert Count([m[0]]) == if m[0] then 1 else 0;
      var c := Count(m[1..]);
      assert |prefix| * (c + 1) == |prefix| * c + |prefix|;
    }
  }

  /** The splitting into writes shows exactly where it cuts a carriage return from its line feed: each such cut
      costs one prefix too many, and without one the output is the input with one prefix before each line. */
  lemma {:induction false} ChunkingShowsExactly(prefix: string, ws: seq<string>)
    requires prefix != []
    ensures |Output(prefix, ws)| == |Prefixed(prefix, Flat(ws))| + |prefix| * CountSplits(ws)
    ensures Output(prefix, ws) == Prefixed(prefix, Flat(ws)) <==> CountSplits(ws) == 0
  {
    hide Stamp, Marks, LineStarts, Count, CountSplits;
    var s := Flat(ws);
    OutputStamp(prefix, ws);
    MarksCount(ws);
    StampLength(prefix, s, Marks(ws));
    StampLength(prefix, s, LineStarts(s));
    Spread(|prefix|, Count(LineStarts(s)), CountSplits(ws));
  }

  lemma {:induction false} Spread(a: nat, c: nat, n: nat)
    requires a > 0
    ensures a * (c + n) == a * c + a * n && (n > 0 ==> a * n > 0)
  {
  }

  // ---- Back to the input ----

  /** Takes the prefixes off again, from nothing but the output. */
  function Strip(prefix: string, needs: bool, out: string): string
    decreases |out|
  {
    var o := if needs && prefix <= out then out[|prefix|..] else out;
    if o == [] then []
    else [o[0]] + Strip(prefix, o[0] == LF || (o[0] == CR && !(|o| > 1 && o[1] == LF)), o[1..])
  }

  /** Marked where a line starts, not marked inside a line, and either between a carriage return and its line feed. */
  predicate Lawful(s: string, m: seq<bool>)
    requires |m| == |s|
  {
    forall i :: 0 < i < |s| ==> (StartsLine(s, i) ==> m[i]) && (m[i] ==> s[i - 1] == CR || s[i - 1] == LF)
  }

  lemma {:induction false} StripStamp(prefix: string, s: string, m: seq<bool>)
    requires prefix != [] && prefix[0] != LF && |m| == |s| && s != [] && Lawful(s, m)
    ensures Strip(prefix, m[0], Stamp(prefix, s, m)) == s
    decreases |s|
  {
    hide Stamp, Strip;
    StampUnfold(prefix, s, m);
    var c, more := s[0], if |s| > 1 then Stamp(prefix, s[1..], m[1..]) else [];
    StripUnfold(prefix, m[0], c, more);
    if |s| > 1 {
      LawfulTail(s, m);
      StripStamp(prefix, s[1..], m[1..]);
      StampUnfold(prefix, s[1..], m[1..]);
      assert more[0] == if m[1] then prefix[0] else s[1];
      assert StartsLine(s, 1) ==> m[1];
      assert (c == LF || (c == CR && !(more != [] && more[0] == LF))) == m[1];
    } else {
      StripNothing(prefix, c == LF || c == CR);
    }
    assert [c] + s[1..] == s;
  }

  lemma {:induction false} StampUnfold(prefix: string, s: string, m: seq<bool>)
    requires |m| == |s| && s != []
    ensures Stamp(prefix, s, m) ==
            (if m[0] then prefix else []) + ([s[0]] + if |s| > 1 then Stamp(prefix, s[1..], m[1..]) else [])
  {
    var lead, tail := if m[0] then prefix else [], Stamp(prefix, s[1..], m[1..]);
    assert lead + [s[0]] + tail == lead + ([s[0]] + tail);
    assert |s| == 1 ==> s[1..] == [] && tail == [];
  }

  lemma {:induction false} StripUnfold(prefix: string, needs: bool, c: char, more: string)
    ensures Strip(prefix, needs, (if needs then prefix else []) + ([c] + more)) ==
            [c] + Strip(prefix, c == LF || (c == CR && !(more != [] && more[0] == LF)), more)
  {
    var o := [c] + more;
    assert (if needs then prefix else []) + o == if needs then prefix + o else o;
    assert (prefix + o)[|prefix|..] == o && o[1..] == more;
  }

  lemma {:induction false} LawfulTail(s: string, m: seq<bool>)
    requires |m| == |s| > 1 && Lawful(s, m)
    ensures Lawful(s[1..], m[1..])
  {
    forall i | 0 < i < |s| - 1
      ensures (StartsLine(s[1..], i) ==> m[1..][i]) && (m[1..][i] ==> s[1..][i - 1] == CR || s[1..][i - 1] == LF)
    {
      assert StartsLine(s[1..], i) == StartsLine(s, i + 1);
    }
  }

  lemma {:induction false} LawfulConcat(a: string, m: seq<bool>, b: string, needs: bool)
    requires |m| == |a| && Lawful(a, m) && needs == EndsLine(a)
    ensures Lawful(a + b, m + Starts(needs, b))
  {
    var s, n := a + b, m + Starts(needs, b);
    forall i | 0 < i < |s| ensures (StartsLine(s, i) ==> n[i]) && (n[i] ==> s[i - 1] == CR || s[i - 1] == LF) {
      if i < |a| {
        assert StartsLine(s, i) == StartsLine(a, i);
      } else if i > |a| {
        assert StartsLine(s, i) == StartsLine(b, i - |a|);
      }
    }
  }

  lemma {:induction false} MarksLawful(ws: seq<string>)
    ensures Lawful(Flat(ws), Marks(ws)) && (Flat(ws) != [] ==> Marks(ws)[0])
  {
    hide Lawful;
    if ws == [] {
      EmptyLawful();
    } else {
      var n := |ws| - 1;
      MarksLawful(ws[..n]);
      NeedsAllIs(ws[..n]);
      LawfulConcat(Flat(ws[..n]), Marks(ws[..n]), ws[n], NeedsAll(ws[..n]));
    }
  }

  lemma {:induction false} EmptyLawful()
    ensures Lawful([], [])
  {
  }

  /** Whatever the writes, cut wherever: taking the prefixes off the output gives the input back. */
  lemma {:induction false} StrippingRecovers(prefix: string, ws: seq<string>)
    requires prefix != [] && prefix[0] != LF
    ensures Strip(prefix, true, Output(prefix, ws)) == Flat(ws)
  {
    hide Strip, Lawful, Marks;
    OutputStamp(prefix, ws);
    MarksLawful(ws);
    if Flat(ws) == [] {
      StripNothing(prefix, true);
    } else {
      StripStamp(prefix, Flat(ws), Marks(ws));
    }
  }

  lemma {:induction false} StripNothing(prefix: string, needs: bool)
    requires prefix != []
    ensures Strip(prefix, needs, []) == []
  {
  }
}
