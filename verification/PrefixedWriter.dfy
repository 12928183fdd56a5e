/** The line-prefixing writer: what comes out for what is written in pieces, and how to get the input back. */
module PrefixedWriter {

  const CR := '\r'
  const LF := '\n'

  /** bytes.IndexByte */
  function IndexOf(s: string, c: char): (i: int)
    ensures -1 <= i < |s|
    ensures i >= 0 ==> s[i] == c && forall j :: 0 <= j < i ==> s[j] != c
    ensures i < 0 ==> forall j :: 0 <= j < |s| ==> s[j] != c
  {
    if s == [] then -1 else if s[0] == c then 0
    else
      var i := IndexOf(s[1..], c);
      if i < 0 then -1 else i + 1
  }

  predicate HasBreak(p: string) {
    IndexOf(p, LF) >= 0 || IndexOf(p, CR) >= 0
  }

  /** The length of the first line with its break; of everything where there is none. */
  function LineLength(p: string): (k: nat)
    ensures k <= |p| && (p != [] ==> k > 0)
  {
    var nl, cr := IndexOf(p, LF), IndexOf(p, CR);
    if nl < 0 && cr < 0 then |p|
    else if nl < 0 then cr + 1
    else if cr < 0 then nl + 1
    else if cr < nl then if cr + 1 == nl then cr + 2 else cr + 1
    else nl + 1
  }

  /** What one write hands to the underlying writer, one piece a line. */
  function Pieces(prefix: string, needs: bool, p: string): seq<string>
    decreases |p|
  {
    if p == [] then []
    else
      var k := LineLength(p);
      [(if needs then prefix else []) + p[..k]] + Pieces(prefix, true, p[k..])
  }

  /** Whether the next write starts a line. */
  function NeedsAfter(needs: bool, p: string): bool {
    if p == [] then needs else p[|p| - 1] == CR || p[|p| - 1] == LF
  }

  lemma {:induction false} NoBreak(prefix: string, needs: bool, p: string)
    requires p != [] && !HasBreak(p)
    ensures Pieces(prefix, needs, p) == [(if needs then prefix else []) + p] && !NeedsAfter(needs, p)
  {
    hide IndexOf;
    assert p[..|p|] == p && p[|p|..] == [];
    assert Pieces(prefix, true, p[|p|..]) == [];
  }

  lemma {:induction false} FirstPiece(prefix: string, sink: seq<string>, needs: bool, p: string)
    requires p != []
    ensures var k := LineLength(p);
            sink + Pieces(prefix, needs, p) ==
            sink + [(if needs then prefix else []) + p[..k]] + Pieces(prefix, true, p[k..])
  {
  }

  lemma {:induction false} AfterBreak(needs: bool, p: string)
    requires p != [] && HasBreak(p)
    ensures NeedsAfter(needs, p) == NeedsAfter(true, p[LineLength(p)..])
    ensures p[LineLength(p) - 1] == CR || p[LineLength(p) - 1] == LF
  {
  }

  lemma {:induction false} NothingLeft(prefix: string, needs: bool)
    ensures Pieces(prefix, needs, []) == [] && NeedsAfter(needs, []) == needs
  {
  }

  class Writer {
    const prefix: string
    var sink: seq<string>
    var buffer: string
    var needsPrefix: bool

    predicate Valid()
      reads this
    {
      buffer == []
    }

    constructor (name: string)
      ensures Valid() && sink == [] && needsPrefix && prefix == "[" + name + "] "
    {
      prefix, sink, buffer, needsPrefix := "[" + name + "] ", [], [], true;
    }

    method Write(p: string) returns (n: nat)
      requires Valid()
      modifies this
      ensures Valid() && n == |p|
      ensures sink == old(sink) + Pieces(prefix, old(needsPrefix), p)
      ensures needsPrefix == NeedsAfter(old(needsPrefix), p)
    {
      hide IndexOf, NeedsAfter, Pieces;
      var input := p;
      while |input| > 0
        invariant Valid()
        invariant sink + Pieces(prefix, needsPrefix, input) == old(sink) + Pieces(prefix, old(needsPrefix), p)
        invariant NeedsAfter(needsPrefix, input) == NeedsAfter(old(needsPrefix), p)
        decreases |input|
      {
        ghost var lead := if needsPrefix then prefix else [];
        var nl, cr := IndexOf(input, LF), IndexOf(input, CR);
        if nl == -1 && cr == -1 {
          NoBreak(prefix, needsPrefix, input);
          if needsPrefix {
            buffer := buffer + prefix;
            needsPrefix := false;
          }
          buffer := buffer + input;
          assert buffer == lead + input;
          break;
        }
        var breakIndex, breakLen: nat;
        if nl == -1 {
          breakIndex, breakLen := cr, 1;
        } else if cr == -1 {
          breakIndex, breakLen := nl, 1;
        } else if cr < nl {
          breakIndex := cr;
          breakLen := if cr + 1 == nl then 2 else 1;
        } else {
          breakIndex, breakLen := nl, 1;
        }
        var k := breakIndex + breakLen;
        assert k == LineLength(input) && HasBreak(input);
        AfterBreak(needsPrefix, input);
        FirstPiece(prefix, sink, needsPrefix, input);
        if needsPrefix {
          buffer := buffer + prefix;
        }
        buffer := buffer + input[..k];
        assert buffer == lead + input[..k];
        sink := sink + [buffer];
        buffer := [];
        needsPrefix := true;
        input := input[k..];
      }
      NothingLeft(prefix, needsPrefix);
      if |buffer| > 0 {
        sink := sink + [buffer];
        buffer := [];
      }
      n := |p|;
    }
  }
}
