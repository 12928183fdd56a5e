/** Prefixed lines, spelled out. */
module PrefixWords {
  import opened PrefixedWriter
  import opened PrefixLaws

  /** No line break in it. */
  predicate OneLine(s: string) {
    '\n' !in s && '\r' !in s
  }

  /** One of the three line breaks; a lone carriage return is one where no line feed follows it. */
  predicate IsBreak(br: string, rest: string) {
    br == "\n" || br == "\r\n" || (br == "\r" && (rest == "" || rest[0] != '\n'))
  }

  lemma {:induction false} IndexIs(a: string, c: char, b: string)
    requires c !in a
    ensures IndexOf(a + [c] + b, c) == |a| && IndexOf(a, c) == -1
  {
    var s := a + [c] + b;
    assert s[|a|] == c && forall j :: 0 <= j < |a| ==> s[j] == a[j];
  }

  lemma {:induction false} LengthIs(line: string, br: string, rest: string)
    requires OneLine(line) && IsBreak(br, rest)
    ensures LineLength(line + br + rest) == |line| + |br|
  {
    hide IndexOf;
    var p := line + br + rest;
    if br == "\n" {
      IndexIs(line, '\n', rest);
      NotBefore(line, rest, '\n', '\r');
    } else if br == "\r\n" {
      assert p == line + ['\r'] + ("\n" + rest) && p == (line + ['\r']) + ['\n'] + rest;
      IndexIs(line, '\r', "\n" + rest);
      IndexIs(line + ['\r'], '\n', rest);
    } else {
      IndexIs(line, '\r', rest);
      NotBefore(line, rest, '\r', '\n');
      if rest != "" {
        assert p[|line| + 1] == rest[0];
      }
    }
  }

  lemma {:induction false} NotBefore(line: string, rest: string, c: char, d: char)
    requires d !in line && c != d
    ensures IndexOf(line + [c] + rest, d) == -1 || IndexOf(line + [c] + rest, d) > |line|
  {
    hide IndexOf;
    var p, i := line + [c] + rest, IndexOf(line + [c] + rest, d);
    assert forall j :: 0 <= j < |line| ==> p[j] == line[j];
    assert p[|line|] == c;
  }

  lemma {:induction false} AllFromPieces(prefix: string, p: string)
    ensures Prefixed(prefix, p) == Flat(Pieces(prefix, true, p))
  {
    hide Pieces, Stamp, Flat;
    PiecesStamp(prefix, true, p);
    assert LineStarts(p) == Starts(true, p);
  }

  /** A line goes out with its break, in one piece, behind the prefix where the last write did not leave off inside it,
      and what follows its break starts a line. */
  lemma {:induction false} LineInWords(prefix: string, needs: bool, line: string, br: string, rest: string)
    requires OneLine(line) && IsBreak(br, rest)
    ensures Pieces(prefix, needs, line + br + rest) ==
            [(if needs then prefix else "") + line + br] + Pieces(prefix, true, rest)
    ensures NeedsAfter(needs, line + br + rest) == NeedsAfter(true, rest)
    ensures Prefixed(prefix, line + br + rest) == prefix + line + br + Prefixed(prefix, rest)
  {
    hide LineLength, Prefixed, Flat;
    var p := line + br + rest;
    LengthIs(line, br, rest);
    assert p[..|line| + |br|] == line + br && p[|line| + |br|..] == rest;
    var lead := if needs then prefix else "";
    assert lead + (line + br) == lead + line + br && prefix + (line + br) == prefix + line + br;
    AllFromPieces(prefix, p);
    AllFromPieces(prefix, rest);
    FlatFront(prefix + line + br, Pieces(prefix, true, rest));
  }

  /** What has no break goes out in one piece and leaves the line open; nothing leaves everything as it is. */
  lemma {:induction false} RestInWords(prefix: string, needs: bool, line: string)
    requires OneLine(line)
    ensures line != "" ==> Pieces(prefix, needs, line) == [(if needs then prefix else "") + line]
    ensures line != "" ==> !NeedsAfter(needs, line) && Prefixed(prefix, line) == prefix + line
    ensures Pieces(prefix, needs, "") == [] && NeedsAfter(needs, "") == needs && Prefixed(prefix, "") == ""
  {
    hide Prefixed, Pieces, Flat, HasBreak, IndexOf;
    NothingLeft(prefix, needs);
    NothingLeft(prefix, true);
    NoPieces();
    AllFromPieces(prefix, "");
    AllFromPieces(prefix, line);
    if line != "" {
      Unbroken(line);
      NoBreak(prefix, needs, line);
      NoBreak(prefix, true, line);
      OnePiece(prefix + line);
    }
  }

  lemma {:induction false} NoPieces()
    ensures Flat([]) == ""
  {
  }

  lemma {:induction false} OnePiece(s: string)
    ensures Flat([s]) == s
  {
    assert [s][..0] == [];
    assert Flat([s]) == Flat([]) + s;
  }

  lemma {:induction false} Unbroken(line: string)
    requires OneLine(line)
    ensures !HasBreak(line)
  {
    hide IndexOf;
  }
}
