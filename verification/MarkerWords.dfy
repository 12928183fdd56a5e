/** The markers and what a splice writes between them, spelled out: where in a text the first of them stands is told
    by the text in front of it and behind it, instead of by a search and by positions, and the lines between them
    one by one. */
module MarkerWords {
  import opened Options
  import opened Markers

  ghost predicate Occurs(text: string, pat: string) {
    exists a: string, b: string :: text == a + pat + b
  }

  /** The first place where pat occurs in a + pat + b is behind a. */
  ghost predicate FirstBehind(a: string, pat: string, b: string) {
    forall c: string, d: string :: c + pat + d == a + pat + b ==> |a| <= |c|
  }

  lemma {:induction false} Parts(t: string, pat: string, i: nat)
    ensures OccursAt(t, pat, i) ==> t[..i] + pat + t[i + |pat|..] == t
  {
  }

  lemma {:induction false} FoundBehind(a: string, pat: string, b: string)
    requires FirstBehind(a, pat, b)
    ensures Find(a + pat + b, pat) == Some(|a|)
  {
    hide Find;
    var t := a + pat + b;
    assert OccursAt(t, pat, |a|);
    forall i: nat | i < |a| ensures !OccursAt(t, pat, i) {
      Parts(t, pat, i);
    }
    FoundAt(t, pat, |a|);
  }

  lemma {:induction false} OccursExactly(text: string, pat: string)
    ensures Find(text, pat).Some? <==> Occurs(text, pat)
  {
    hide Find;
    var r := Find(text, pat);
    if r.Some? {
      Parts(text, pat, r.value);
    }
    if Occurs(text, pat) {
      var a: string, b: string :| text == a + pat + b;
      assert OccursAt(text, pat, |a|);
    }
  }

  /** Every line on a line of its own. */
  function OnTheirOwn(lines: seq<string>): string {
    if lines == [] then "" else OnTheirOwn(lines[..|lines| - 1]) + "\n" + lines[|lines| - 1]
  }

  lemma {:induction false} UnderIsOwn(lines: seq<string>, last: string)
    ensures Under(lines, last) == OnTheirOwn(lines) + "\n" + last
    decreases |lines|
  {
    if lines != [] {
      var n := |lines| - 1;
      UnderMore(lines[..n], lines[n], last);
      UnderIsOwn(lines[..n], lines[n] + "\n" + last);
      assert lines[..n] + [lines[n]] == lines;
      assert OnTheirOwn(lines[..n]) + "\n" + (lines[n] + "\n" + last)
          == OnTheirOwn(lines[..n]) + "\n" + lines[n] + "\n" + last;
    }
  }

  lemma {:induction false} UnderMore(lines: seq<string>, line: string, last: string)
    ensures Under(lines + [line], last) == Under(lines, line + "\n" + last)
    decreases |lines|
  {
    if lines == [] {
      assert [line][1..] == [];
      assert Under([line], last) == "\n" + line + ("\n" + last) == "\n" + (line + "\n" + last);
    } else {
      assert (lines + [line])[1..] == lines[1..] + [line];
      UnderMore(lines[1..], line, last);
    }
  }

  function Opener(region: string): string {
    "# >>> workshop-lock: " + region + " >>>"
  }

  function Closer(region: string): string {
    "# <<< workshop-lock: " + region + " <<<"
  }

  /** From the first opening marker on, up to the first closing one behind it, a splice replaces what lies between by
      the lines, each on a line of its own, and leaves the rest as it is. */
  lemma {:induction false} SpliceInWords(a: string, region: string, between: string, b: string, lines: seq<string>)
    requires FirstBehind(a, Opener(region), between + Closer(region) + b)
    requires FirstBehind(between, Closer(region), b)
    ensures Splice(a + Opener(region) + (between + Closer(region) + b), region, lines) ==
            Text(a + Opener(region) + OnTheirOwn(lines) + "\n" + Closer(region) + b)
  {
    hide Find, FirstBehind, Under, OnTheirOwn;
    var open, close, rest := Opener(region), Closer(region), between + Closer(region) + b;
    var t := a + open + rest;
    FoundBehind(a, open, rest);
    FoundBehind(between, close, b);
    OccursExactly(t, close);
    assert t == (a + open + between) + close + b;
    assert t[|a| + |open|..] == rest && t[..|a|] == a && rest[|between| + |close|..] == b;
    UnderIsOwn(lines, close);
    assert a + (open + (OnTheirOwn(lines) + "\n" + close)) + b == a + open + OnTheirOwn(lines) + "\n" + close + b;
  }

  /** It stops exactly where one of the markers is not there, and raises exactly where both are but no closing one lies
      behind the first opening one. */
  lemma {:induction false} SpliceFails(text: string, region: string, lines: seq<string>)
    ensures Splice(text, region, lines).Missing? <==>
            !Occurs(text, Opener(region)) || !Occurs(text, Closer(region))
    ensures Splice(text, region, lines).Crash? <==>
            && Occurs(text, Opener(region)) && Occurs(text, Closer(region))
            && forall a: string, b: string ::
                 text == a + Opener(region) + b && FirstBehind(a, Opener(region), b) ==> !Occurs(b, Closer(region))
  {
    hide Find, FirstBehind, Occurs, Body;
    OccursExactly(text, Opener(region));
    OccursExactly(text, Closer(region));
    var open := Opener(region);
    var r := Find(text, open);
    if r.Some? {
      var a, b := text[..r.value], text[r.value + |open|..];
      assert text == a + open + b;
      FirstFound(a, open, b);
      OccursExactly(b, Closer(region));
      forall a': string, b': string | text == a' + open + b' && FirstBehind(a', open, b') ensures a' == a && b' == b {
        FoundBehind(a', open, b');
        assert text[..|a'|] == a' && text[|a'| + |open|..] == b';
      }
    }
  }

  lemma {:induction false} FirstFound(a: string, pat: string, b: string)
    requires Find(a + pat + b, pat) == Some(|a|)
    ensures FirstBehind(a, pat, b)
  {
    hide Find;
    forall c: string, d: string | c + pat + d == a + pat + b ensures |a| <= |c| {
      assert OccursAt(c + pat + d, pat, |c|);
    }
  }
}
