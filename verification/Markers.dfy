/** Generated regions between markers in a text: splicing one in, splicing all of them in, and what rendering
    again does. */
module Markers {
  import opened Options

  predicate OccursAt(text: string, pat: string, i: nat) {
    i + |pat| <= |text| && text[i..i + |pat|] == pat
  }

  /** The first place where pat occurs. */
  function Find(text: string, pat: string): (r: Option<nat>)
    ensures r.Some? ==> OccursAt(text, pat, r.value) && forall i: nat :: i < r.value ==> !OccursAt(text, pat, i)
    ensures r.None? ==> forall i: nat :: !OccursAt(text, pat, i)
  {
    FindFrom(text, pat, 0)
  }

  function FindFrom(text: string, pat: string, k: nat): (r: Option<nat>)
    requires forall i: nat :: i < k ==> !OccursAt(text, pat, i)
    ensures r.Some? ==> OccursAt(text, pat, r.value) && forall i: nat :: i < r.value ==> !OccursAt(text, pat, i)
    ensures r.None? ==> forall i: nat :: !OccursAt(text, pat, i)
    decreases |text| - k
  {
    if k + |pat| > |text| then None
    else if OccursAt(text, pat, k) then Some(k)
    else FindFrom(text, pat, k + 1)
  }

  function Opening(region: string): string {
    "# >>> workshop-lock: " + region + " >>>"
  }

  function Closing(region: string): string {
    "# <<< workshop-lock: " + region + " <<<"
  }

  /** "\n".join(lines + [last]) after a line break: every line and the last, each behind a break. */
  function Under(lines: seq<string>, last: string): string {
    if lines == [] then "\n" + last else "\n" + lines[0] + Under(lines[1..], last)
  }

  function Body(region: string, lines: seq<string>): string {
    Opening(region) + Under(lines, Closing(region))
  }

  // ---- splice ----

  /** Where a region lies: from its opening marker to behind the first closing marker after it. */
  datatype Span = Span(from: nat, to: nat)

  function SpanOf(text: string, region: string): (r: Option<Span>)
    ensures r.Some? ==> r.value.from + |Opening(region)| + |Closing(region)| <= r.value.to <= |text|
  {
    match Find(text, Opening(region))
    case None => None
    case Some(i) =>
      var inside := i + |Opening(region)|;
      match Find(text[inside..], Closing(region))
      case None => None
      case Some(j) => Some(Span(i, inside + j + |Closing(region)|))
  }

  /** The text with a region's lines replaced. */
  function Put(text: string, region: string, lines: seq<string>): string
    requires SpanOf(text, region).Some?
  {
    var s := SpanOf(text, region).value;
    text[..s.from] + Body(region, lines) + text[s.to..]
  }

  /** Missing: it stops and says that the markers are missing. Crash: both are there, but the closing one only
      before the opening one, and it raises. */
  datatype Spliced = Missing | Crash | Text(text: string)

  function Splice(text: string, region: string, lines: seq<string>): Spliced {
    if Find(text, Opening(region)).None? || Find(text, Closing(region)).None? then Missing
    else
      var i := Find(text, Opening(region)).value;
      var rest := text[i + |Opening(region)|..];
      if Find(rest, Closing(region)).None? then Crash
      else Text(text[..i] + Body(region, lines) + rest[Find(rest, Closing(region)).value + |Closing(region)|..])
  }

  /** Splicing succeeds exactly where the region has a span, and replaces that span. */
  lemma {:induction false} SpliceIsPut(text: string, region: string, lines: seq<string>)
    ensures SpanOf(text, region).Some? <==> Splice(text, region, lines).Text?
    ensures SpanOf(text, region).Some? ==> Splice(text, region, lines) == Text(Put(text, region, lines))
  {
    hide Find, Opening, Closing, Body;
    if Find(text, Opening(region)).Some? {
      var inside := Find(text, Opening(region)).value + |Opening(region)|;
      var j := Find(text[inside..], Closing(region));
      if j.Some? {
        OccursInside(text, Closing(region), inside, j.value);
        assert text[inside..][j.value + |Closing(region)|..] == text[inside + j.value + |Closing(region)|..];
      }
    }
  }

  lemma {:induction false} OccursInside(text: string, pat: string, k: nat, i: nat)
    requires k <= |text|
    ensures OccursAt(text[k..], pat, i) <==> OccursAt(text, pat, k + i)
  {
  }

  // ---- rendered ----

  /** A region and the lines generated for it. */
  datatype Part = Part(region: string, lines: seq<string>)

  function Splices(text: string, plan: seq<Part>): Spliced {
    if plan == [] then Text(text)
    else
      match Splices(text, plan[..|plan| - 1])
      case Missing => Missing
      case Crash => Crash
      case Text(t) => Splice(t, plan[|plan| - 1].region, plan[|plan| - 1].lines)
  }

  lemma {:induction false} SplicesStop(text: string, plan: seq<Part>, i: nat)
    requires i <= |plan| && !Splices(text, plan[..i]).Text?
    ensures Splices(text, plan) == Splices(text, plan[..i])
    decreases |plan|
  {
    if i == |plan| {
      assert plan[..i] == plan;
    } else {
      assert plan[..|plan| - 1][..i] == plan[..i];
      SplicesStop(text, plan[..|plan| - 1], i);
    }
  }

  method Rendered(text: string, plan: seq<Part>) returns (r: Spliced)
    ensures r == Splices(text, plan)
  {
    hide Splice;
    r := Text(text);
    for i := 0 to |plan|
      invariant r.Text? && r == Splices(text, plan[..i])
    {
      assert plan[..i + 1][..i] == plan[..i];
      r := Splice(r.text, plan[i].region, plan[i].lines);
      if !r.Text? {
        SplicesStop(text, plan, i + 1);
        return;
      }
    }
    assert plan[..|plan|] == plan;
  }

  // ---- Searching across line breaks ----

  predicate OneLine(pat: string) {
    pat != [] && '\n' !in pat
  }

  lemma {:induction false} FoundAt(text: string, pat: string, i: nat)
    requires OccursAt(text, pat, i) && forall j: nat :: j < i ==> !OccursAt(text, pat, j)
    ensures Find(text, pat) == Some(i)
  {
  }

  /** A pattern without a break lies in front of a break or behind it. */
  lemma {:induction false} AcrossBreak(x: string, y: string, pat: string, i: nat)
    requires OneLine(pat)
    ensures OccursAt(x + "\n" + y, pat, i) <==> OccursAt(x, pat, i) || (i > |x| && OccursAt(y, pat, i - |x| - 1))
  {
    var s := x + "\n" + y;
    if i + |pat| <= |x| {
      assert s[i..i + |pat|] == x[i..i + |pat|];
    } else if i > |x| {
      if i + |pat| <= |s| {
        assert s[i..i + |pat|] == y[i - |x| - 1..i - |x| - 1 + |pat|];
      }
    } else {
      BreakOutside(s, |x|, pat, i);
    }
  }

  lemma {:induction false} BreakOutside(s: string, k: nat, pat: string, i: nat)
    requires OneLine(pat) && k < |s| && s[k] == '\n' && i <= k < i + |pat|
    ensures !OccursAt(s, pat, i)
  {
  }

  lemma {:induction false} FindAcross(x: string, y: string, pat: string)
    requires OneLine(pat) && Find(x, pat).None?
    ensures Find(x + "\n" + y, pat) ==
            match Find(y, pat) case None => None case Some(i) => Some(|x| + 1 + i)
  {
    hide Find, OccursAt;
    forall i: nat ensures OccursAt(x + "\n" + y, pat, i) <==> i > |x| && OccursAt(y, pat, i - |x| - 1) {
      AcrossBreak(x, y, pat, i);
    }
    var r := Find(y, pat);
    if r.Some? {
      FoundAt(x + "\n" + y, pat, |x| + 1 + r.value);
    }
  }

  /** No line holds the pattern. */
  predicate Free(lines: seq<string>, pat: string) {
    forall i :: 0 <= i < |lines| ==> Find(lines[i], pat).None?
  }

  /** The length of all lines, each with its break. */
  function Height(lines: seq<string>): nat {
    if lines == [] then 0 else 1 + |lines[0]| + Height(lines[1..])
  }

  lemma {:induction false} UnderSplits(lines: seq<string>, last: string, more: string)
    ensures Under(lines, last) + more == Under(lines, last + more)
    ensures |Under(lines, last)| == Height(lines) + 1 + |last|
    ensures |Under(lines, last)| > Height(lines) && Under(lines, last)[Height(lines) + 1..] == last
    decreases |lines|
  {
    if lines != [] {
      UnderSplits(lines[1..], last, more);
    }
  }

  /** Behind lines that do not hold it, a pattern is found where the last line has it. */
  lemma {:induction false} FindUnder(x: string, lines: seq<string>, last: string, pat: string)
    requires OneLine(pat) && Find(x, pat).None? && Free(lines, pat)
    ensures Find(x + Under(lines, last), pat) ==
            match Find(last, pat) case None => None case Some(i) => Some(|x| + Height(lines) + 1 + i)
    decreases |lines|
  {
    hide Find;
    if lines == [] {
      assert x + ("\n" + last) == x + "\n" + last;
      FindAcross(x, last, pat);
    } else {
      assert Find(lines[0], pat).None?;
      assert forall i :: 0 <= i < |lines| - 1 ==> lines[1..][i] == lines[i + 1];
      FindUnder(lines[0], lines[1..], last, pat);
      var y := lines[0] + Under(lines[1..], last);
      assert x + Under(lines, last) == x + "\n" + y;
      FindAcross(x, y, pat);
    }
  }
}
