/** Rendering laws: splicing a region twice keeps the last lines, splices of disjoint regions commute, and so
    what a rendering leaves does not depend on what the regions held before. A text is taken apart at a region
    into its head, which ends with the opening marker, and its tail, which begins with the closing one. Both
    survive a splice, so the markers are found again where they were, or as far along as the text has grown. */
module MarkerLaws {
  import opened Options
  import opened Markers

  function Head(text: string, region: string): string
    requires SpanOf(text, region).Some?
  {
    text[..SpanOf(text, region).value.from + |Opening(region)|]
  }

  function Tail(text: string, region: string): string
    requires SpanOf(text, region).Some?
  {
    text[SpanOf(text, region).value.to - |Closing(region)|..]
  }

  /** A region's name has no line break. */
  predicate Named(region: string) {
    '\n' !in region
  }

  lemma {:induction false} MarkersAreLines(region: string)
    requires Named(region)
    ensures OneLine(Opening(region)) && OneLine(Closing(region))
  {
  }

  // ---- Finding in the front and in the rest ----

  lemma {:induction false} FrontOccurs(s: string, k: nat, pat: string, i: nat)
    requires i + |pat| <= k <= |s|
    ensures OccursAt(s[..k], pat, i) <==> OccursAt(s, pat, i)
  {
    assert s[..k][i..i + |pat|] == s[i..i + |pat|];
  }

  lemma {:induction false} SameFront(s: string, t: string, k: nat, pat: string, i: nat)
    requires Find(s, pat) == Some(i) && i + |pat| <= k <= |s| && k <= |t| && s[..k] == t[..k]
    ensures Find(t, pat) == Some(i)
  {
    hide Find, OccursAt;
    forall j: nat | j <= i ensures OccursAt(t, pat, j) <==> OccursAt(s, pat, j) {
      FrontOccurs(s, k, pat, j);
      FrontOccurs(t, k, pat, j);
    }
    FoundAt(t, pat, i);
  }

  lemma {:induction false} FindInRest(s: string, k: nat, pat: string, i: nat)
    requires Find(s, pat) == Some(i) && k <= i
    ensures Find(s[k..], pat) == Some(i - k)
  {
    hide Find, OccursAt;
    InBounds(s, pat, i);
    OccursInside(s, pat, k, i - k);
    forall j: nat | j < i - k ensures !OccursAt(s[k..], pat, j) {
      OccursInside(s, pat, k, j);
    }
    FoundAt(s[k..], pat, i - k);
  }

  lemma {:induction false} InBounds(s: string, pat: string, i: nat)
    requires OccursAt(s, pat, i)
    ensures i <= |s|
  {
  }

  lemma {:induction false} NowhereIsNone(s: string, pat: string)
    requires forall j: nat :: !OccursAt(s, pat, j)
    ensures Find(s, pat).None?
  {
    hide Find;
  }

  lemma {:induction false} NotInFront(s: string, k: nat, pat: string, i: nat)
    requires Find(s, pat) == Some(i) && k <= |s| && k < i + |pat|
    ensures Find(s[..k], pat).None?
  {
    hide Find;
    forall j: nat ensures !OccursAt(s[..k], pat, j) {
      if j + |pat| <= k {
        FrontOccurs(s, k, pat, j);
      }
    }
    NowhereIsNone(s[..k], pat);
  }

  // ---- The parts of a spliced text ----

  lemma {:induction false} SpanFound(text: string, region: string)
    requires SpanOf(text, region).Some?
    ensures var s, o, c := SpanOf(text, region).value, Opening(region), Closing(region);
            && Find(text, o) == Some(s.from) && OccursAt(text, o, s.from) && OccursAt(text, c, s.to - |c|)
            && Find(text[s.from + |o|..], c) == Some(s.to - |c| - s.from - |o|)
  {
    hide Find, Opening, Closing, OccursAt;
    var s, o, c := SpanOf(text, region).value, Opening(region), Closing(region);
    OccursInside(text, c, s.from + |o|, s.to - |c| - s.from - |o|);
  }

  lemma {:induction false} Around(text: string, region: string)
    requires SpanOf(text, region).Some?
    ensures var s, o, c := SpanOf(text, region).value, Opening(region), Closing(region);
            && Find(text, o) == Some(s.from)
            && Head(text, region) == text[..s.from] + o && Tail(text, region) == c + text[s.to..]
            && Find(text[s.from + |o|..], c) == Some(s.to - |c| - s.from - |o|)
  {
    hide Find, Opening, Closing, SpanOf;
    var s, o, c := SpanOf(text, region).value, Opening(region), Closing(region);
    SpanFound(text, region);
    assert text[..s.from + |o|] == text[..s.from] + text[s.from..s.from + |o|];
    assert text[s.to - |c|..] == text[s.to - |c|..s.to] + text[s.to..];
  }

  lemma {:induction false} PutShape(text: string, region: string, lines: seq<string>)
    requires SpanOf(text, region).Some?
    ensures Put(text, region, lines) == Head(text, region) + Under(lines, Tail(text, region))
  {
    hide SpanOf, Opening, Closing, Head, Tail;
    var s, c := SpanOf(text, region).value, Closing(region);
    Around(text, region);
    UnderSplits(lines, c, text[s.to..]);
    var u, o, b, v := text[..s.from], Opening(region), Under(lines, c), text[s.to..];
    assert u + (o + b) + v == u + o + (b + v);
  }

  lemma {:induction false} TailStarts(c: string, v: string)
    ensures Find(c + v, c) == Some(0)
  {
    assert (c + v)[0..0 + |c|] == c;
    FoundAt(c + v, c, 0);
  }

  lemma {:induction false} NotInNothing(pat: string)
    requires pat != []
    ensures Find([], pat).None?
  {
  }

  /** The region lies where it lay, as high as its lines. */
  lemma {:induction false} SpanAfterPut(text: string, region: string, lines: seq<string>)
    requires SpanOf(text, region).Some? && Named(region) && Free(lines, Closing(region))
    ensures SpanOf(Put(text, region, lines), region) ==
            Some(Span(SpanOf(text, region).value.from, |Head(text, region)| + Height(lines) + 1 + |Closing(region)|))
  {
    hide Opening, Closing, Find, Under, Put, Free, Head, Tail;
    var o, c, h, l := Opening(region), Closing(region), Head(text, region), Tail(text, region);
    var t, from := Put(text, region, lines), SpanOf(text, region).value.from;
    Around(text, region);
    HeadIs(text, region);
    PutShape(text, region, lines);
    MarkersAreLines(region);
    assert t[..|h|] == h;
    SameFront(text, t, |h|, o, from);
    assert t[|h|..] == [] + Under(lines, l);
    NotInNothing(c);
    FindUnder([], lines, l, c);
    TailStarts(c, text[SpanOf(text, region).value.to..]);
  }

  lemma {:induction false} HeadIs(text: string, region: string)
    requires SpanOf(text, region).Some?
    ensures var k := SpanOf(text, region).value.from + |Opening(region)|;
            |Head(text, region)| == k <= |text| && text[..k] == Head(text, region)
  {
  }

  lemma {:induction false} Ends(t: string, region: string, h: string, u: string, k: nat)
    requires SpanOf(t, region).Some? && t == h + u && k <= |u|
    requires |h| == SpanOf(t, region).value.from + |Opening(region)|
    requires |h| + k == SpanOf(t, region).value.to - |Closing(region)|
    ensures Head(t, region) == h && Tail(t, region) == u[k..]
  {
    hide SpanOf, Opening, Closing;
  }

  /** A splice leaves what lies before and behind the region as it is. */
  lemma {:induction false} AroundIsKept(text: string, region: string, lines: seq<string>)
    requires SpanOf(text, region).Some? && Named(region) && Free(lines, Closing(region))
    ensures SpanOf(Put(text, region, lines), region).Some?
    ensures Head(Put(text, region, lines), region) == Head(text, region)
    ensures Tail(Put(text, region, lines), region) == Tail(text, region)
  {
    hide Opening, Closing, SpanOf, Under, Put, Free, Head, Tail, Height;
    var h, l := Head(text, region), Tail(text, region);
    SpanAfterPut(text, region, lines);
    HeadIs(text, region);
    PutShape(text, region, lines);
    UnderSplits(lines, l, []);
    Ends(Put(text, region, lines), region, h, Under(lines, l), Height(lines) + 1);
  }

  /** Spliced twice, the last lines stay. */
  lemma {:induction false} Overwrite(text: string, region: string, x: seq<string>, y: seq<string>)
    requires SpanOf(text, region).Some? && Named(region) && Free(x, Closing(region))
    ensures SpanOf(Put(text, region, x), region).Some?
    ensures Put(Put(text, region, x), region, y) == Put(text, region, y)
  {
    hide SpanOf, Put, Head, Tail, Under, Free;
    AroundIsKept(text, region, x);
    PutShape(text, region, y);
    PutShape(Put(text, region, x), region, y);
  }

  // ---- Other regions ----

  /** How much longer a splice makes the text. */
  function Growth(text: string, region: string, lines: seq<string>): int
    requires SpanOf(text, region).Some?
  {
    |Put(text, region, lines)| - |text|
  }

  predicate Before(text: string, a: string, b: string) {
    SpanOf(text, a).Some? && SpanOf(text, b).Some? && SpanOf(text, a).value.to <= SpanOf(text, b).value.from
  }

  lemma {:induction false} Sizes(text: string, region: string, lines: seq<string>)
    requires SpanOf(text, region).Some?
    ensures var s := SpanOf(text, region).value;
            Growth(text, region, lines) == |Head(text, region)| + Height(lines) + 1 + |Closing(region)| - s.to
  {
    hide Opening, Closing, Find, Under, Put;
    PutShape(text, region, lines);
    UnderSplits(lines, Tail(text, region), []);
  }

  /** A splice leaves the regions in front of it where they are. */
  lemma {:induction false} KeepEarlier(text: string, a: string, b: string, y: seq<string>)
    requires Before(text, a, b)
    ensures SpanOf(Put(text, b, y), a) == SpanOf(text, a)
  {
    hide Opening, Closing, Find, Body;
    var t, s, k := Put(text, b, y), SpanOf(text, a).value, SpanOf(text, b).value.from;
    var o, c := Opening(a), Closing(a);
    Around(text, a);
    assert t[..k] == text[..k];
    SameFront(text, t, k, o, s.from);
    var inside := s.from + |o|;
    assert t[inside..][..k - inside] == t[..k][inside..] == text[..k][inside..] == text[inside..][..k - inside];
    SameFront(text[inside..], t[inside..], k - inside, c, s.to - |c| - inside);
  }

  /** Behind the spliced region nothing changes but the place. */
  lemma {:induction false} SameRest(text: string, a: string, x: seq<string>, k: nat)
    requires SpanOf(text, a).Some? && SpanOf(text, a).value.to <= k <= |text|
    ensures 0 <= k + Growth(text, a, x) <= |Put(text, a, x)|
    ensures Put(text, a, x)[k + Growth(text, a, x)..] == text[k..]
  {
    hide SpanOf, Body;
    var t, d, to := Put(text, a, x), Growth(text, a, x), SpanOf(text, a).value.to;
    assert t[to + d..] == text[to..];
    assert t[k + d..] == t[to + d..][k - to..] == text[to..][k - to..] == text[k..];
  }

  /** A splice moves the regions behind it by what it grows. */
  lemma {:induction false} ShiftLater(text: string, a: string, x: seq<string>, b: string)
    requires Before(text, a, b) && Named(a) && Named(b) && Free(x, Opening(b))
    ensures var s, d := SpanOf(text, b).value, Growth(text, a, x);
            s.from + d >= 0 && SpanOf(Put(text, a, x), b) == Some(Span(s.from + d, s.to + d))
  {
    hide Opening, Closing, Find, Put, Free, Under, Growth;
    var t, sa, sb, d := Put(text, a, x), SpanOf(text, a).value, SpanOf(text, b).value, Growth(text, a, x);
    var o, c := Opening(b), Closing(b);
    OpeningMoves(text, a, x, b);
    Around(text, b);
    Sizes(text, a, x);
    var inside := sb.from + |o|;
    SameRest(text, a, x, inside);
  }

  lemma {:induction false} OpeningMoves(text: string, a: string, x: seq<string>, b: string)
    requires Before(text, a, b) && Named(a) && Named(b) && Free(x, Opening(b))
    ensures SpanOf(text, b).value.from + Growth(text, a, x) >= 0
    ensures Find(Put(text, a, x), Opening(b)) == Some(SpanOf(text, b).value.from + Growth(text, a, x))
  {
    hide Opening, Closing, Find, Put, Free, Under;
    var sa, sb := SpanOf(text, a).value, SpanOf(text, b).value;
    var o, h, l := Opening(b), Head(text, a), Tail(text, a);
    MarkersAreLines(b);
    Around(text, b);
    NotInFront(text, |h|, o, sb.from);
    FindInRest(text, sa.to - |Closing(a)|, o, sb.from);
    FindUnder(h, x, l, o);
    PutShape(text, a, x);
    Sizes(text, a, x);
  }

  /** Splices of regions that lie apart commute. */
  lemma {:induction false} CommuteInOrder(text: string, a: string, x: seq<string>, b: string, y: seq<string>)
    requires Before(text, a, b) && Named(a) && Named(b) && Free(x, Opening(b))
    ensures SpanOf(Put(text, a, x), b).Some? && SpanOf(Put(text, b, y), a).Some?
    ensures Put(Put(text, a, x), b, y) == Put(Put(text, b, y), a, x)
  {
    hide SpanOf, Put, Growth;
    KeepEarlier(text, a, b, y);
    ShiftLater(text, a, x, b);
    FirstThenSecond(text, a, x, b, y);
    SecondThenFirst(text, a, x, b, y);
  }

  /** A text with both of two regions replaced, in the order they lie. */
  function Both(text: string, a: string, x: seq<string>, b: string, y: seq<string>): string
    requires Before(text, a, b)
  {
    var sa, sb := SpanOf(text, a).value, SpanOf(text, b).value;
    text[..sa.from] + Body(a, x) + text[sa.to..sb.from] + Body(b, y) + text[sb.to..]
  }

  lemma {:induction false} FirstThenSecond(text: string, a: string, x: seq<string>, b: string, y: seq<string>)
    requires Before(text, a, b) && SpanOf(Put(text, a, x), b).Some?
    requires var s, d := SpanOf(text, b).value, Growth(text, a, x);
             SpanOf(Put(text, a, x), b).value.from == s.from + d && SpanOf(Put(text, a, x), b).value.to == s.to + d
    ensures Put(Put(text, a, x), b, y) == Both(text, a, x, b, y)
  {
    hide SpanOf, Body;
    var sa, sb, d, t := SpanOf(text, a).value, SpanOf(text, b).value, Growth(text, a, x), Put(text, a, x);
    SpanInText(text, b);
    SameRest(text, a, x, sb.to);
    assert text[sa.to..] == text[sa.to..sb.from] + text[sb.from..];
    assert t[..sb.from + d] == text[..sa.from] + Body(a, x) + text[sa.to..sb.from];
  }

  lemma {:induction false} SecondThenFirst(text: string, a: string, x: seq<string>, b: string, y: seq<string>)
    requires Before(text, a, b) && SpanOf(Put(text, b, y), a) == SpanOf(text, a)
    ensures Put(Put(text, b, y), a, x) == Both(text, a, x, b, y)
  {
    hide SpanOf, Body;
    var sa, sb, t := SpanOf(text, a).value, SpanOf(text, b).value, Put(text, b, y);
    SpanInText(text, a);
    var m, q, v := text[sa.to..sb.from], Body(b, y), text[sb.to..];
    assert t[..sa.from] == text[..sa.from];
    assert t[sa.to..] == m + q + v;
    assert text[..sa.from] + Body(a, x) + (m + q + v) == text[..sa.from] + Body(a, x) + m + q + v;
  }

  lemma {:induction false} SpanInText(text: string, region: string)
    requires SpanOf(text, region).Some?
    ensures SpanOf(text, region).value.from <= SpanOf(text, region).value.to <= |text|
  {
  }
}
