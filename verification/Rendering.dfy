/** Rendering every generated region of a file, and rendering it again. */
module Rendering {
  import opened Options
  import opened Markers
  import opened MarkerLaws

  /** Every region is there, and no two overlap. */
  predicate Ready(text: string, regions: set<string>) {
    && (forall r :: r in regions ==> SpanOf(text, r).Some? && Named(r))
    && forall r, q :: r in regions && q in regions && r != q ==> Before(text, r, q) || Before(text, q, r)
  }

  /** One more region is fine exactly where it is there, its name has no line break, and it lies apart from each of the
      others. */
  lemma {:induction false} OneMoreRegion(text: string, regions: set<string>, r: string)
    requires r !in regions
    ensures Ready(text, {})
    ensures Ready(text, regions + {r}) <==>
            && Ready(text, regions) && SpanOf(text, r).Some? && Named(r)
            && forall q :: q in regions ==> Before(text, r, q) || Before(text, q, r)
  {
    hide SpanOf, Before, Named;
  }

  /** Lines with no marker in them. */
  predicate Clean(lines: seq<string>, regions: set<string>) {
    forall r :: r in regions ==> Free(lines, Opening(r)) && Free(lines, Closing(r))
  }

  predicate CleanPlan(plan: seq<Part>, regions: set<string>) {
    forall i :: 0 <= i < |plan| ==> plan[i].region in regions && Clean(plan[i].lines, regions)
  }

  function Regions(plan: seq<Part>): (rs: set<string>)
    ensures forall r :: r in rs <==> exists i :: 0 <= i < |plan| && plan[i].region == r
  {
    set i | 0 <= i < |plan| :: plan[i].region
  }

  lemma {:induction false} SpanMoved(text: string, regions: set<string>, a: string, x: seq<string>, r: string)
    requires Ready(text, regions) && a in regions && r in regions && Clean(x, regions)
    ensures var s, d := SpanOf(text, r).value, Growth(text, a, x);
            && (r == a || !Before(text, r, a) ==> s.to + d >= 0) && (r != a && !Before(text, r, a) ==> s.from + d >= 0)
            && SpanOf(Put(text, a, x), r) ==
               Some(if r == a then Span(s.from, s.to + d)
                    else if Before(text, r, a) then s
                    else Span(s.from + d, s.to + d))
  {
    hide SpanOf, Put, Free, Growth, Head;
    if r == a {
      SpanAfterPut(text, a, x);
      Sizes(text, a, x);
    } else if Before(text, r, a) {
      KeepEarlier(text, r, a, x);
    } else {
      ShiftLater(text, a, x, r);
    }
  }

  lemma {:induction false} GrowthBound(text: string, a: string, x: seq<string>)
    requires SpanOf(text, a).Some?
    ensures SpanOf(text, a).value.from <= SpanOf(text, a).value.to + Growth(text, a, x)
  {
  }

  /** A splice leaves every region there, and apart from the others. */
  lemma {:induction false} PutReady(text: string, regions: set<string>, a: string, x: seq<string>)
    requires Ready(text, regions) && a in regions && Clean(x, regions)
    ensures Ready(Put(text, a, x), regions)
  {
    hide SpanOf, Put, Clean, Growth;
    GrowthBound(text, a, x);
    var t := Put(text, a, x);
    forall r | r in regions ensures SpanOf(t, r).Some? {
      SpanMoved(text, regions, a, x, r);
    }
    forall r, q | r in regions && q in regions && r != q ensures Before(t, r, q) || Before(t, q, r) {
      SpanMoved(text, regions, a, x, r);
      SpanMoved(text, regions, a, x, q);
      SpanInText(text, r);
      SpanInText(text, q);
      SpanInText(text, a);
    }
  }

  lemma {:induction false} Commute(text: string, regions: set<string>, a: string, x: seq<string>, b: string,
         y: seq<string>)
    requires Ready(text, regions) && a in regions && b in regions && a != b && Clean(x, regions) && Clean(y, regions)
    ensures SpanOf(Put(text, a, x), b).Some? && SpanOf(Put(text, b, y), a).Some?
    ensures Put(Put(text, a, x), b, y) == Put(Put(text, b, y), a, x)
  {
    hide SpanOf, Put, Free;
    if Before(text, a, b) {
      CommuteInOrder(text, a, x, b, y);
    } else {
      CommuteInOrder(text, b, y, a, x);
    }
  }

  /** A rendering of regions that are there and apart succeeds, and leaves them so. */
  lemma {:induction false} RenderSucceeds(text: string, plan: seq<Part>, regions: set<string>)
    requires Ready(text, regions) && CleanPlan(plan, regions)
    ensures Splices(text, plan).Text? && Ready(Splices(text, plan).text, regions)
    decreases |plan|
  {
    hide Ready, Clean, Splice;
    if plan != [] {
      var n := |plan| - 1;
      RenderSucceeds(text, plan[..n], regions);
      OnePart(Splices(text, plan[..n]).text, regions, plan[n]);
    }
  }

  lemma {:induction false} OnePart(text: string, regions: set<string>, part: Part)
    requires Ready(text, regions) && part.region in regions && Clean(part.lines, regions)
    ensures SpanOf(text, part.region).Some?
    ensures Splice(text, part.region, part.lines) == Text(Put(text, part.region, part.lines))
    ensures Ready(Put(text, part.region, part.lines), regions)
  {
    hide SpanOf, Splice, Put, Clean;
    SpliceIsPut(text, part.region, part.lines);
    PutReady(text, regions, part.region, part.lines);
  }

  /** A splice may be put off until after a rendering that does not touch its region. */
  lemma {:induction false} PutOff(text: string, regions: set<string>, a: string, x: seq<string>, plan: seq<Part>)
    requires Ready(text, regions) && CleanPlan(plan, regions) && a in regions && Clean(x, regions)
    requires forall i :: 0 <= i < |plan| ==> plan[i].region != a
    ensures Splices(text, plan).Text? && SpanOf(Splices(text, plan).text, a).Some? && SpanOf(text, a).Some?
    ensures Splices(Put(text, a, x), plan) == Text(Put(Splices(text, plan).text, a, x))
    decreases |plan|
  {
    hide Ready, Clean, Splice, Put, SpanOf;
    RenderSucceeds(text, plan, regions);
    OnePart(text, regions, Part(a, x));
    if plan != [] {
      var n := |plan| - 1;
      var b := plan[n];
      PutOff(text, regions, a, x, plan[..n]);
      RenderSucceeds(text, plan[..n], regions);
      var u := Splices(text, plan[..n]).text;
      OnePart(u, regions, Part(a, x));
      OnePart(u, regions, b);
      OnePart(Put(u, a, x), regions, b);
      OnePart(Put(u, b.region, b.lines), regions, Part(a, x));
      Commute(u, regions, a, x, b.region, b.lines);
    } else {
      OnePart(text, regions, Part(a, x));
    }
  }

  /** What a region held before does not matter to a rendering that covers it. */
  lemma {:induction false} Covered(text: string, regions: set<string>, a: string, x: seq<string>, plan: seq<Part>)
    requires Ready(text, regions) && CleanPlan(plan, regions) && Clean(x, regions) && a in Regions(plan)
    ensures SpanOf(text, a).Some? && Splices(Put(text, a, x), plan) == Splices(text, plan)
    decreases |plan|
  {
    hide Ready, Clean, Splice, Put, SpanOf, Regions;
    assert a in regions;
    OnePart(text, regions, Part(a, x));
    var n := |plan| - 1;
    var b := plan[n];
    if a in Regions(plan[..n]) {
      Covered(text, regions, a, x, plan[..n]);
    } else {
      assert b.region == a;
      forall i | 0 <= i < n ensures plan[..n][i].region != a {
      }
      PutOff(text, regions, a, x, plan[..n]);
      RenderSucceeds(text, plan[..n], regions);
      var u := Splices(text, plan[..n]).text;
      OnePart(u, regions, Part(a, x));
      OnePart(Put(u, a, x), regions, b);
      OnePart(u, regions, b);
      LastStays(u, regions, a, x, b.lines);
    }
  }

  lemma {:induction false} LastStays(text: string, regions: set<string>, a: string, x: seq<string>, y: seq<string>)
    requires Ready(text, regions) && a in regions && Clean(x, regions)
    ensures SpanOf(text, a).Some? && SpanOf(Put(text, a, x), a).Some?
    ensures Put(Put(text, a, x), a, y) == Put(text, a, y)
  {
    hide SpanOf, Put;
    Overwrite(text, a, x, y);
  }

  /** Rendering forgets: after any rendering, a rendering of at least the same regions gives what it would have
      given at once. */
  lemma {:induction false} RenderForgets(text: string, regions: set<string>, p: seq<Part>, q: seq<Part>)
    requires Ready(text, regions) && CleanPlan(p, regions) && CleanPlan(q, regions) && Regions(p) <= Regions(q)
    ensures Splices(text, p).Text? && Splices(Splices(text, p).text, q) == Splices(text, q)
    decreases |p|
  {
    hide Ready, Clean, Splice, Put, Regions;
    RenderSucceeds(text, p, regions);
    if p != [] {
      var n := |p| - 1;
      assert forall i :: 0 <= i < n ==> p[..n][i].region in Regions(p);
      RenderForgets(text, regions, p[..n], q);
      RenderSucceeds(text, p[..n], regions);
      var u := Splices(text, p[..n]).text;
      assert p[n].region in Regions(p);
      OnePart(u, regions, p[n]);
      Covered(u, regions, p[n].region, p[n].lines, q);
    }
  }

  /** Rendering is a fixpoint: rendering what was rendered changes nothing, so the check passes after it. */
  lemma {:induction false} RenderIsFixpoint(text: string, plan: seq<Part>)
    requires Ready(text, Regions(plan)) && forall i :: 0 <= i < |plan| ==> Clean(plan[i].lines, Regions(plan))
    ensures Splices(text, plan).Text?
    ensures Splices(Splices(text, plan).text, plan) == Splices(text, plan)
  {
    hide Ready, Clean, Splices, Regions;
    assert forall i :: 0 <= i < |plan| ==> plan[i].region in Regions(plan);
    RenderForgets(text, Regions(plan), plan, plan);
  }

  function Emptied(plan: seq<Part>): (e: seq<Part>)
    ensures |e| == |plan| && forall i :: 0 <= i < |plan| ==> e[i] == Part(plan[i].region, [])
  {
    seq(|plan|, i requires 0 <= i < |plan| => Part(plan[i].region, []))
  }

  /** Outside the regions nothing changes: with the regions emptied, the text before and the text after are
      the same. */
  lemma {:induction false} OutsideIsKept(text: string, plan: seq<Part>)
    requires Ready(text, Regions(plan)) && forall i :: 0 <= i < |plan| ==> Clean(plan[i].lines, Regions(plan))
    ensures Splices(text, plan).Text? && Splices(text, Emptied(plan)).Text?
    ensures Splices(Splices(text, plan).text, Emptied(plan)) == Splices(text, Emptied(plan))
  {
    hide Ready, Splices, Regions;
    var rs, e := Regions(plan), Emptied(plan);
    assert forall i :: 0 <= i < |plan| ==> plan[i].region in rs;
    forall r | r in Regions(plan) ensures r in Regions(e) {
      var i :| 0 <= i < |plan| && plan[i].region == r;
      assert e[i].region == r;
    }
    RenderForgets(text, rs, plan, e);
    RenderSucceeds(text, e, rs);
  }

  /** The region holds exactly the lines. */
  predicate Holds(text: string, region: string, lines: seq<string>) {
    SpanOf(text, region).Some? && Put(text, region, lines) == text
  }

  predicate DistinctRegions(plan: seq<Part>) {
    forall i, j :: 0 <= i < j < |plan| ==> plan[i].region != plan[j].region
  }

  /** Afterwards every region holds what was generated for it. */
  lemma {:induction false} EveryRegionHolds(text: string, plan: seq<Part>, regions: set<string>, i: nat)
    requires Ready(text, regions) && CleanPlan(plan, regions) && DistinctRegions(plan) && i < |plan|
    ensures Splices(text, plan).Text? && Holds(Splices(text, plan).text, plan[i].region, plan[i].lines)
    decreases |plan|
  {
    hide Ready, Clean, Splice, Put, SpanOf;
    var n := |plan| - 1;
    var b := plan[n];
    RenderSucceeds(text, plan, regions);
    RenderSucceeds(text, plan[..n], regions);
    var u := Splices(text, plan[..n]).text;
    OnePart(u, regions, b);
    if i == n {
      LastStays(u, regions, b.region, b.lines, b.lines);
    } else {
      var a := plan[i];
      EveryRegionHolds(text, plan[..n], regions, i);
      OnePart(u, regions, a);
      Commute(u, regions, a.region, a.lines, b.region, b.lines);
    }
  }
}
