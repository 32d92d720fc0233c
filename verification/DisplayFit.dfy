/**
 * Where a window goes when the displays are no longer those its stored rectangle was made for (displayFit.ts).
 * Coordinates are integers, as Electron's display geometry is; on them the rounding of a clamp is the identity.
 */
module DisplayFit {
  import opened Prelude

  const EDGE_SLACK_PX: int := 48

  datatype Rect = Rect(x: int, y: int, width: int, height: int)
  datatype DisplayArea = DisplayArea(bounds: Rect, workArea: Rect)
  datatype ClampTarget = ToBounds | ToWorkArea
  datatype Pixel = Pixel(x: int, y: int)

  function IntersectArea(a: Rect, b: Rect): int {
    var w := Min(a.x + a.width, b.x + b.width) - Max(a.x, b.x);
    var h := Min(a.y + a.height, b.y + b.height) - Max(a.y, b.y);
    if w > 0 && h > 0 then w * h else 0
  }

  /** Square pixels of `rect` held by the displays, one display after the other. */
  function Covered(rect: Rect, displays: seq<DisplayArea>): int {
    if displays == [] then 0
    else Covered(rect, displays[..|displays| - 1]) + IntersectArea(rect, displays[|displays| - 1].bounds)
  }

  /** The first display holding the largest piece, or None when none holds any. */
  function Best(rect: Rect, displays: seq<DisplayArea>): Option<DisplayArea> {
    if displays == [] then None
    else
      var before := Best(rect, displays[..|displays| - 1]);
      var last := displays[|displays| - 1];
      if IntersectArea(rect, last.bounds) > BestArea(rect, before) then Some(last) else before
  }

  function BestArea(rect: Rect, best: Option<DisplayArea>): int {
    if best.Some? then IntersectArea(rect, best.value.bounds) else 0
  }

  /** The one pass the module makes over the displays. */
  method CoverageOf(rect: Rect, displays: seq<DisplayArea>) returns (covered: int, best: Option<DisplayArea>)
    ensures covered == Covered(rect, displays)
    ensures best == Best(rect, displays)
  {
    covered, best := 0, None;
    var bestArea := 0;
    for i := 0 to |displays|
      invariant covered == Covered(rect, displays[..i])
      invariant best == Best(rect, displays[..i]) && bestArea == BestArea(rect, best)
    {
      assert displays[..i + 1][..i] == displays[..i];
      var area := IntersectArea(rect, displays[i].bounds);
      covered := covered + area;
      if area > bestArea {
        bestArea := area;
        best := Some(displays[i]);
      }
    }
    assert displays[..|displays|] == displays;
  }

  function OverhangPast(rect: Rect, area: Rect): int {
    Max(Max(0, area.x - rect.x),
        Max(rect.x + rect.width - (area.x + area.width), rect.y + rect.height - (area.y + area.height)))
  }

  predicate ParkedOverEdge(rect: Rect, area: Rect, slackPx: int) {
    rect.y >= area.y && OverhangPast(rect, area) <= slackPx
  }

  function ClampInto(rect: Rect, area: Rect): Rect {
    var width := Min(rect.width, area.width);
    var height := Min(rect.height, area.height);
    Rect(
      Max(area.x, Min(rect.x, area.x + area.width - width)),
      Max(area.y, Min(rect.y, area.y + area.height - height)),
      width, height)
  }

  datatype Size = Size(width: int, height: int)

  /** The re-placement of last resort. A half pixel rounds up, and dividing by two floors. */
  function CenterIn(size: Size, area: Rect): (r: Rect)
    ensures area.width >= 0 && area.height >= 0 ==> Inside(r, area)
    ensures r.width <= size.width && r.width <= area.width && (r.width == size.width || r.width == area.width)
    ensures r.height <= size.height && r.height <= area.height && (r.height == size.height || r.height == area.height)
    ensures 0 <= (r.x - area.x) - (area.x + area.width - (r.x + r.width)) <= 1
    ensures 0 <= (r.y - area.y) - (area.y + area.height - (r.y + r.height)) <= 1
  {
    var width := Min(size.width, area.width);
    var height := Min(size.height, area.height);
    Rect(area.x + (area.width - width + 1) / 2, area.y + (area.height - height + 1) / 2, width, height)
  }

  predicate Inside(r: Rect, area: Rect) {
    area.x <= r.x && area.y <= r.y && r.x + r.width <= area.x + area.width && r.y + r.height <= area.y + area.height
  }

  function FitToDisplays(rect: Rect, displays: seq<DisplayArea>, slackPx: int, clampTo: ClampTarget): Option<Rect> {
    if rect.width <= 0 || rect.height <= 0 || displays == [] then None
    else if Covered(rect, displays) >= rect.width * rect.height then Some(rect)
    else
      var best := Best(rect, displays);
      if best.None? then None
      else if ParkedOverEdge(rect, best.value.bounds, slackPx) then Some(rect)
      else Some(ClampInto(rect, if clampTo.ToWorkArea? then best.value.workArea else best.value.bounds))
  }

  // ------------------------------------------------------------------------------- rectangles as pixel sets

  predicate Holds(r: Rect, p: Pixel) {
    r.x <= p.x < r.x + r.width && r.y <= p.y < r.y + r.height
  }

  function Pixels(r: Rect): set<Pixel> {
    set x, y | r.x <= x < r.x + r.width && r.y <= y < r.y + r.height :: Pixel(x, y)
  }

  lemma PixelsHold(r: Rect, p: Pixel)
    ensures p in Pixels(r) <==> Holds(r, p)
  {
    if Holds(r, p) { assert Pixel(p.x, p.y) in Pixels(r); }
  }

  function Meet(a: Rect, b: Rect): Rect {
    var x := Max(a.x, b.x);
    var y := Max(a.y, b.y);
    Rect(x, y, Min(a.x + a.width, b.x + b.width) - x, Min(a.y + a.height, b.y + b.height) - y)
  }

  lemma {:induction false} ColumnCount(x: int, y: int, height: int)
    requires height >= 0
    ensures |Pixels(Rect(x, y, 1, height))| == height
    decreases height
  {
    var column := Pixels(Rect(x, y, 1, height));
    if height == 0 {
      assert column == {};
    } else {
      var shorter := Pixels(Rect(x, y, 1, height - 1));
      ColumnCount(x, y, height - 1);
      assert Pixel(x, y + height - 1) !in shorter;
      assert column == shorter + {Pixel(x, y + height - 1)};
    }
  }

  /** A rectangle is its last column and the rest. */
  lemma SplitColumn(r: Rect)
    requires r.width > 0 && r.height >= 0
    ensures var column := Rect(r.x + r.width - 1, r.y, 1, r.height);
      |Pixels(r)| == |Pixels(r.(width := r.width - 1))| + |Pixels(column)|
  {
    var narrower := r.(width := r.width - 1);
    var column := Rect(r.x + r.width - 1, r.y, 1, r.height);
    forall p ensures p in Pixels(r) <==> p in Pixels(narrower) + Pixels(column) {
      PixelsHold(r, p);
      PixelsHold(narrower, p);
      PixelsHold(column, p);
    }
    forall p | p in Pixels(narrower) ensures p !in Pixels(column) {
      PixelsHold(narrower, p);
      PixelsHold(column, p);
    }
    assert Pixels(r) == Pixels(narrower) + Pixels(column);
    assert Pixels(narrower) !! Pixels(column);
  }

  lemma {:induction false} PixelCount(r: Rect)
    requires r.width >= 0 && r.height >= 0
    ensures |Pixels(r)| == r.width * r.height
    decreases r.width
  {
    if r.width == 0 {
      forall p ensures p !in Pixels(r) { PixelsHold(r, p); }
      assert Pixels(r) == {};
    } else {
      SplitColumn(r);
      ColumnCount(r.x + r.width - 1, r.y, r.height);
      PixelCount(r.(width := r.width - 1));
    }
  }

  /** The intersection area is the number of pixels two rectangles share. */
  lemma IntersectAreaCounts(a: Rect, b: Rect)
    ensures IntersectArea(a, b) == |Pixels(a) * Pixels(b)|
  {
    var m := Meet(a, b);
    forall p ensures p in Pixels(a) * Pixels(b) <==> p in Pixels(m) {
      PixelsHold(a, p);
      PixelsHold(b, p);
      PixelsHold(m, p);
    }
    assert Pixels(a) * Pixels(b) == Pixels(m);
    if m.width > 0 && m.height > 0 {
      PixelCount(m);
    } else {
      forall p ensures p !in Pixels(m) { PixelsHold(m, p); }
      assert Pixels(m) == {};
    }
  }

  predicate OnScreen(displays: seq<DisplayArea>, p: Pixel) {
    exists i :: 0 <= i < |displays| && Holds(displays[i].bounds, p)
  }

  /** Every pixel of the rectangle lies on some display. */
  predicate TrulyCovered(rect: Rect, displays: seq<DisplayArea>) {
    forall p :: p in Pixels(rect) ==> OnScreen(displays, p)
  }

  ghost predicate PairwiseDisjoint(displays: seq<DisplayArea>) {
    forall i, j, p :: 0 <= i < j < |displays| && Holds(displays[i].bounds, p) ==> !Holds(displays[j].bounds, p)
  }

  function OnScreenPixels(rect: Rect, displays: seq<DisplayArea>): set<Pixel> {
    set p | p in Pixels(rect) && OnScreen(displays, p)
  }

  lemma OnScreenFront(displays: seq<DisplayArea>, p: Pixel)
    requires displays != []
    ensures OnScreen(displays, p) <==> OnScreen(displays[..|displays| - 1], p) || Holds(displays[|displays| - 1].bounds, p)
  {
    var front := displays[..|displays| - 1];
    if OnScreen(front, p) {
      var i :| 0 <= i < |front| && Holds(front[i].bounds, p);
      assert Holds(displays[i].bounds, p);
    }
    if OnScreen(displays, p) {
      var i :| 0 <= i < |displays| && Holds(displays[i].bounds, p);
      if i < |front| { assert Holds(front[i].bounds, p); }
    }
  }

  lemma SplitLast(rect: Rect, displays: seq<DisplayArea>)
    requires displays != []
    ensures var front := displays[..|displays| - 1]; var last := displays[|displays| - 1].bounds;
      OnScreenPixels(rect, displays) == OnScreenPixels(rect, front) + Pixels(rect) * Pixels(last)
  {
    var front := displays[..|displays| - 1];
    var last := displays[|displays| - 1].bounds;
    forall p ensures p in OnScreenPixels(rect, displays) <==> p in OnScreenPixels(rect, front) + Pixels(rect) * Pixels(last) {
      OnScreenFront(displays, p);
      PixelsHold(last, p);
    }
  }

  lemma UnionBound<T>(a: set<T>, b: set<T>)
    ensures |a + b| == |a| + |b| - |a * b|
  {
    assert a + b == a + (b - a);
    assert b == (b - a) + (a * b);
  }

  /** Summing never undercounts the covered pixels; on disjoint displays it counts them exactly. */
  lemma {:induction false} CoveredCounts(rect: Rect, displays: seq<DisplayArea>)
    ensures Covered(rect, displays) >= |OnScreenPixels(rect, displays)|
    ensures PairwiseDisjoint(displays) ==> Covered(rect, displays) == |OnScreenPixels(rect, displays)|
    decreases |displays|
  {
    if displays == [] {
      assert OnScreenPixels(rect, displays) == {};
    } else {
      var front := displays[..|displays| - 1];
      var last := displays[|displays| - 1].bounds;
      CoveredCounts(rect, front);
      SplitLast(rect, displays);
      IntersectAreaCounts(rect, last);
      UnionBound(OnScreenPixels(rect, front), Pixels(rect) * Pixels(last));
      if PairwiseDisjoint(displays) {
        FrontDisjoint(displays);
        forall p | p in OnScreenPixels(rect, front) ensures p !in Pixels(last) {
          PixelsHold(last, p);
          var i :| 0 <= i < |front| && Holds(front[i].bounds, p);
          assert Holds(displays[i].bounds, p);
        }
        assert OnScreenPixels(rect, front) * (Pixels(rect) * Pixels(last)) == {};
      }
    }
  }

  lemma FrontDisjoint(displays: seq<DisplayArea>)
    requires displays != [] && PairwiseDisjoint(displays)
    ensures PairwiseDisjoint(displays[..|displays| - 1])
  {
    var front := displays[..|displays| - 1];
    forall i, j, p | 0 <= i < j < |front| && Holds(front[i].bounds, p) ensures !Holds(front[j].bounds, p) {
      assert Holds(displays[i].bounds, p);
    }
  }

  lemma CoveredIffAllPixels(rect: Rect, displays: seq<DisplayArea>)
    requires rect.width > 0 && rect.height > 0
    ensures |OnScreenPixels(rect, displays)| <= rect.width * rect.height
    ensures |OnScreenPixels(rect, displays)| == rect.width * rect.height <==> TrulyCovered(rect, displays)
  {
    PixelCount(rect);
    SubsetCardinality(OnScreenPixels(rect, displays), Pixels(rect));
    if TrulyCovered(rect, displays) {
      assert OnScreenPixels(rect, displays) == Pixels(rect);
    } else {
      var p :| p in Pixels(rect) && !OnScreen(displays, p);
      SubsetCardinality(OnScreenPixels(rect, displays), Pixels(rect) - {p});
    }
  }

  /** The area test: does the sum of the intersections reach the rectangle's own area? */
  predicate AreaTest(rect: Rect, displays: seq<DisplayArea>) {
    Covered(rect, displays) >= rect.width * rect.height
  }

  /** On disjoint displays the area test decides true union coverage of any rectangle of positive size. */
  lemma AreaTestDecidesCoverage(rect: Rect, displays: seq<DisplayArea>)
    requires rect.width > 0 && rect.height > 0 && PairwiseDisjoint(displays)
    ensures AreaTest(rect, displays) <==> TrulyCovered(rect, displays)
  {
    CoveredCounts(rect, displays);
    CoveredIffAllPixels(rect, displays);
  }

  ghost predicate AreaTestIsRight(displays: seq<DisplayArea>) {
    forall rect: Rect :: rect.width > 0 && rect.height > 0 ==> (AreaTest(rect, displays) <==> TrulyCovered(rect, displays))
  }

  /** Some x beyond which nothing is on any display. */
  function RightEnd(displays: seq<DisplayArea>): int {
    if displays == [] then 0
    else Max(RightEnd(displays[..|displays| - 1]), displays[|displays| - 1].bounds.x + displays[|displays| - 1].bounds.width)
  }

  lemma {:induction false} NothingPastTheEnd(displays: seq<DisplayArea>, p: Pixel)
    requires p.x >= RightEnd(displays)
    ensures !OnScreen(displays, p)
    decreases |displays|
  {
    if displays != [] {
      NothingPastTheEnd(displays[..|displays| - 1], p);
      OnScreenFront(displays, p);
    }
  }

  /** The first pixel to the right of `p` that no display holds. */
  lemma {:induction false} FirstGapToTheRight(displays: seq<DisplayArea>, p: Pixel) returns (width: nat)
    requires OnScreen(displays, p)
    ensures width > 0 && !OnScreen(displays, Pixel(p.x + width, p.y))
    ensures forall x :: p.x <= x < p.x + width ==> OnScreen(displays, Pixel(x, p.y))
  {
    width := 1;
    assert Pixel(p.x, p.y) == p;
    while OnScreen(displays, Pixel(p.x + width, p.y))
      invariant width > 0
      invariant forall x :: p.x <= x < p.x + width ==> OnScreen(displays, Pixel(x, p.y))
      decreases RightEnd(displays) - p.x - width
    {
      if p.x + width >= RightEnd(displays) { NothingPastTheEnd(displays, Pixel(p.x + width, p.y)); }
      width := width + 1;
    }
  }

  /** A pixel on two displays is counted twice by any rectangle that holds it. */
  lemma {:induction false} OverlapIsCountedTwice(rect: Rect, displays: seq<DisplayArea>, i: nat, j: nat, p: Pixel)
    requires i < j < |displays| && Holds(displays[i].bounds, p) && Holds(displays[j].bounds, p) && p in Pixels(rect)
    ensures Covered(rect, displays) >= |OnScreenPixels(rect, displays)| + 1
    decreases |displays|
  {
    var front := displays[..|displays| - 1];
    var last := displays[|displays| - 1].bounds;
    SplitLast(rect, displays);
    IntersectAreaCounts(rect, last);
    UnionBound(OnScreenPixels(rect, front), Pixels(rect) * Pixels(last));
    if j == |displays| - 1 {
      CoveredCounts(rect, front);
      assert Holds(front[i].bounds, p);
      PixelsHold(last, p);
      SubsetCardinality({p}, OnScreenPixels(rect, front) * (Pixels(rect) * Pixels(last)));
    } else {
      OverlapIsCountedTwice(rect, front, i, j, p);
    }
  }

  /**
   * Any two displays that share a pixel defeat the area test: the strip from that pixel to the first dark one
   * on its right passes, although its last pixel is on no display.
   */
  lemma OverlapDefeatsTheTest(displays: seq<DisplayArea>, i: nat, j: nat, p: Pixel)
    requires i < j < |displays| && Holds(displays[i].bounds, p) && Holds(displays[j].bounds, p)
    ensures exists rect: Rect :: rect.width > 0 && rect.height > 0 && AreaTest(rect, displays) && !TrulyCovered(rect, displays)
  {
    assert OnScreen(displays, p);
    var width := FirstGapToTheRight(displays, p);
    var strip := Rect(p.x, p.y, width + 1, 1);
    PixelsHold(strip, p);
    OverlapIsCountedTwice(strip, displays, i, j, p);
    StripIsLit(displays, p, width);
    PixelsHold(strip, Pixel(p.x + width, p.y));
    assert AreaTest(strip, displays) && !TrulyCovered(strip, displays);
  }

  lemma StripIsLit(displays: seq<DisplayArea>, p: Pixel, width: nat)
    requires forall x :: p.x <= x < p.x + width ==> OnScreen(displays, Pixel(x, p.y))
    ensures |OnScreenPixels(Rect(p.x, p.y, width + 1, 1), displays)| >= width
  {
    var strip := Rect(p.x, p.y, width + 1, 1);
    var lit := Rect(p.x, p.y, width, 1);
    PixelCount(lit);
    forall q | q in Pixels(lit) ensures q in OnScreenPixels(strip, displays) {
      PixelsHold(lit, q);
      PixelsHold(strip, q);
      assert q == Pixel(q.x, p.y);
    }
    SubsetCardinality(Pixels(lit), OnScreenPixels(strip, displays));
  }

  /** The sum of areas may stand in for union geometry exactly when the displays tile without overlap. */
  lemma AreaTestIsRightIffDisjoint(displays: seq<DisplayArea>)
    ensures AreaTestIsRight(displays) <==> PairwiseDisjoint(displays)
  {
    if PairwiseDisjoint(displays) {
      forall rect: Rect | rect.width > 0 && rect.height > 0 ensures AreaTest(rect, displays) <==> TrulyCovered(rect, displays) {
        AreaTestDecidesCoverage(rect, displays);
      }
    } else {
      var i, j, p :| 0 <= i < j < |displays| && Holds(displays[i].bounds, p) && Holds(displays[j].bounds, p);
      OverlapDefeatsTheTest(displays, i, j, p);
    }
  }

  // --------------------------------------------------------------------------------- what a fit may and must do

  /** The earliest display that holds as much of the rectangle as any does, and holds some of it. */
  predicate FirstLargest(rect: Rect, displays: seq<DisplayArea>, i: nat)
    requires i < |displays|
  {
    && IntersectArea(rect, displays[i].bounds) > 0
    && (forall j :: 0 <= j < |displays| ==> IntersectArea(rect, displays[j].bounds) <= IntersectArea(rect, displays[i].bounds))
    && (forall j :: 0 <= j < i ==> IntersectArea(rect, displays[j].bounds) < IntersectArea(rect, displays[i].bounds))
  }

  predicate Untouched(rect: Rect, displays: seq<DisplayArea>) {
    forall i :: 0 <= i < |displays| ==> IntersectArea(rect, displays[i].bounds) == 0
  }

  lemma AreaIsNeverNegative(a: Rect, b: Rect)
    ensures IntersectArea(a, b) >= 0
  {
    IntersectAreaCounts(a, b);
  }

  lemma {:induction false} BestIsFirstLargest(rect: Rect, displays: seq<DisplayArea>)
    ensures Best(rect, displays).None? <==> Untouched(rect, displays)
    ensures Best(rect, displays).Some? ==>
      exists i: nat :: i < |displays| && FirstLargest(rect, displays, i) && Best(rect, displays).value == displays[i]
    decreases |displays|
  {
    if displays != [] {
      var n := |displays| - 1;
      var front := displays[..n];
      var last := displays[n].bounds;
      BestIsFirstLargest(rect, front);
      AreaIsNeverNegative(rect, last);
      if IntersectArea(rect, last) > BestArea(rect, Best(rect, front)) {
        LastIsLargest(rect, displays);
      } else if Best(rect, front).Some? {
        var i: nat :| i < n && FirstLargest(rect, front, i) && Best(rect, front).value == front[i];
        FirstStaysLargest(rect, displays, i);
      } else {
        assert forall i :: 0 <= i < n ==> front[i] == displays[i];
      }
    }
  }

  lemma {:induction false} BestIsAtLeast(rect: Rect, displays: seq<DisplayArea>, j: nat)
    requires j < |displays|
    ensures IntersectArea(rect, displays[j].bounds) <= BestArea(rect, Best(rect, displays))
    decreases |displays|
  {
    var n := |displays| - 1;
    if j < n { BestIsAtLeast(rect, displays[..n], j); }
  }

  lemma LastIsLargest(rect: Rect, displays: seq<DisplayArea>)
    requires displays != []
    requires IntersectArea(rect, displays[|displays| - 1].bounds) > BestArea(rect, Best(rect, displays[..|displays| - 1]))
    ensures FirstLargest(rect, displays, |displays| - 1)
  {
    var n := |displays| - 1;
    forall j | 0 <= j < n ensures IntersectArea(rect, displays[j].bounds) < IntersectArea(rect, displays[n].bounds) {
      BestIsAtLeast(rect, displays[..n], j);
    }
    var best := Best(rect, displays[..n]);
    if best.Some? { AreaIsNeverNegative(rect, best.value.bounds); }
  }

  lemma FirstStaysLargest(rect: Rect, displays: seq<DisplayArea>, i: nat)
    requires displays != [] && i < |displays| - 1 && FirstLargest(rect, displays[..|displays| - 1], i)
    requires IntersectArea(rect, displays[|displays| - 1].bounds) <= IntersectArea(rect, displays[i].bounds)
    ensures FirstLargest(rect, displays, i)
  {
    var front := displays[..|displays| - 1];
    forall j | 0 <= j < |front| ensures displays[j] == front[j] {}
  }

  lemma {:induction false} CoveredAtLeast(rect: Rect, displays: seq<DisplayArea>, i: nat)
    requires i < |displays|
    ensures Covered(rect, displays) >= IntersectArea(rect, displays[i].bounds)
    decreases |displays|
  {
    var front := displays[..|displays| - 1];
    AreaIsNeverNegative(rect, displays[|displays| - 1].bounds);
    CoveredCounts(rect, front);
    if i < |front| { CoveredAtLeast(rect, front, i); }
  }

  lemma UntouchedIsDark(rect: Rect, displays: seq<DisplayArea>, p: Pixel)
    requires Untouched(rect, displays) && p in Pixels(rect)
    ensures !OnScreen(displays, p)
  {
    forall i | 0 <= i < |displays| ensures !Holds(displays[i].bounds, p) {
      IntersectAreaCounts(rect, displays[i].bounds);
      PixelsHold(displays[i].bounds, p);
      assert p !in Pixels(rect) * Pixels(displays[i].bounds);
    }
  }

  lemma TouchedIsLit(rect: Rect, displays: seq<DisplayArea>, i: nat) returns (p: Pixel)
    requires i < |displays| && IntersectArea(rect, displays[i].bounds) > 0
    ensures p in Pixels(rect) && OnScreen(displays, p)
  {
    IntersectAreaCounts(rect, displays[i].bounds);
    p :| p in Pixels(rect) * Pixels(displays[i].bounds);
    PixelsHold(displays[i].bounds, p);
  }

  lemma UntouchedIsNull(rect: Rect, displays: seq<DisplayArea>, slackPx: int, clampTo: ClampTarget)
    requires rect.width > 0 && rect.height > 0
    ensures FitToDisplays(rect, displays, slackPx, clampTo).None? <==> Untouched(rect, displays)
  {
    BestIsFirstLargest(rect, displays);
    if Untouched(rect, displays) { UntouchedIsUncovered(rect, displays); }
    assert rect.width * rect.height > 0;
  }

  /** A rectangle of positive size is given up exactly when none of its pixels is on any display. */
  lemma NullIffOffScreen(rect: Rect, displays: seq<DisplayArea>, slackPx: int, clampTo: ClampTarget)
    requires rect.width > 0 && rect.height > 0
    ensures FitToDisplays(rect, displays, slackPx, clampTo).None? <==> forall p :: p in Pixels(rect) ==> !OnScreen(displays, p)
  {
    UntouchedIsNull(rect, displays, slackPx, clampTo);
    if Untouched(rect, displays) {
      forall p | p in Pixels(rect) ensures !OnScreen(displays, p) { UntouchedIsDark(rect, displays, p); }
    } else {
      var i :| 0 <= i < |displays| && IntersectArea(rect, displays[i].bounds) != 0;
      AreaIsNeverNegative(rect, displays[i].bounds);
      var p := TouchedIsLit(rect, displays, i);
    }
  }

  lemma {:induction false} UntouchedIsUncovered(rect: Rect, displays: seq<DisplayArea>)
    requires Untouched(rect, displays)
    ensures Covered(rect, displays) == 0
    decreases |displays|
  {
    if displays != [] {
      var front := displays[..|displays| - 1];
      assert forall i :: 0 <= i < |front| ==> front[i] == displays[i];
      UntouchedIsUncovered(rect, front);
    }
  }

  /** The area with the tolerated overhang added on the left, the right and the bottom, but not at the top. */
  function Widened(area: Rect, slackPx: int): Rect {
    Rect(area.x - slackPx, area.y, area.width + 2 * slackPx, area.height + slackPx)
  }

  /** A window counts as parked exactly when it lies inside the widened area; a negative slack tolerates nothing. */
  lemma ParkedIffInsideTheWidenedArea(rect: Rect, area: Rect, slackPx: int)
    ensures ParkedOverEdge(rect, area, slackPx) <==> slackPx >= 0 && Inside(rect, Widened(area, slackPx))
  {
    assert OverhangPast(rect, area) >= 0;
  }

  function Distance(a: int, b: int): int {
    if a < b then b - a else a - b
  }

  /**
   * A clamped rectangle lies inside the area, is the largest the area allows, and on each axis has moved no
   * further than any other placement of that size inside the area would have to.
   */
  lemma ClampIsTheLeastMove(rect: Rect, area: Rect, other: Rect)
    requires area.width >= 0 && area.height >= 0 && Inside(other, area)
    ensures var r := ClampInto(rect, area);
      && Inside(r, area) && r.width <= rect.width && r.height <= rect.height
      && (other.width <= rect.width ==> other.width <= r.width)
      && (other.height <= rect.height ==> other.height <= r.height)
      && (other.width == r.width ==> Distance(rect.x, r.x) <= Distance(rect.x, other.x))
      && (other.height == r.height ==> Distance(rect.y, r.y) <= Distance(rect.y, other.y))
      && (Inside(rect, area) ==> r == rect)
  {
  }

  /** The area of the chosen display that a moved window is clamped into. */
  function ClampArea(best: DisplayArea, clampTo: ClampTarget): Rect {
    if clampTo.ToWorkArea? then best.workArea else best.bounds
  }

  predicate WorkAreasFit(displays: seq<DisplayArea>) {
    forall i :: 0 <= i < |displays| ==>
      displays[i].workArea.width > 0 && displays[i].workArea.height > 0 && Inside(displays[i].workArea, displays[i].bounds)
  }

  /**
   * The whole rule for a rectangle that some display holds a piece of: it stays where it is if the displays hold as
   * many square pixels of it as it has, or if it is inside the first largest display widened by the slack to the
   * sides and the bottom; otherwise it is clamped into that display.
   */
  lemma StaysOrIsClamped(rect: Rect, displays: seq<DisplayArea>, slackPx: int, clampTo: ClampTarget, i: nat)
    requires rect.width > 0 && rect.height > 0 && i < |displays| && FirstLargest(rect, displays, i)
    ensures FitToDisplays(rect, displays, slackPx, clampTo)
      == if AreaTest(rect, displays) || (slackPx >= 0 && Inside(rect, Widened(displays[i].bounds, slackPx))) then Some(rect)
         else Some(ClampInto(rect, if clampTo.ToWorkArea? then displays[i].workArea else displays[i].bounds))
  {
    BestIsFirstLargest(rect, displays);
    var k: nat :| k < |displays| && FirstLargest(rect, displays, k) && Best(rect, displays).value == displays[k];
    assert k == i;
    ParkedIffInsideTheWidenedArea(rect, displays[i].bounds, slackPx);
  }

  /** On displays that share no pixel, a rectangle wholly on them is not moved, whatever the slack and the target. */
  lemma CoveredStays(rect: Rect, displays: seq<DisplayArea>, slackPx: int, clampTo: ClampTarget)
    requires rect.width > 0 && rect.height > 0 && displays != [] && PairwiseDisjoint(displays) && TrulyCovered(rect, displays)
    ensures FitToDisplays(rect, displays, slackPx, clampTo) == Some(rect)
  {
    AreaTestDecidesCoverage(rect, displays);
  }

  /** A changed answer is a non-empty rectangle wholly inside the clamp area of the first largest display. */
  lemma ChangedIsInside(rect: Rect, displays: seq<DisplayArea>, slackPx: int, clampTo: ClampTarget)
    returns (i: nat)
    requires clampTo.ToWorkArea? ==> WorkAreasFit(displays)
    requires FitToDisplays(rect, displays, slackPx, clampTo).Some?
    requires FitToDisplays(rect, displays, slackPx, clampTo).value != rect
    ensures i < |displays| && FirstLargest(rect, displays, i)
    ensures var r := FitToDisplays(rect, displays, slackPx, clampTo).value;
      && r == ClampInto(rect, ClampArea(displays[i], clampTo))
      && Inside(r, ClampArea(displays[i], clampTo)) && Inside(r, displays[i].bounds)
      && r.width > 0 && r.height > 0
  {
    BestIsFirstLargest(rect, displays);
    var k: nat :| k < |displays| && FirstLargest(rect, displays, k) && Best(rect, displays).value == displays[k];
    i := k;
  }

  lemma InsideIsCovered(rect: Rect, displays: seq<DisplayArea>, i: nat)
    requires i < |displays| && Inside(rect, displays[i].bounds) && rect.width > 0 && rect.height > 0
    ensures AreaTest(rect, displays)
  {
    CoveredAtLeast(rect, displays, i);
    assert IntersectArea(rect, displays[i].bounds) == rect.width * rect.height;
  }

  /** Fitting what was already fitted changes nothing, and what is fitted always shows something. */
  lemma FitIsIdempotent(rect: Rect, displays: seq<DisplayArea>, slackPx: int, clampTo: ClampTarget)
    requires clampTo.ToWorkArea? ==> WorkAreasFit(displays)
    requires FitToDisplays(rect, displays, slackPx, clampTo).Some?
    ensures var r := FitToDisplays(rect, displays, slackPx, clampTo).value;
      && FitToDisplays(r, displays, slackPx, clampTo) == Some(r)
      && exists p :: p in Pixels(r) && OnScreen(displays, p)
  {
    var r := FitToDisplays(rect, displays, slackPx, clampTo).value;
    if r != rect {
      var i := ChangedIsInside(rect, displays, slackPx, clampTo);
      InsideIsCovered(r, displays, i);
    }
    NullIffOffScreen(r, displays, slackPx, clampTo);
  }

  /**
   * With a work area that is empty a moved window is crushed to nothing, and the second fit gives it up. So
   * the hypothesis on work areas cannot be dropped.
   */
  lemma EmptyWorkAreaIsNotIdempotent()
    ensures var bounds := Rect(0, 0, 100, 100);
      var displays := [DisplayArea(bounds, Rect(0, 0, 0, 100))];
      var first := FitToDisplays(Rect(60, 0, 100, 100), displays, EDGE_SLACK_PX, ToWorkArea);
      && first == Some(Rect(0, 0, 0, 100))
      && FitToDisplays(first.value, displays, EDGE_SLACK_PX, ToWorkArea).None?
  {
    var bounds := Rect(0, 0, 100, 100);
    var rect := Rect(60, 0, 100, 100);
    var display := DisplayArea(bounds, Rect(0, 0, 0, 100));
    assert [display][..0] == [];
    assert IntersectArea(rect, bounds) == 40 * 100;
    assert Covered(rect, [display]) == Covered(rect, [display][..0]) + IntersectArea(rect, bounds);
    assert Best(rect, [display][..0]) == None;
    assert Best(rect, [display]) == Some(display);
  }
}
