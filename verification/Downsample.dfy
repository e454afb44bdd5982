/**
  The mini chart of the fight readout: event windows are reduced to at most 200 points, over all
  windows or over the active ones only.
*/
module Downsample {
  import opened RealOrder

  datatype Window = Window(start: int, end: int, damage: int, healing: int)

  datatype Point = Point(x: real, damage: int, healing: int)

  const CHART_MAX_POINTS := 200

  // ----- Totals --------------------------------------------------------------------------------

  function Damage(w: Window): int { w.damage }

  function Healing(w: Window): int { w.healing }

  function Total(ws: seq<Window>, f: Window -> int): int {
    if ws == [] then 0 else f(ws[0]) + Total(ws[1..], f)
  }

  lemma {:induction false} TotalAppend(a: seq<Window>, b: seq<Window>, f: Window -> int)
    ensures Total(a + b, f) == Total(a, f) + Total(b, f)
  {
    if a == [] {
      assert a + b == b;
    } else {
      assert (a + b)[1..] == a[1..] + b;
      TotalAppend(a[1..], b, f);
    }
  }

  function PointDamage(ps: seq<Point>): int {
    if ps == [] then 0 else ps[0].damage + PointDamage(ps[1..])
  }

  function PointHealing(ps: seq<Point>): int {
    if ps == [] then 0 else ps[0].healing + PointHealing(ps[1..])
  }

  lemma PointTotals(p: Point, rest: seq<Point>)
    ensures PointDamage([p] + rest) == p.damage + PointDamage(rest)
    ensures PointHealing([p] + rest) == p.healing + PointHealing(rest)
  {
    assert ([p] + rest)[1..] == rest;
  }

  // ----- The active windows --------------------------------------------------------------------

  predicate IsActive(w: Window) {
    w.damage > 0 || w.healing > 0
  }

  function Active(ws: seq<Window>): seq<Window> {
    if ws == [] then [] else (if IsActive(ws[0]) then [ws[0]] else []) + Active(ws[1..])
  }

  /** What the filter drops is zero in both totals. */
  ghost predicate DropsZeros(ws: seq<Window>) {
    forall i :: 0 <= i < |ws| ==> IsActive(ws[i]) || (ws[i].damage == 0 && ws[i].healing == 0)
  }

  lemma {:induction false} ActiveIsNoLess(ws: seq<Window>)
    ensures Total(Active(ws), Damage) >= Total(ws, Damage)
    ensures Total(Active(ws), Healing) >= Total(ws, Healing)
    ensures Total(Active(ws), Damage) == Total(ws, Damage) && Total(Active(ws), Healing) == Total(ws, Healing)
            <==> DropsZeros(ws)
  {
    if ws == [] {
    } else {
      ActiveIsNoLess(ws[1..]);
      var keeps := IsActive(ws[0]) || (ws[0].damage == 0 && ws[0].healing == 0);
      assert DropsZeros(ws) <==> keeps && DropsZeros(ws[1..]) by {
        assert forall i :: 0 < i < |ws| ==> ws[i] == ws[1..][i - 1];
        assert forall i :: 0 <= i < |ws| - 1 ==> ws[1..][i] == ws[i + 1];
      }
      if IsActive(ws[0]) {
        assert Active(ws)[1..] == Active(ws[1..]);
      } else {
        assert Active(ws) == Active(ws[1..]);
      }
    }
  }

  /** The active windows have the totals of all windows if and only if every dropped window is zero;
      with non-negative totals that is always so. */
  lemma ActivityLosesNothing(ws: seq<Window>)
    ensures Total(Active(ws), Damage) == Total(ws, Damage) && Total(Active(ws), Healing) == Total(ws, Healing)
            <==> DropsZeros(ws)
    ensures (forall i :: 0 <= i < |ws| ==> 0 <= ws[i].damage && 0 <= ws[i].healing) ==> DropsZeros(ws)
  {
    ActiveIsNoLess(ws);
  }

  /** A window that is negative in one total and not positive in the other is dropped and missed. */
  lemma NegativeTotalIsLost(w: Window)
    requires w.damage < 0 && w.healing <= 0
    ensures !DropsZeros([w]) && Total(Active([w]), Damage) != Total([w], Damage)
  {
    assert [w][0].damage != 0 && !IsActive([w][0]);
    assert Active([w]) == [];
    assert Total([w], Damage) == w.damage;
  }

  // ----- Grouping ------------------------------------------------------------------------------

  /** Consecutive groups of `size` windows; only the last may be shorter. */
  function Groups(ws: seq<Window>, size: nat): seq<seq<Window>>
    requires size > 0
    decreases |ws|
  {
    if |ws| <= size then (if ws == [] then [] else [ws])
    else [ws[..size]] + Groups(ws[size..], size)
  }

  function Join(groups: seq<seq<Window>>): seq<Window> {
    if groups == [] then [] else groups[0] + Join(groups[1..])
  }

  lemma {:induction false} GroupsCover(ws: seq<Window>, size: nat)
    requires size > 0
    ensures Join(Groups(ws, size)) == ws
    ensures forall g :: g in Groups(ws, size) ==> 0 < |g| <= size
    ensures forall i :: 0 <= i < |Groups(ws, size)| - 1 ==> |Groups(ws, size)[i]| == size
    decreases |ws|
  {
    if |ws| > size {
      GroupsCover(ws[size..], size);
      assert Groups(ws, size)[1..] == Groups(ws[size..], size);
      assert ws == ws[..size] + ws[size..];
    } else if ws != [] {
      assert Groups(ws, size)[1..] == [];
    }
  }

  lemma {:induction false} GroupsAreFew(ws: seq<Window>, size: nat, most: nat)
    requires size > 0 && |ws| <= most * size
    ensures |Groups(ws, size)| <= most
    decreases most
  {
    if most == 0 {
      assert ws == [];
    } else if |ws| > size {
      assert (most - 1) * size == most * size - size;
      GroupsAreFew(ws[size..], size, most - 1);
    }
  }

  /** `Math.ceil(count / 200)`. */
  function GroupSize(count: nat): (size: nat)
    ensures count <= 200 * size
    ensures count > 0 ==> size > 0 && 200 * (size - 1) < count
  {
    (count + CHART_MAX_POINTS - 1) / CHART_MAX_POINTS
  }

  // ----- Points --------------------------------------------------------------------------------

  /** The end of the last window of the whole fight, never zero; both modes share this scale. */
  function Span(all: seq<Window>): (span: int)
    ensures span != 0
  {
    if all == [] || all[|all| - 1].end == 0 then 1 else all[|all| - 1].end
  }

  function XOf(start: int, span: int): real
    requires span != 0
  {
    start as real / span as real * 100.0
  }

  function PointOf(group: seq<Window>, span: int): Point
    requires group != [] && span != 0
  {
    Point(XOf(group[0].start, span), Total(group, Damage), Total(group, Healing))
  }

  function Chart(ws: seq<Window>, size: nat, span: int): seq<Point>
    requires size > 0 && span != 0
    decreases |ws|
  {
    if ws == [] then []
    else if |ws| <= size then [PointOf(ws, span)]
    else [PointOf(ws[..size], span)] + Chart(ws[size..], size, span)
  }

  lemma {:induction false} ChartFollowsGroups(ws: seq<Window>, size: nat, span: int)
    requires size > 0 && span != 0
    ensures |Chart(ws, size, span)| == |Groups(ws, size)|
    ensures forall i :: 0 <= i < |Groups(ws, size)| ==>
      Groups(ws, size)[i] != [] && Chart(ws, size, span)[i] == PointOf(Groups(ws, size)[i], span)
    decreases |ws|
  {
    if |ws| <= size {
    } else {
      ChartFollowsGroups(ws[size..], size, span);
    }
  }

  lemma {:induction false} ChartKeepsTotals(ws: seq<Window>, size: nat, span: int)
    requires size > 0 && span != 0
    ensures PointDamage(Chart(ws, size, span)) == Total(ws, Damage)
    ensures PointHealing(Chart(ws, size, span)) == Total(ws, Healing)
    decreases |ws|
  {
    if |ws| > size {
      var head, rest := ws[..size], ws[size..];
      ChartKeepsTotals(rest, size, span);
      PointTotals(PointOf(head, span), Chart(rest, size, span));
      assert ws == head + rest;
      TotalAppend(head, rest, Damage);
      TotalAppend(head, rest, Healing);
    } else if ws != [] {
      PointTotals(PointOf(ws, span), []);
      assert Chart(ws, size, span) == [PointOf(ws, span)] + [];
    }
  }

  /** The points still to come when `i` windows have been consumed; `i` may run past the end. */
  function ChartFrom(ws: seq<Window>, i: nat, size: nat, span: int): seq<Point>
    requires size > 0 && span != 0
  {
    if i < |ws| then Chart(ws[i..], size, span) else []
  }

  function GroupAt(ws: seq<Window>, i: nat, size: nat): (group: seq<Window>)
    requires size > 0 && i < |ws|
    ensures group != []
  {
    ws[i..if i + size < |ws| then i + size else |ws|]
  }

  lemma ChartStep(ws: seq<Window>, i: nat, size: nat, span: int)
    requires size > 0 && span != 0 && i < |ws|
    ensures ChartFrom(ws, i, size, span)
      == [PointOf(GroupAt(ws, i, size), span)] + ChartFrom(ws, i + size, size, span)
  {
    var rest := ws[i..];
    if i + size < |ws| {
      assert rest[..size] == ws[i..i + size] && rest[size..] == ws[i + size..];
    } else {
      assert rest == ws[i..|ws|];
    }
  }

  /** Where group `i` starts: `i * size`, added up. */
  function Offset(i: nat, size: nat): nat {
    if i == 0 then 0 else Offset(i - 1, size) + size
  }

  lemma {:induction false} OffsetIsProduct(i: nat, size: nat)
    ensures Offset(i, size) == i * size
  {
    if i > 0 {
      OffsetIsProduct(i - 1, size);
      assert i * size == (i - 1) * size + size;
    }
  }

  lemma {:induction false} PointAt(ws: seq<Window>, size: nat, span: int, i: nat)
    requires size > 0 && span != 0 && i < |Chart(ws, size, span)|
    ensures Offset(i, size) < |ws|
    ensures Chart(ws, size, span)[i] == PointOf(GroupAt(ws, Offset(i, size), size), span)
    decreases |ws|
  {
    ChartStep(ws, 0, size, span);
    assert ws[0..] == ws;
    if i > 0 {
      var rest, from := ws[size..], Offset(i - 1, size);
      assert Chart(ws, size, span)[i] == Chart(rest, size, span)[i - 1];
      PointAt(rest, size, span, i - 1);
      LaterGroup(ws, from, size);
      assert Offset(i, size) == from + size;
    }
  }

  lemma LaterGroup(ws: seq<Window>, from: nat, size: nat)
    requires size > 0 && from + size < |ws|
    ensures GroupAt(ws[size..], from, size) == GroupAt(ws, from + size, size)
  {
  }

  /** Every point in the source's own terms: it stands for `size` consecutive windows, or the rest of them,
      at the share of the span at which the first of them starts. */
  lemma PointIsGroup(ws: seq<Window>, size: nat, span: int, i: nat)
    requires size > 0 && span != 0 && i < |Chart(ws, size, span)|
    ensures i * size < |ws|
    ensures var group := ws[i * size..if i * size + size < |ws| then i * size + size else |ws|];
            var point := Chart(ws, size, span)[i];
            point.x * span as real == ws[i * size].start as real * 100.0 &&
            point.damage == Total(group, Damage) && point.healing == Total(group, Healing)
  {
    PointAt(ws, size, span, i);
    OffsetIsProduct(i, size);
    XIsShare(ws[i * size].start, span);
  }

  lemma OffsetOfOne(i: nat)
    ensures Offset(i, 1) == i
  {
    OffsetIsProduct(i, 1);
  }

  /** Without grouping, point `i` has the damage and the healing of window `i`. */
  lemma SinglePoint(ws: seq<Window>, span: int, i: nat)
    requires span != 0 && i < |Chart(ws, 1, span)|
    ensures i < |ws|
    ensures Chart(ws, 1, span)[i].damage == ws[i].damage && Chart(ws, 1, span)[i].healing == ws[i].healing
  {
    PointAt(ws, 1, span, i);
    OffsetOfOne(i);
    var w := ws[i];
    assert GroupAt(ws, i, 1) == [w];
    assert Total([w], Damage) == w.damage && Total([w], Healing) == w.healing;
  }

  lemma XIsShare(start: int, span: int)
    requires span != 0
    ensures XOf(start, span) * span as real == start as real * 100.0
  {
    var share := start as real / span as real;
    assert share * span as real == start as real;
    assert share * 100.0 * span as real == share * span as real * 100.0;
  }

  // ----- Left to right -------------------------------------------------------------------------

  ghost predicate Ordered(ws: seq<Window>, span: int) {
    && (forall i, j :: 0 <= i < j < |ws| ==> ws[i].start <= ws[j].start)
    && (forall i :: 0 <= i < |ws| ==> 0 <= ws[i].start <= span)
  }

  lemma XGrows(a: int, b: int, span: int)
    requires 0 <= a <= b <= span && span != 0
    ensures 0.0 <= XOf(a, span) <= XOf(b, span) <= 100.0
  {
    var s := span as real;
    RatioInUnit(a as real, s);
    RatioInUnit(b as real, s);
    QuotientOrder(a as real, b as real, s);
  }

  /** In a fight whose windows start in order and within its span, the points run from left to right
      inside the chart. */
  lemma {:induction false} PointsRunLeftToRight(ws: seq<Window>, size: nat, span: int)
    requires size > 0 && span != 0 && Ordered(ws, span)
    ensures forall p :: p in Chart(ws, size, span) ==> XOf(ws[0].start, span) <= p.x && 0.0 <= p.x <= 100.0
    ensures forall i, j :: 0 <= i < j < |Chart(ws, size, span)| ==>
      Chart(ws, size, span)[i].x <= Chart(ws, size, span)[j].x
    decreases |ws|
  {
    if ws == [] {
    } else if |ws| <= size {
      XGrows(ws[0].start, ws[0].start, span);
    } else {
      var rest := Chart(ws[size..], size, span);
      PointsRunLeftToRight(ws[size..], size, span);
      XGrows(ws[0].start, ws[size].start, span);
      assert forall i :: 0 < i < |Chart(ws, size, span)| ==> Chart(ws, size, span)[i] == rest[i - 1];
      assert forall p :: p in rest ==> XOf(ws[0].start, span) <= p.x;
    }
  }

  ghost predicate LeftToRight(points: seq<Point>) {
    && (forall p :: p in points ==> 0.0 <= p.x <= 100.0)
    && (forall i, j :: 0 <= i < j < |points| ==> points[i].x <= points[j].x)
  }

  lemma {:induction false} ActiveIsPart(ws: seq<Window>, w: Window)
    requires w in Active(ws)
    ensures w in ws
  {
    if ws == [] {
    } else if w in Active(ws[1..]) {
      ActiveIsPart(ws[1..], w);
    }
  }

  lemma {:induction false} ActiveKeepsOrder(ws: seq<Window>, span: int)
    requires Ordered(ws, span)
    ensures Ordered(Active(ws), span)
  {
    if ws == [] {
    } else {
      var rest := Active(ws[1..]);
      assert forall i :: 0 <= i < |ws| - 1 ==> ws[1..][i] == ws[i + 1];
      ActiveKeepsOrder(ws[1..], span);
      forall j | 0 <= j < |rest| ensures ws[0].start <= rest[j].start {
        ActiveIsPart(ws[1..], rest[j]);
      }
      OrderedFrom(ws[0], rest, span);
    }
  }

  lemma OrderedFrom(w: Window, rest: seq<Window>, span: int)
    requires Ordered(rest, span) && 0 <= w.start <= span
    requires forall j :: 0 <= j < |rest| ==> w.start <= rest[j].start
    ensures Ordered([w] + rest, span)
  {
  }

  /** In either mode the chart of an ordered fight runs from left to right. */
  lemma ChartRunsLeftToRight(raw: seq<Window>, activityOnly: bool, size: nat)
    requires size > 0 && Ordered(raw, Span(raw))
    ensures LeftToRight(Chart(if activityOnly then Active(raw) else raw, size, Span(raw)))
  {
    ActiveKeepsOrder(raw, Span(raw));
    PointsRunLeftToRight(if activityOnly then Active(raw) else raw, size, Span(raw));
  }

  // ----- The memoised computation --------------------------------------------------------------

  lemma PlotNext(ws: seq<Window>, i: nat, size: nat, span: int, points: seq<Point>)
    requires size > 0 && span != 0 && i < |ws|
    requires points + ChartFrom(ws, i, size, span) == Chart(ws, size, span)
    ensures points + [PointOf(GroupAt(ws, i, size), span)] + ChartFrom(ws, i + size, size, span)
            == Chart(ws, size, span)
  {
    ChartStep(ws, i, size, span);
    var point, rest := PointOf(GroupAt(ws, i, size), span), ChartFrom(ws, i + size, size, span);
    assert points + ([point] + rest) == points + [point] + rest;
  }

  method PlotEach(source: seq<Window>, span: int) returns (points: seq<Point>)
    requires span != 0
    ensures points == Chart(source, 1, span) && |points| == |source|
  {
    points := [];
    assert source[0..] == source;
    for i := 0 to |source|
      invariant points + ChartFrom(source, i, 1, span) == Chart(source, 1, span) && |points| == i
    {
      var w := source[i];
      PlotNext(source, i, 1, span, points);
      assert source[i..i + 1] == [w];
      assert Total([w], Damage) == w.damage && Total([w], Healing) == w.healing;
      points := points + [Point(XOf(w.start, span), w.damage, w.healing)];
    }
  }

  method PlotGroups(source: seq<Window>, size: nat, span: int) returns (points: seq<Point>)
    requires size > 0 && span != 0
    ensures points == Chart(source, size, span)
  {
    points := [];
    var i := 0;
    assert source[0..] == source;
    while i < |source|
      invariant 0 <= i
      invariant points + ChartFrom(source, i, size, span) == Chart(source, size, span)
    {
      PlotNext(source, i, size, span, points);
      points := points + [PointOf(GroupAt(source, i, size), span)];
      i := i + size;
    }
  }

  lemma ChartIsSmall(ws: seq<Window>, size: nat, span: int)
    requires ws != [] && size > 0 && span != 0 && |ws| <= 200 * size
    ensures 0 < |Chart(ws, size, span)| <= 200
  {
    ChartFollowsGroups(ws, size, span);
    GroupsAreFew(ws, size, 200);
  }

  /** At most 200 points, whose totals are the totals of the whole fight in either mode. */
  method Points(raw: seq<Window>, activityOnly: bool) returns (points: seq<Point>)
    ensures |points| <= 200
    ensures var shown := if activityOnly then Active(raw) else raw;
            |shown| <= 200 ==> |points| == |shown|
    ensures points == [] <==> (if activityOnly then Active(raw) else raw) == []
    ensures PointDamage(points) == Total(raw, Damage) && PointHealing(points) == Total(raw, Healing)
            <==> !activityOnly || DropsZeros(raw)
    ensures Ordered(raw, Span(raw)) ==> LeftToRight(points)
    ensures points != [] ==>
      var source := if activityOnly then Active(raw) else raw;
      points == Chart(source, GroupSize(|source|), Span(raw))
  {
    var source := if activityOnly then Active(raw) else raw;
    ActivityLosesNothing(raw);
    if |source| == 0 {
      return [];
    }
    var size := GroupSize(|source|);
    if |source| <= CHART_MAX_POINTS {
      points := PlotEach(source, Span(raw));
    } else {
      points := PlotGroups(source, size, Span(raw));
    }
    ChartIsSmall(source, size, Span(raw));
    ChartKeepsTotals(source, size, Span(raw));
    if Ordered(raw, Span(raw)) {
      ChartRunsLeftToRight(raw, activityOnly, size);
    }
  }
}
