/**
  The position heatmap: bounds over all samples, linear interpolation between the samples around a
  time, projection into the padded canvas, and the centre of mass.  Coordinates are reals.
*/
module Heatmap {
  import opened Options
  import opened RealOrder

  datatype Pos = Pos(x: real, y: real)

  datatype Sample = Sample(time: real, pos: Pos)

  type Track = seq<Sample>

  const CANVAS_PADDING := 40.0

  // ----- Interpolation -------------------------------------------------------------------------

  function Lerp(a: real, b: real, ratio: real): real {
    a + (b - a) * ratio
  }

  function Between(a: Sample, b: Sample, t: real): Pos
    requires a.time < b.time
  {
    var ratio := (t - a.time) / (b.time - a.time);
    Pos(Lerp(a.pos.x, b.pos.x, ratio), Lerp(a.pos.y, b.pos.y, ratio))
  }

  /** The position from sample `i` on, which is already known to lie before `t`. */
  function Scan(track: Track, t: real, i: nat): Pos
    requires i < |track| && track[i].time < t
    decreases |track| - i
  {
    if i + 1 == |track| then track[i].pos
    else if t <= track[i + 1].time then Between(track[i], track[i + 1], t)
    else Scan(track, t, i + 1)
  }

  function At(track: Track, t: real): Option<Pos> {
    if track == [] then None
    else if t <= track[0].time then Some(track[0].pos)
    else Some(Scan(track, t, 0))
  }

  /** The loop of the source.  No sample order is needed for the division: a segment is only reached
      when its first sample lies strictly before `t`. */
  method Interpolate(track: Track, t: real) returns (pos: Option<Pos>)
    ensures pos == At(track, t)
  {
    if |track| == 0 {
      return None;
    }
    if t <= track[0].time {
      return Some(track[0].pos);
    }
    for i := 0 to |track| - 1
      invariant track[i].time < t && At(track, t) == Some(Scan(track, t, i))
    {
      var a, b := track[i], track[i + 1];
      if t >= a.time && t <= b.time {
        var ratio := (t - a.time) / (b.time - a.time);
        pos := Some(Pos(a.pos.x + (b.pos.x - a.pos.x) * ratio, a.pos.y + (b.pos.y - a.pos.y) * ratio));
        assert pos.value == Between(a, b, t);
        return;
      }
    }
    return Some(track[|track| - 1].pos);
  }

  /** On a track with increasing times the interpolation passes through every sample. */
  lemma {:induction false} PassesThroughSamples(track: Track, i: nat, k: nat)
    requires forall a, b :: 0 <= a < b < |track| ==> track[a].time < track[b].time
    requires i < k < |track|
    ensures Scan(track, track[k].time, i) == track[k].pos
    decreases k - i
  {
    if i + 1 < k {
      PassesThroughSamples(track, i + 1, k);
    } else {
      var a, b := track[i], track[k];
      UnitQuotients(b.time - a.time);
    }
  }

  /** Between two samples, the way walked is to the whole way as the time passed is to the whole time. */
  lemma LerpIsProportional(a: real, b: real, part: real, whole: real)
    requires 0.0 < whole
    ensures (Lerp(a, b, part / whole) - a) * whole == (b - a) * part
  {
    var ratio, way := part / whole, b - a;
    assert ratio * whole == part;
    assert (way * ratio) * whole == way * (ratio * whole);
  }

  lemma {:induction false} ScanFindsSegment(track: Track, t: real, i: nat, k: nat)
    requires forall a, b :: 0 <= a < b < |track| ==> track[a].time < track[b].time
    requires i <= k < |track| - 1 && track[k].time < t <= track[k + 1].time && track[i].time < t
    ensures Scan(track, t, i) == Between(track[k], track[k + 1], t)
    decreases k - i
  {
    if i == k {
    } else {
      assert i + 1 == k || track[i + 1].time < track[k].time;
      ScanFindsSegment(track, t, i + 1, k);
    }
  }

  /** On a track with increasing times, a time between two neighbouring samples gives the position in
      proportion between them, in both coordinates. */
  lemma PositionIsProportional(track: Track, t: real, k: nat)
    requires forall a, b :: 0 <= a < b < |track| ==> track[a].time < track[b].time
    requires k < |track| - 1 && track[k].time < t <= track[k + 1].time
    ensures At(track, t).Some?
    ensures var a, b, pos := track[k], track[k + 1], At(track, t).value;
            (pos.x - a.pos.x) * (b.time - a.time) == (b.pos.x - a.pos.x) * (t - a.time) &&
            (pos.y - a.pos.y) * (b.time - a.time) == (b.pos.y - a.pos.y) * (t - a.time)
  {
    var a, b := track[k], track[k + 1];
    assert k == 0 || track[0].time < track[k].time;
    ScanFindsSegment(track, t, 0, k);
    LerpIsProportional(a.pos.x, b.pos.x, t - a.time, b.time - a.time);
    LerpIsProportional(a.pos.y, b.pos.y, t - a.time, b.time - a.time);
  }

  lemma {:induction false} ScanPastEnd(track: Track, t: real, i: nat)
    requires i < |track| && forall k :: 0 <= k < |track| ==> track[k].time < t
    ensures Scan(track, t, i) == track[|track| - 1].pos
    decreases |track| - i
  {
    if i + 1 == |track| {
    } else {
      ScanPastEnd(track, t, i + 1);
    }
  }

  /** Before the first sample and after the last one, the player stands there. */
  lemma PositionIsClamped(track: Track, t: real)
    requires track != []
    ensures t <= track[0].time ==> At(track, t) == Some(track[0].pos)
    ensures (forall k :: 0 <= k < |track| ==> track[k].time < t) ==> At(track, t) == Some(track[|track| - 1].pos)
  {
    if forall k :: 0 <= k < |track| ==> track[k].time < t {
      ScanPastEnd(track, t, 0);
    }
  }

  // ----- The bounding box ----------------------------------------------------------------------

  function X(s: Sample): real { s.pos.x }

  function Y(s: Sample): real { s.pos.y }

  function Row(track: Track, f: Sample -> real): seq<real> {
    if track == [] then [] else Row(track[..|track| - 1], f) + [f(track[|track| - 1])]
  }

  /** One coordinate of every sample of every player, in drawing order. */
  function Coordinates(tracks: seq<Track>, f: Sample -> real): seq<real> {
    if tracks == [] then []
    else Coordinates(tracks[..|tracks| - 1], f) + Row(tracks[|tracks| - 1], f)
  }

  function Least(s: seq<real>): (least: real)
    requires s != []
    ensures least in s && forall v :: v in s ==> least <= v
  {
    if |s| == 1 then s[0]
    else
      var rest := Least(s[1..]);
      assert s == [s[0]] + s[1..];
      if s[0] < rest then s[0] else rest
  }

  function Greatest(s: seq<real>): (greatest: real)
    requires s != []
    ensures greatest in s && forall v :: v in s ==> v <= greatest
  {
    if |s| == 1 then s[0]
    else
      var rest := Greatest(s[1..]);
      assert s == [s[0]] + s[1..];
      if rest < s[0] then s[0] else rest
  }

  ghost predicate IsSampled(tracks: seq<Track>, f: Sample -> real, v: real) {
    exists n, i :: 0 <= n < |tracks| && 0 <= i < |tracks[n]| && f(tracks[n][i]) == v
  }

  lemma {:induction false} RowMembers(track: Track, f: Sample -> real, v: real)
    ensures v in Row(track, f) <==> exists i :: 0 <= i < |track| && f(track[i]) == v
  {
    if track == [] {
    } else {
      var last := |track| - 1;
      RowMembers(track[..last], f, v);
      if i :| 0 <= i < |track| && f(track[i]) == v {
        if i < last {
          assert f(track[..last][i]) == v;
        }
      }
    }
  }

  lemma SampledOneMore(before: seq<Track>, last: Track, f: Sample -> real, v: real)
    ensures IsSampled(before + [last], f, v) <==>
            IsSampled(before, f, v) || exists i :: 0 <= i < |last| && f(last[i]) == v
  {
    var tracks := before + [last];
    if IsSampled(before, f, v) {
      var n, i :| 0 <= n < |before| && 0 <= i < |before[n]| && f(before[n][i]) == v;
      assert f(tracks[n][i]) == v;
    }
    if i :| 0 <= i < |last| && f(last[i]) == v {
      assert f(tracks[|before|][i]) == v;
    }
    if IsSampled(tracks, f, v) {
      var n, i :| 0 <= n < |tracks| && 0 <= i < |tracks[n]| && f(tracks[n][i]) == v;
      assert n < |before| ==> f(before[n][i]) == v;
    }
  }

  lemma {:induction false} CoordinatesAreSampled(tracks: seq<Track>, f: Sample -> real, v: real)
    ensures v in Coordinates(tracks, f) <==> IsSampled(tracks, f, v)
  {
    if tracks == [] {
    } else {
      var before, last := tracks[..|tracks| - 1], tracks[|tracks| - 1];
      CoordinatesAreSampled(before, f, v);
      RowMembers(last, f, v);
      SampledOneMore(before, last, f, v);
      assert tracks == before + [last];
    }
  }

  datatype Box = Box(min: Pos, max: Pos) {
    predicate IsBox() {
      min.x <= max.x && min.y <= max.y
    }

    ghost predicate Contains(p: Pos) {
      min.x <= p.x <= max.x && min.y <= p.y <= max.y
    }
  }

  ghost predicate Encloses(box: Box, tracks: seq<Track>) {
    forall n, i :: 0 <= n < |tracks| && 0 <= i < |tracks[n]| ==> box.Contains(tracks[n][i].pos)
  }

  /** Every side of the box touches a sample, so no smaller box encloses them all. */
  ghost predicate Touches(box: Box, tracks: seq<Track>) {
    && IsSampled(tracks, X, box.min.x) && IsSampled(tracks, X, box.max.x)
    && IsSampled(tracks, Y, box.min.y) && IsSampled(tracks, Y, box.max.y)
  }

  method Collect(tracks: seq<Track>) returns (allX: seq<real>, allY: seq<real>)
    ensures allX == Coordinates(tracks, X) && allY == Coordinates(tracks, Y)
  {
    allX, allY := [], [];
    for n := 0 to |tracks|
      invariant allX == Coordinates(tracks[..n], X) && allY == Coordinates(tracks[..n], Y)
    {
      var track := tracks[n];
      for i := 0 to |track|
        invariant allX == Coordinates(tracks[..n], X) + Row(track[..i], X)
        invariant allY == Coordinates(tracks[..n], Y) + Row(track[..i], Y)
      {
        assert track[..i + 1][..i] == track[..i];
        allX, allY := allX + [track[i].pos.x], allY + [track[i].pos.y];
      }
      assert track[..|track|] == track;
      assert tracks[..n + 1][..n] == tracks[..n];
    }
    assert tracks[..|tracks|] == tracks;
  }

  lemma AxisIsTight(tracks: seq<Track>, f: Sample -> real)
    ensures Coordinates(tracks, f) == [] <==> forall n :: 0 <= n < |tracks| ==> tracks[n] == []
    ensures forall n, i :: 0 <= n < |tracks| && 0 <= i < |tracks[n]| ==> f(tracks[n][i]) in Coordinates(tracks, f)
    ensures forall v :: v in Coordinates(tracks, f) ==> IsSampled(tracks, f, v)
  {
    var all := Coordinates(tracks, f);
    forall n, i | 0 <= n < |tracks| && 0 <= i < |tracks[n]| ensures f(tracks[n][i]) in all {
      CoordinatesAreSampled(tracks, f, f(tracks[n][i]));
    }
    forall v | v in all ensures IsSampled(tracks, f, v) {
      CoordinatesAreSampled(tracks, f, v);
    }
    if n :| 0 <= n < |tracks| && tracks[n] != [] {
      assert f(tracks[n][0]) in all;
    }
    if all != [] {
      assert all[0] in all;
      var n, i :| 0 <= n < |tracks| && 0 <= i < |tracks[n]| && f(tracks[n][i]) == all[0];
      assert tracks[n] != [];
    }
  }

  function Hull(tracks: seq<Track>): (box: Option<Box>)
    ensures box.Some? ==> box.value.IsBox()
  {
    var allX, allY := Coordinates(tracks, X), Coordinates(tracks, Y);
    if allX == [] || allY == [] then None
    else Some(Box(Pos(Least(allX), Least(allY)), Pos(Greatest(allX), Greatest(allY))))
  }

  /** The hull is the smallest box around every sample, and exists as soon as there is a sample. */
  lemma HullIsTight(tracks: seq<Track>)
    ensures Hull(tracks).None? <==> forall n :: 0 <= n < |tracks| ==> tracks[n] == []
    ensures Hull(tracks).Some? ==> Encloses(Hull(tracks).value, tracks) && Touches(Hull(tracks).value, tracks)
  {
    var allX, allY := Coordinates(tracks, X), Coordinates(tracks, Y);
    AxisIsTight(tracks, X);
    AxisIsTight(tracks, Y);
    if allX != [] {
      var box := Hull(tracks).value;
      forall n, i | 0 <= n < |tracks| && 0 <= i < |tracks[n]| ensures box.Contains(tracks[n][i].pos) {
        var s := tracks[n][i];
        assert X(s) in allX && Y(s) in allY;
      }
    }
  }

  method FindBox(tracks: seq<Track>) returns (box: Option<Box>)
    ensures box == Hull(tracks)
  {
    var allX, allY := Collect(tracks);
    AxisIsTight(tracks, X);
    AxisIsTight(tracks, Y);
    if |allX| == 0 {
      return None;
    }
    return Some(Box(Pos(Least(allX), Least(allY)), Pos(Greatest(allX), Greatest(allY))));
  }

  // ----- Positions stay inside the box ---------------------------------------------------------

  lemma StepBounds(whole: real, ratio: real)
    requires 0.0 <= ratio <= 1.0
    ensures if 0.0 <= whole then 0.0 <= whole * ratio <= whole else whole <= whole * ratio <= 0.0
  {
    if 0.0 <= whole {
      ScaleOrder(ratio, 1.0, whole);
    } else {
      ScaleOrder(ratio, 1.0, -whole);
    }
  }

  lemma StaysBetween(a: real, b: real, lo: real, hi: real, step: real)
    requires lo <= a <= hi && lo <= b <= hi
    requires if a <= b then 0.0 <= step <= b - a else b - a <= step <= 0.0
    ensures lo <= a + step <= hi
  {
  }

  lemma LerpStaysBetween(a: real, b: real, lo: real, hi: real, ratio: real)
    requires lo <= a <= hi && lo <= b <= hi && 0.0 <= ratio <= 1.0
    ensures lo <= Lerp(a, b, ratio) <= hi
  {
    var whole := b - a;
    StepBounds(whole, ratio);
    var step := whole * ratio;
    assert Lerp(a, b, ratio) == a + step;
    StaysBetween(a, b, lo, hi, step);
  }

  lemma BetweenStaysInBox(a: Sample, b: Sample, t: real, box: Box)
    requires a.time < t <= b.time && box.Contains(a.pos) && box.Contains(b.pos)
    ensures box.Contains(Between(a, b, t))
  {
    var ratio := (t - a.time) / (b.time - a.time);
    RatioInUnit(t - a.time, b.time - a.time);
    LerpStaysBetween(a.pos.x, b.pos.x, box.min.x, box.max.x, ratio);
    LerpStaysBetween(a.pos.y, b.pos.y, box.min.y, box.max.y, ratio);
  }

  lemma {:induction false} ScanStaysInBox(track: Track, t: real, i: nat, box: Box)
    requires i < |track| && track[i].time < t
    requires forall k :: 0 <= k < |track| ==> box.Contains(track[k].pos)
    ensures box.Contains(Scan(track, t, i))
    decreases |track| - i
  {
    if i + 1 == |track| {
    } else {
      if t <= track[i + 1].time {
        BetweenStaysInBox(track[i], track[i + 1], t, box);
      } else {
        ScanStaysInBox(track, t, i + 1, box);
      }
    }
  }

  /** At every time, samples in order or not, a position lies in the box of the samples, and only a
      player without samples has none. */
  lemma PositionStaysInBox(tracks: seq<Track>, n: nat, t: real, box: Box)
    requires n < |tracks| && Encloses(box, tracks)
    ensures At(tracks[n], t).Some? <==> tracks[n] != []
    ensures At(tracks[n], t).Some? ==> box.Contains(At(tracks[n], t).value)
  {
    forall k | 0 <= k < |tracks[n]| ensures box.Contains(tracks[n][k].pos) {
    }
    if tracks[n] != [] {
      if t > tracks[n][0].time {
        ScanStaysInBox(tracks[n], t, 0, box);
      }
    }
  }

  // ----- Projection and drawing ----------------------------------------------------------------

  function DrawLength(cssLength: real): real {
    cssLength - CANVAS_PADDING * 2.0
  }

  /** The width of an axis; a fight where nobody moves along it gets width 1. */
  function Range(lo: real, hi: real): real {
    if hi - lo == 0.0 then 1.0 else hi - lo
  }

  function Project(v: real, lo: real, hi: real, length: real): real
    requires lo <= hi
  {
    CANVAS_PADDING + (v - lo) / Range(lo, hi) * length
  }

  function ToScreen(p: Pos, box: Box, drawW: real, drawH: real): Pos
    requires box.IsBox()
  {
    Pos(Project(p.x, box.min.x, box.max.x, drawW), Project(p.y, box.min.y, box.max.y, drawH))
  }

  /** Between two bounds in whichever order they come: a canvas narrower than its padding has a
      negative drawing length. */
  ghost predicate Amid(v: real, a: real, b: real) {
    a <= v <= b || b <= v <= a
  }

  ghost predicate InCanvas(p: Pos, drawW: real, drawH: real) {
    && Amid(p.x, CANVAS_PADDING, CANVAS_PADDING + drawW)
    && Amid(p.y, CANVAS_PADDING, CANVAS_PADDING + drawH)
  }

  /** The sides of the box go to the sides of the canvas, zero width included. */
  lemma ProjectStaysInCanvas(v: real, lo: real, hi: real, length: real)
    requires lo <= v <= hi
    ensures Amid(Project(v, lo, hi, length), CANVAS_PADDING, CANVAS_PADDING + length)
    ensures Project(lo, lo, hi, length) == CANVAS_PADDING
    ensures lo < hi ==> Project(hi, lo, hi, length) == CANVAS_PADDING + length
  {
    var ratio := (v - lo) / Range(lo, hi);
    RatioInUnit(v - lo, Range(lo, hi));
    if 0.0 <= length {
      ScaleOrder(0.0, ratio, length);
      ScaleOrder(ratio, 1.0, length);
    } else {
      ScaleOrder(0.0, ratio, -length);
      ScaleOrder(ratio, 1.0, -length);
    }
    UnitQuotients(Range(lo, hi));
  }

  /** In between, distances on the canvas are in proportion to distances in the fight. */
  lemma ProjectIsProportional(v: real, lo: real, hi: real, length: real)
    requires lo < hi
    ensures (Project(v, lo, hi, length) - 40.0) * (hi - lo) == (v - lo) * length
  {
    var ratio := (v - lo) / (hi - lo);
    assert ratio * (hi - lo) == v - lo;
    assert ratio * length * (hi - lo) == ratio * (hi - lo) * length;
  }

  /** One dot per player with a sample, in player order. */
  function Dots(tracks: seq<Track>, t: real, box: Box, drawW: real, drawH: real): seq<Pos>
    requires box.IsBox()
  {
    if tracks == [] then []
    else
      var last := |tracks| - 1;
      var before := Dots(tracks[..last], t, box, drawW, drawH);
      var pos := At(tracks[last], t);
      if pos.None? then before else before + [ToScreen(pos.value, box, drawW, drawH)]
  }

  function Present(tracks: seq<Track>): nat {
    if tracks == [] then 0
    else Present(tracks[..|tracks| - 1]) + if tracks[|tracks| - 1] == [] then 0 else 1
  }

  /** Every player with a sample has its dot, after the dots of the players before it, and nobody else has. */
  lemma {:induction false} DotOfPlayer(tracks: seq<Track>, n: nat, t: real, box: Box, drawW: real, drawH: real)
    requires box.IsBox() && n < |tracks|
    ensures |Dots(tracks, t, box, drawW, drawH)| == Present(tracks)
    ensures tracks[n] != [] ==>
              Present(tracks[..n]) < Present(tracks) && At(tracks[n], t).Some? &&
              Dots(tracks, t, box, drawW, drawH)[Present(tracks[..n])] ==
              ToScreen(At(tracks[n], t).value, box, drawW, drawH)
    decreases |tracks|
  {
    var last := |tracks| - 1;
    if n == last {
      if last > 0 {
        DotOfPlayer(tracks[..last], 0, t, box, drawW, drawH);
      }
    } else {
      DotOfPlayer(tracks[..last], n, t, box, drawW, drawH);
      assert tracks[..last][..n] == tracks[..n];
    }
  }

  function Sum(dots: seq<Pos>, f: Pos -> real): real {
    if dots == [] then 0.0 else Sum(dots[..|dots| - 1], f) + f(dots[|dots| - 1])
  }

  function DotX(p: Pos): real { p.x }

  function DotY(p: Pos): real { p.y }

  lemma {:induction false} DotsStayInCanvas(tracks: seq<Track>, t: real, box: Box, drawW: real, drawH: real)
    requires box.IsBox() && Encloses(box, tracks)
    ensures forall d :: d in Dots(tracks, t, box, drawW, drawH) ==> InCanvas(d, drawW, drawH)
  {
    if tracks == [] {
    } else {
      var last := |tracks| - 1;
      forall n, i | 0 <= n < last && 0 <= i < |tracks[..last][n]|
        ensures box.Contains(tracks[..last][n][i].pos)
      {
        assert box.Contains(tracks[n][i].pos);
      }
      DotsStayInCanvas(tracks[..last], t, box, drawW, drawH);
      PositionStaysInBox(tracks, last, t, box);
      var pos := At(tracks[last], t);
      if pos.Some? {
        ProjectStaysInCanvas(pos.value.x, box.min.x, box.max.x, drawW);
        ProjectStaysInCanvas(pos.value.y, box.min.y, box.max.y, drawH);
      }
    }
  }

  lemma OneMore(n: nat, lo: real, hi: real, sum: real, v: real)
    requires n as real * lo <= sum <= n as real * hi && lo <= v <= hi
    ensures (n + 1) as real * lo <= sum + v <= (n + 1) as real * hi
  {
    assert (n + 1) as real == n as real + 1.0;
  }

  lemma {:induction false} SumIsBounded(dots: seq<Pos>, f: Pos -> real, lo: real, hi: real)
    requires forall d :: d in dots ==> lo <= f(d) <= hi
    ensures |dots| as real * lo <= Sum(dots, f) <= |dots| as real * hi
  {
    if dots == [] {
    } else {
      var last := |dots| - 1;
      SumIsBounded(dots[..last], f, lo, hi);
      assert dots[last] in dots;
      OneMore(last, lo, hi, Sum(dots[..last], f), f(dots[last]));
    }
  }

  lemma MeanIsBounded(sum: real, n: real, lo: real, hi: real)
    requires 0.0 < n && n * lo <= sum <= n * hi
    ensures lo <= sum / n <= hi
  {
    var q := sum / n;
    assert q * n == sum;
    CancelScale(lo, q, n);
    CancelScale(q, hi, n);
  }

  lemma MeanIsBetween(dots: seq<Pos>, f: Pos -> real, lo: real, hi: real)
    requires dots != [] && forall d :: d in dots ==> lo <= f(d) <= hi
    ensures lo <= Sum(dots, f) / |dots| as real <= hi
  {
    SumIsBounded(dots, f, lo, hi);
    MeanIsBounded(Sum(dots, f), |dots| as real, lo, hi);
  }

  lemma CentreStaysInCanvas(dots: seq<Pos>, drawW: real, drawH: real)
    requires dots != [] && forall d :: d in dots ==> InCanvas(d, drawW, drawH)
    ensures InCanvas(Pos(Sum(dots, DotX) / |dots| as real, Sum(dots, DotY) / |dots| as real), drawW, drawH)
  {
    var farX, farY := CANVAS_PADDING + drawW, CANVAS_PADDING + drawH;
    var lo := Pos(if drawW < 0.0 then farX else CANVAS_PADDING, if drawH < 0.0 then farY else CANVAS_PADDING);
    var hi := Pos(if drawW < 0.0 then CANVAS_PADDING else farX, if drawH < 0.0 then CANVAS_PADDING else farY);
    forall d | d in dots ensures lo.x <= d.x <= hi.x && lo.y <= d.y <= hi.y {
      assert InCanvas(d, drawW, drawH);
    }
    MeanIsBetween(dots, DotX, lo.x, hi.x);
    MeanIsBetween(dots, DotY, lo.y, hi.y);
  }

  lemma OneShareMore(n: real, c: real)
    ensures (n + 1.0) * c == n * c + c
  {
  }

  lemma {:induction false} SumOfShifted(dots: seq<Pos>, f: Pos -> real, g: Pos -> real, c: real)
    requires forall p :: g(p) == f(p) - c
    ensures Sum(dots, g) == Sum(dots, f) - |dots| as real * c
  {
    if dots == [] {
    } else {
      var last := |dots| - 1;
      SumOfShifted(dots[..last], f, g, c);
      OneShareMore(last as real, c);
      assert |dots| as real == last as real + 1.0;
    }
  }

  /** How far a dot lies to the right of `c`. */
  function RightOf(c: Pos): Pos -> real {
    (d: Pos) => d.x - c.x
  }

  /** How far a dot lies below `c`. */
  function Below(c: Pos): Pos -> real {
    (d: Pos) => d.y - c.y
  }

  /** The distances of the dots from `c`, to the right and down, cancel out. */
  ghost predicate Balances(dots: seq<Pos>, c: Pos) {
    Sum(dots, RightOf(c)) == 0.0 && Sum(dots, Below(c)) == 0.0
  }

  lemma WholeOfMean(sum: real, n: real)
    requires n > 0.0
    ensures n * (sum / n) == sum
  {
  }

  lemma CentreBalances(dots: seq<Pos>)
    requires dots != []
    ensures Balances(dots, Pos(Sum(dots, DotX) / |dots| as real, Sum(dots, DotY) / |dots| as real))
  {
    var n := |dots| as real;
    var c := Pos(Sum(dots, DotX) / n, Sum(dots, DotY) / n);
    SumOfShifted(dots, DotX, RightOf(c), c.x);
    SumOfShifted(dots, DotY, Below(c), c.y);
    WholeOfMean(Sum(dots, DotX), n);
    WholeOfMean(Sum(dots, DotY), n);
  }

  /** The position pass of one frame: the dots, and the centre of mass when at least two players have
      a position. */
  method Draw(tracks: seq<Track>, t: real, cssW: real, cssH: real)
      returns (dots: seq<Pos>, centre: Option<Pos>)
    ensures Hull(tracks).None? ==> dots == []
    ensures Hull(tracks).Some? ==>
      dots == Dots(tracks, t, Hull(tracks).value, cssW - 80.0, cssH - 80.0)
    ensures forall d :: d in dots ==> InCanvas(d, cssW - 80.0, cssH - 80.0)
    ensures centre ==
      if |dots| > 1 then Some(Pos(Sum(dots, DotX) / |dots| as real, Sum(dots, DotY) / |dots| as real)) else None
    ensures centre.Some? ==> InCanvas(centre.value, cssW - 80.0, cssH - 80.0) && Balances(dots, centre.value)
  {
    var drawW, drawH := DrawLength(cssW), DrawLength(cssH);
    dots := [];
    var hull := FindBox(tracks);
    if hull.None? {
      return [], None;
    }
    HullIsTight(tracks);
    var box := hull.value;
    var comX, comY, activeCount := 0.0, 0.0, 0;
    for n := 0 to |tracks|
      invariant dots == Dots(tracks[..n], t, box, drawW, drawH)
      invariant comX == Sum(dots, DotX) && comY == Sum(dots, DotY) && activeCount == |dots|
    {
      assert tracks[..n + 1][..n] == tracks[..n];
      var pos := Interpolate(tracks[n], t);
      if pos.Some? {
        var dot := ToScreen(pos.value, box, drawW, drawH);
        assert (dots + [dot])[..|dots|] == dots;
        dots, comX, comY, activeCount := dots + [dot], comX + dot.x, comY + dot.y, activeCount + 1;
      }
    }
    assert tracks[..|tracks|] == tracks;
    DotsStayInCanvas(tracks, t, box, drawW, drawH);
    if activeCount > 1 {
      centre := Some(Pos(comX / activeCount as real, comY / activeCount as real));
      CentreStaysInCanvas(dots, drawW, drawH);
      CentreBalances(dots);
    } else {
      centre := None;
    }
  }
}
