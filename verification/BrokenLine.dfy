/**
  The broken line of the cross-account chart: every series is aligned to the union of all dates, with
  a gap where it has no point, and the aligned values are cut into one path per run of values.

  A date stands for its ISO string; a path command is a move or a line to the value at an index.
*/
module BrokenLine {
  import opened InsertionOrder
  import opened Options
  import StableSort

  type Date = int

  datatype Point = Point(date: Date, value: int)

  datatype Command = Command(move: bool, index: nat, value: int)

  type Values = seq<Option<int>>

  // ----- The shared axis -----------------------------------------------------------------------

  predicate AtMost(a: Date, b: Date) {
    a <= b
  }

  ghost predicate Increasing(s: seq<Date>) {
    forall i, j :: 0 <= i < j < |s| ==> s[i] < s[j]
  }

  lemma SortIncreases(dates: seq<Date>)
    requires Distinct(dates)
    ensures Increasing(StableSort.Sort(dates, AtMost))
    ensures forall x :: x in StableSort.Sort(dates, AtMost) <==> x in dates
  {
    StableSort.SortSorts(dates, AtMost);
    StableSort.SortKeepsDistinct(dates, AtMost);
    var s := StableSort.Sort(dates, AtMost);
    forall i, j | 0 <= i < j < |s| ensures s[i] < s[j] {
      assert AtMost(s[i], s[j]) && s[i] != s[j];
    }
  }

  ghost predicate HasPointAt(series: seq<seq<Point>>, n: nat, d: Date) {
    exists i, k :: 0 <= i < |series| && i < n && 0 <= k < |series[i]| && series[i][k].date == d
  }

  /** Every date of every series, once, in order. */
  method AllDates(series: seq<seq<Point>>) returns (dates: seq<Date>)
    ensures Increasing(dates)
    ensures forall d :: d in dates <==> HasPointAt(series, |series|, d)
  {
    dates := [];
    for i := 0 to |series|
      invariant Distinct(dates) && forall d :: d in dates <==> HasPointAt(series, i, d)
    {
      dates := AddDates(dates, series[i]);
    }
    SortIncreases(dates);
    dates := StableSort.Sort(dates, AtMost);
  }

  method AddDates(seen: seq<Date>, points: seq<Point>) returns (dates: seq<Date>)
    requires Distinct(seen)
    ensures Distinct(dates)
    ensures forall d :: d in dates <==> d in seen || exists k :: 0 <= k < |points| && points[k].date == d
  {
    dates := seen;
    for k := 0 to |points|
      invariant Distinct(dates)
      invariant forall d :: d in dates <==> d in seen || exists j :: 0 <= j < k && points[j].date == d
    {
      if points[k].date !in dates {
        dates := dates + [points[k].date];
      }
    }
  }

  // ----- Alignment -----------------------------------------------------------------------------

  /** The value of the last point of the series at a date. */
  function LastAt(points: seq<Point>, d: Date): Option<int> {
    if points == [] then None
    else if points[|points| - 1].date == d then Some(points[|points| - 1].value)
    else LastAt(points[..|points| - 1], d)
  }

  method Align(points: seq<Point>, dates: seq<Date>) returns (values: Values)
    ensures |values| == |dates| && forall k :: 0 <= k < |dates| ==> values[k] == LastAt(points, dates[k])
  {
    var valueByDate: map<Date, int> := map[];
    for i := 0 to |points|
      invariant forall d :: LastAt(points[..i], d) == if d in valueByDate then Some(valueByDate[d]) else None
    {
      assert points[..i + 1][..i] == points[..i];
      valueByDate := valueByDate[points[i].date := points[i].value];
    }
    assert points[..|points|] == points;
    values := seq(|dates|, k requires 0 <= k < |dates| =>
      if dates[k] in valueByDate then Some(valueByDate[dates[k]]) else None);
  }

  lemma {:induction false} LastAtWins(points: seq<Point>, d: Date)
    ensures LastAt(points, d).Some? <==> exists k :: 0 <= k < |points| && points[k].date == d
    ensures forall k :: 0 <= k < |points| && points[k].date == d &&
                        (forall j :: k < j < |points| ==> points[j].date != d)
                        ==> LastAt(points, d) == Some(points[k].value)
    decreases |points|
  {
    if points == [] {
    } else {
      var before := points[..|points| - 1];
      LastAtWins(before, d);
      assert forall k :: 0 <= k < |before| ==> before[k] == points[k];
    }
  }

  // ----- Segmentation --------------------------------------------------------------------------

  /** Command `k` of a path that starts at `from`: a move first and then lines. */
  ghost predicate Stroke(values: Values, from: nat, k: nat, c: Command) {
    from + k < |values| && values[from + k].Some? && c == Command(k == 0, from + k, values[from + k].value)
  }

  ghost predicate Draws(values: Values, from: nat, path: seq<Command>) {
    forall k :: 0 <= k < |path| ==> Stroke(values, from, k, path[k])
  }

  function From(path: seq<Command>): nat {
    if path == [] then 0 else path[0].index
  }

  function To(path: seq<Command>): nat {
    From(path) + |path|
  }

  predicate IsGap(values: Values, i: int) {
    i < 0 || i >= |values| || values[i].None?
  }

  /** A run of values that can be extended on neither side. */
  ghost predicate IsMaximalRun(values: Values, path: seq<Command>) {
    path != [] && Draws(values, From(path), path) && IsGap(values, From(path) - 1) && IsGap(values, To(path))
  }

  predicate Covers(path: seq<Command>, i: nat) {
    From(path) <= i < To(path)
  }

  ghost predicate IsCovered(segments: seq<seq<Command>>, i: nat) {
    exists s :: 0 <= s < |segments| && Covers(segments[s], i)
  }

  /** The paths are maximal runs, in order, and together they cover every value before `upTo`. */
  ghost predicate IsSegmentation(values: Values, upTo: nat, segments: seq<seq<Command>>) {
    upTo <= |values| &&
    (forall s :: 0 <= s < |segments| ==> IsMaximalRun(values, segments[s]) && To(segments[s]) <= upTo) &&
    (forall s, t :: 0 <= s < t < |segments| ==> To(segments[s]) < From(segments[t])) &&
    (forall i :: 0 <= i < upTo && values[i].Some? ==> IsCovered(segments, i))
  }

  lemma RunEndsInValue(values: Values, path: seq<Command>)
    requires IsMaximalRun(values, path)
    ensures 0 < To(path) <= |values| && values[To(path) - 1].Some?
  {
    assert Stroke(values, From(path), |path| - 1, path[|path| - 1]);
  }

  lemma CoveredAfterRun(values: Values, from: nat, segments: seq<seq<Command>>, path: seq<Command>, i: nat)
    requires IsSegmentation(values, from, segments) && path != [] && From(path) == from
    requires i < from + |path| && i < |values| && values[i].Some?
    ensures IsCovered(segments + [path], i)
  {
    var all := segments + [path];
    if i < from {
      var s :| 0 <= s < |segments| && Covers(segments[s], i);
      assert Covers(all[s], i);
    } else {
      assert Covers(all[|segments|], i);
    }
  }

  lemma NewRunIsMaximal(values: Values, from: nat, path: seq<Command>)
    requires path != [] && Draws(values, from, path) && IsGap(values, from - 1) && IsGap(values, from + |path|)
    ensures From(path) == from && To(path) == from + |path| <= |values| && IsMaximalRun(values, path)
  {
    assert Stroke(values, from, 0, path[0]) && Stroke(values, from, |path| - 1, path[|path| - 1]);
  }

  lemma CloseRun(values: Values, from: nat, segments: seq<seq<Command>>, path: seq<Command>)
    requires IsSegmentation(values, from, segments) && path != [] && Draws(values, from, path)
    requires IsGap(values, from - 1) && IsGap(values, from + |path|)
    ensures IsSegmentation(values, from + |path|, segments + [path])
  {
    NewRunIsMaximal(values, from, path);
    forall s | 0 <= s < |segments|
      ensures To(segments[s]) < from
    {
      RunEndsInValue(values, segments[s]);
    }
    forall i | 0 <= i < from + |path| && values[i].Some?
      ensures IsCovered(segments + [path], i)
    {
      CoveredAfterRun(values, from, segments, path, i);
    }
  }

  lemma SkipGap(values: Values, i: nat, segments: seq<seq<Command>>)
    requires IsSegmentation(values, i, segments) && i < |values| && values[i].None?
    ensures IsSegmentation(values, i + 1, segments)
  {
  }

  method BuildSegments(values: Values) returns (segments: seq<seq<Command>>)
    ensures IsSegmentation(values, |values|, segments)
  {
    segments := [];
    var current: seq<Command> := [];
    ghost var from: nat := 0;   // where `current` starts
    for i := 0 to |values|
      invariant from + |current| == i && Draws(values, from, current)
      invariant IsSegmentation(values, from, segments) && IsGap(values, from - 1)
    {
      if values[i].None? {
        if current != [] {
          CloseRun(values, from, segments, current);
          segments := segments + [current];
          current := [];
        }
        SkipGap(values, i, segments);
        from := i + 1;
        continue;
      }
      assert Stroke(values, from, |current|, Command(current == [], i, values[i].value));
      current := current + [Command(current == [], i, values[i].value)];
    }
    if current != [] {
      CloseRun(values, from, segments, current);
      segments := segments + [current];
    }
  }

  // ----- Nothing is lost -----------------------------------------------------------------------

  /** Read the value at an index back from the paths. */
  function ReadAt(segments: seq<seq<Command>>, i: nat): Option<int> {
    if segments == [] then None
    else
      var path := segments[|segments| - 1];
      if Covers(path, i) then Some(path[i - From(path)].value) else ReadAt(segments[..|segments| - 1], i)
  }

  lemma CoveredOneMore(before: seq<seq<Command>>, path: seq<Command>, i: nat)
    ensures IsCovered(before + [path], i) <==> IsCovered(before, i) || Covers(path, i)
  {
    var all := before + [path];
    if IsCovered(before, i) {
      var s :| 0 <= s < |before| && Covers(before[s], i);
      assert Covers(all[s], i);
    }
    if Covers(path, i) {
      assert Covers(all[|before|], i);
    }
  }

  lemma {:induction false} ReadAtCovering(values: Values, segments: seq<seq<Command>>, i: nat)
    requires i < |values| && forall s :: 0 <= s < |segments| ==> IsMaximalRun(values, segments[s])
    ensures ReadAt(segments, i) == if IsCovered(segments, i) then values[i] else None
    decreases |segments|
  {
    if segments == [] {
    } else {
      var before, path := segments[..|segments| - 1], segments[|segments| - 1];
      assert segments == before + [path];
      ReadAtCovering(values, before, i);
      CoveredOneMore(before, path, i);
      assert IsMaximalRun(values, path);
      if Covers(path, i) {
        assert Stroke(values, From(path), i - From(path), path[i - From(path)]);
      }
    }
  }

  /** The values, gaps included, can be read back from the paths. */
  lemma SegmentsDetermineValues(values: Values, segments: seq<seq<Command>>)
    requires IsSegmentation(values, |values|, segments)
    ensures seq(|values|, i requires 0 <= i < |values| => ReadAt(segments, i)) == values
  {
    forall i | 0 <= i < |values|
      ensures ReadAt(segments, i) == values[i]
    {
      ReadAtCovering(values, segments, i);
    }
  }

  ghost predicate OnOnePath(segments: seq<seq<Command>>, i: nat, j: nat) {
    exists s :: 0 <= s < |segments| && Covers(segments[s], i) && Covers(segments[s], j)
  }

  lemma RunHasValue(values: Values, path: seq<Command>, k: nat)
    requires IsMaximalRun(values, path) && Covers(path, k)
    ensures k < |values| && values[k].Some?
  {
    assert Stroke(values, From(path), k - From(path), path[k - From(path)]);
  }

  lemma PathHasNoGap(values: Values, segments: seq<seq<Command>>, i: nat, j: nat)
    requires IsSegmentation(values, |values|, segments) && i <= j < |values| && OnOnePath(segments, i, j)
    ensures forall k :: i <= k <= j ==> values[k].Some?
  {
    var s :| 0 <= s < |segments| && Covers(segments[s], i) && Covers(segments[s], j);
    forall k | i <= k <= j ensures values[k].Some? {
      RunHasValue(values, segments[s], k);
    }
  }

  lemma RunIsOnePath(values: Values, segments: seq<seq<Command>>, i: nat, j: nat)
    requires IsSegmentation(values, |values|, segments) && i <= j < |values|
    requires forall k :: i <= k <= j ==> values[k].Some?
    ensures OnOnePath(segments, i, j)
  {
    assert IsCovered(segments, i);
    var s :| 0 <= s < |segments| && Covers(segments[s], i);
    assert IsMaximalRun(values, segments[s]);
    assert IsGap(values, To(segments[s]));
    assert Covers(segments[s], j);
  }

  /** Two values are joined by one path exactly when there is no gap between them. */
  lemma PathsJoinRuns(values: Values, segments: seq<seq<Command>>, i: nat, j: nat)
    requires IsSegmentation(values, |values|, segments) && i <= j < |values| && values[i].Some?
    ensures OnOnePath(segments, i, j) <==> forall k :: i <= k <= j ==> values[k].Some?
  {
    if OnOnePath(segments, i, j) {
      PathHasNoGap(values, segments, i, j);
    }
    if forall k :: i <= k <= j ==> values[k].Some? {
      RunIsOnePath(values, segments, i, j);
    }
  }

  ghost predicate HasPoint(points: seq<Point>, d: Date) {
    exists m :: 0 <= m < |points| && points[m].date == d
  }

  /** One move and then lines, to consecutive dates. */
  ghost predicate IsPath(path: seq<Command>) {
    path != [] && forall k :: 0 <= k < |path| ==> path[k].move == (k == 0) && path[k].index == path[0].index + k
  }

  lemma RunIsPath(values: Values, path: seq<Command>)
    requires IsMaximalRun(values, path)
    ensures IsPath(path)
  {
    forall k | 0 <= k < |path| ensures path[k].move == (k == 0) && path[k].index == path[0].index + k {
      assert Stroke(values, From(path), k, path[k]);
    }
  }

  /** What a chart shows of series `n`: its last point at every date of the axis, a gap exactly where it
      has none, and one path through two of its points exactly when it has a point at every date of any
      series between them. */
  ghost predicate Shows(dates: seq<Date>, segments: seq<seq<Command>>, points: seq<Point>) {
    (forall i :: 0 <= i < |dates| ==> ReadAt(segments, i) == LastAt(points, dates[i])) &&
    (forall s :: 0 <= s < |segments| ==> IsPath(segments[s])) &&
    (forall i, j :: 0 <= i <= j < |dates| && HasPoint(points, dates[i]) && HasPoint(points, dates[j]) ==>
       (OnOnePath(segments, i, j) <==> forall k :: i <= k <= j ==> HasPoint(points, dates[k])))
  }

  lemma SegmentsShow(points: seq<Point>, dates: seq<Date>, values: Values, segments: seq<seq<Command>>)
    requires |values| == |dates| && forall k :: 0 <= k < |dates| ==> values[k] == LastAt(points, dates[k])
    requires IsSegmentation(values, |values|, segments)
    ensures Shows(dates, segments, points)
  {
    forall i | 0 <= i < |dates| ensures ReadAt(segments, i) == LastAt(points, dates[i]) {
      ReadAtCovering(values, segments, i);
    }
    forall s | 0 <= s < |segments| ensures IsPath(segments[s]) {
      RunIsPath(values, segments[s]);
    }
    forall k | 0 <= k < |dates| ensures HasPoint(points, dates[k]) <==> values[k].Some? {
      LastAtWins(points, dates[k]);
    }
    forall i, j | 0 <= i <= j < |dates| && HasPoint(points, dates[i]) && HasPoint(points, dates[j])
      ensures OnOnePath(segments, i, j) <==> forall k :: i <= k <= j ==> HasPoint(points, dates[k])
    {
      PathsJoinRuns(values, segments, i, j);
    }
  }

  /** From the points of all series to the paths of one: the axis has exactly the dates of all series. */
  method Draw(series: seq<seq<Point>>, n: nat) returns (dates: seq<Date>, segments: seq<seq<Command>>)
    requires n < |series|
    ensures Increasing(dates) && forall d :: d in dates <==> HasPointAt(series, |series|, d)
    ensures forall k :: 0 <= k < |series[n]| ==> series[n][k].date in dates
    ensures Shows(dates, segments, series[n])
  {
    dates := AllDates(series);
    var values := Align(series[n], dates);
    segments := BuildSegments(values);
    SegmentsShow(series[n], dates, values, segments);
  }
}
