/**
  The paginated player timeline: "Load more", the bucket toggle and the timezone selector, each an
  asynchronous handler that captures the rendered state, takes the loading flag, and commits or
  reports an error when its response arrives.
*/
module PagedTimeline {
  import opened Options

  datatype Bucket = Fight | Day

  datatype Point = Point(id: string, value: int)

  /** A response, and equally the timeline held in the state. */
  datatype Page = Page(points: seq<Point>, total: nat, limit: nat)

  datatype Action = LoadMore | ChangeBucket(bucket: Bucket) | ChangeTz(tz: string)

  /** A handler waiting for its response, with what it captured and what it asked for. */
  datatype Call = Call(action: Action, captured: Page, limit: nat, offset: nat, bucket: Bucket, tz: string)

  datatype State = State(timeline: Page, bucket: Bucket, tz: string, isLoading: bool,
                         error: Option<string>, call: Option<Call>)

  predicate HasMore(s: State) {
    |s.timeline.points| < s.timeline.total
  }

  // ----- Steps ---------------------------------------------------------------------------------

  /** Whether the handler goes past its guard. */
  predicate Accepts(s: State, action: Action) {
    !s.isLoading &&
    match action
    case LoadMore => HasMore(s)
    case ChangeBucket(bucket) => bucket != s.bucket
    case ChangeTz(tz) => tz != s.tz
  }

  /** The request each handler sends; a timezone change always asks for days. */
  function RequestFor(s: State, action: Action): Call {
    match action
    case LoadMore => Call(action, s.timeline, s.timeline.limit, |s.timeline.points|, s.bucket, s.tz)
    case ChangeBucket(bucket) => Call(action, s.timeline, s.timeline.limit, 0, bucket, s.tz)
    case ChangeTz(tz) => Call(action, s.timeline, s.timeline.limit, 0, Day, tz)
  }

  function Triggered(s: State, action: Action): State {
    if Accepts(s, action) then s.(isLoading := true, error := None, call := Some(RequestFor(s, action))) else s
  }

  function Ids(points: seq<Point>): set<string> {
    set i | 0 <= i < |points| :: points[i].id
  }

  /** The page's points whose ids are not in the list yet. */
  function Fresh(seen: set<string>, points: seq<Point>): seq<Point> {
    if points == [] then []
    else (if points[0].id in seen then [] else [points[0]]) + Fresh(seen, points[1..])
  }

  function Succeeded(s: State, response: Page): State
    requires s.call.Some?
  {
    var call := s.call.value;
    var done := s.(isLoading := false, call := None);
    match call.action
    case LoadMore =>
      done.(timeline := response.(points := call.captured.points + Fresh(Ids(call.captured.points), response.points)))
    case ChangeBucket(bucket) => done.(timeline := response, bucket := bucket)
    case ChangeTz(tz) => done.(timeline := response, tz := tz, bucket := Day)
  }

  function Failed(s: State, message: string): State
    requires s.call.Some?
  {
    s.(isLoading := false, call := None, error := Some(message))
  }

  // ----- The component -------------------------------------------------------------------------

  class Section {
    var timeline: Page
    var bucket: Bucket
    var tz: string
    var isLoading: bool
    var error: Option<string>
    var call: Option<Call>

    function View(): State
      reads this
    {
      State(timeline, bucket, tz, isLoading, error, call)
    }

    constructor (initial: Page, bucket: Bucket, tz: string)
      ensures View() == State(initial, bucket, tz, false, None, None)
    {
      timeline, this.bucket, this.tz := initial, bucket, tz;
      isLoading, error, call := false, None, None;
    }

    /** The synchronous part of a handler, up to its `await`. */
    method Trigger(action: Action)
      modifies this
      ensures View() == Triggered(old(View()), action)
    {
      if isLoading {
        return;
      }
      match action {
        case LoadMore =>
          if |timeline.points| >= timeline.total { return; }
          call := Some(Call(action, timeline, timeline.limit, |timeline.points|, bucket, tz));
        case ChangeBucket(next) =>
          if next == bucket { return; }
          call := Some(Call(action, timeline, timeline.limit, 0, next, tz));
        case ChangeTz(next) =>
          if next == tz { return; }
          call := Some(Call(action, timeline, timeline.limit, 0, Day, next));
      }
      isLoading := true;
      error := None;
    }

    /** The rest of the handler on a successful response. */
    method Succeed(response: Page)
      requires call.Some?
      modifies this
      ensures View() == Succeeded(old(View()), response)
    {
      match call.value.action {
        case LoadMore =>
          var loaded := call.value.captured.points;
          timeline := response.(points := loaded + Fresh(Ids(loaded), response.points));
        case ChangeBucket(next) =>
          timeline := response;
          bucket := next;
        case ChangeTz(next) =>
          timeline := response;
          tz := next;
          bucket := Day;
      }
      call := None;
      isLoading := false;
    }

    method Fail(message: string)
      requires call.Some?
      modifies this
      ensures View() == Failed(old(View()), message)
    {
      error := Some(message);
      call := None;
      isLoading := false;
    }
  }

  // ----- Servers -------------------------------------------------------------------------------

  /** The full list the server holds for each bucket and timezone. */
  type Server = (Bucket, string) -> seq<Point>

  ghost predicate DistinctIds(points: seq<Point>) {
    forall i, j :: 0 <= i < j < |points| ==> points[i].id != points[j].id
  }

  ghost predicate IsServer(server: Server) {
    forall bucket, tz :: DistinctIds(server(bucket, tz))
  }

  function Min(a: nat, b: nat): nat {
    if a < b then a else b
  }

  function Slice(list: seq<Point>, offset: nat, limit: nat): Page {
    Page(list[Min(offset, |list|)..Min(offset + limit, |list|)], |list|, limit)
  }

  lemma SliceIsDistinct(list: seq<Point>, offset: nat, limit: nat)
    requires DistinctIds(list)
    ensures DistinctIds(Slice(list, offset, limit).points)
  {
    var page := Slice(list, offset, limit).points;
    forall i, j | 0 <= i < j < |page| ensures page[i].id != page[j].id {
      assert page[i] == list[offset + i] && page[j] == list[offset + j];
    }
  }

  function Reply(server: Server, call: Call): Page {
    Slice(server(call.bucket, call.tz), call.offset, call.limit)
  }

  datatype Step = Trigger(action: Action) | Respond | RespondWith(page: Page) | Error(message: string)

  /** `Respond` is the answer of an unchanging server; `RespondWith` that of any server at all. */
  ghost predicate Enabled(s: State, step: Step) {
    step.Trigger? || s.call.Some?
  }

  ghost function Take(server: Server, s: State, step: Step): State
    requires Enabled(s, step)
  {
    match step
    case Trigger(action) => Triggered(s, action)
    case Respond => Succeeded(s, Reply(server, s.call.value))
    case RespondWith(page) => Succeeded(s, page)
    case Error(message) => Failed(s, message)
  }

  ghost predicate IsRun(server: Server, s: State, steps: seq<Step>)
    decreases |steps|
  {
    steps == [] || (Enabled(s, steps[0]) && IsRun(server, Take(server, s, steps[0]), steps[1..]))
  }

  ghost function After(server: Server, s: State, steps: seq<Step>): State
    requires IsRun(server, s, steps)
    decreases |steps|
  {
    if steps == [] then s else After(server, Take(server, s, steps[0]), steps[1..])
  }

  // ----- An unchanging list --------------------------------------------------------------------

  /** The state shows a prefix of the list for its own bucket and timezone, and a waiting handler
      captured exactly that. */
  ghost predicate ShowsPrefix(server: Server, s: State) {
    var list := server(s.bucket, s.tz);
    s.timeline.points <= list && s.timeline.total == |list| &&
    (s.isLoading <==> s.call.Some?) &&
    (s.call.Some? ==> s.call.value == RequestFor(s, s.call.value.action))
  }

  lemma {:induction false} NothingSeen(seen: set<string>, points: seq<Point>)
    requires forall i :: 0 <= i < |points| ==> points[i].id !in seen
    ensures Fresh(seen, points) == points
  {
    if points == [] {
    } else {
      NothingSeen(seen, points[1..]);
    }
  }

  lemma NotBefore(list: seq<Point>, loaded: nat, m: nat)
    requires DistinctIds(list) && loaded <= m < |list|
    ensures list[m].id !in Ids(list[..loaded])
  {
    forall k | 0 <= k < loaded ensures list[..loaded][k].id != list[m].id {
      assert list[..loaded][k] == list[k];
    }
  }

  /** Against an unchanging list the de-duplication drops nothing. */
  lemma NextPageIsFresh(list: seq<Point>, loaded: nat, limit: nat)
    requires DistinctIds(list) && loaded <= |list|
    ensures list[..loaded] + Fresh(Ids(list[..loaded]), Slice(list, loaded, limit).points)
            == list[..Min(loaded + limit, |list|)]
  {
    var page := Slice(list, loaded, limit).points;
    forall i | 0 <= i < |page|
      ensures page[i].id !in Ids(list[..loaded])
    {
      assert page[i] == list[loaded + i];
      NotBefore(list, loaded, loaded + i);
    }
    NothingSeen(Ids(list[..loaded]), page);
    PrefixGrows(list, loaded, Min(loaded + limit, |list|));
  }

  lemma PrefixGrows(list: seq<Point>, a: nat, b: nat)
    requires a <= b <= |list|
    ensures list[..a] + list[a..b] == list[..b]
  {
  }

  lemma StepShowsPrefix(server: Server, s: State, step: Step)
    requires IsServer(server) && ShowsPrefix(server, s) && Enabled(s, step) && !step.RespondWith?
    ensures ShowsPrefix(server, Take(server, s, step))
    ensures step.Respond? && s.call.value.action.LoadMore? ==>
              |Take(server, s, step).timeline.points| == Min(|s.timeline.points| + s.timeline.limit, s.timeline.total)
  {
    if step.Respond? && s.call.value.action.LoadMore? {
      var list := server(s.bucket, s.tz);
      assert s.timeline.points == list[..|s.timeline.points|];
      NextPageIsFresh(list, |s.timeline.points|, s.timeline.limit);
    }
  }

  /** What pressing a control does: an idle section takes the action up exactly when there is something to
      do, and a busy one never does. */
  lemma TriggerIsTakenUp(s: State, action: Action)
    requires s.isLoading <==> s.call.Some?
    ensures var s' := Triggered(s, action);
            var wanted := match action case LoadMore => |s.timeline.points| < s.timeline.total
                                       case ChangeBucket(bucket) => bucket != s.bucket
                                       case ChangeTz(tz) => tz != s.tz;
            (s.call.None? && wanted ==>
               s'.isLoading && s'.call.Some? && s'.call.value.action == action && s'.error == None) &&
            (s.call.Some? || !wanted ==> s' == s) &&
            s'.timeline == s.timeline && s'.bucket == s.bucket && s'.tz == s.tz
  {
  }

  /** A failure is reported, and leaves what is shown alone. */
  lemma FailureKeepsList(s: State, message: string)
    requires s.call.Some?
    ensures Failed(s, message) == State(s.timeline, s.bucket, s.tz, false, Some(message), None)
  {
  }

  /** The answer to a change of bucket or timezone is the first page of exactly what was asked for; the
      timezone keeps through a change of bucket, and a change of timezone switches to days. */
  lemma ChangeShowsFirstPage(server: Server, s: State)
    requires ShowsPrefix(server, s) && s.call.Some? && !s.call.value.action.LoadMore?
    ensures var s', action := Take(server, s, Respond), s.call.value.action;
            s'.bucket == (if action.ChangeBucket? then action.bucket else Day) &&
            s'.tz == (if action.ChangeTz? then action.tz else s.tz) &&
            s'.timeline.points == server(s'.bucket, s'.tz)[..Min(s.timeline.limit, |server(s'.bucket, s'.tz)|)] &&
            s'.timeline.limit == s.timeline.limit
  {
  }

  /** Any sequence of successful and failing actions: the points are always a prefix of the list for
      exactly the current bucket and timezone, and all of it once there is no more to load. */
  lemma {:induction false} PointsArePrefix(server: Server, s: State, steps: seq<Step>)
    requires IsServer(server) && ShowsPrefix(server, s) && IsRun(server, s, steps)
    requires forall i :: 0 <= i < |steps| ==> !steps[i].RespondWith?
    ensures var s' := After(server, s, steps);
            ShowsPrefix(server, s') && (!HasMore(s') ==> s'.timeline.points == server(s'.bucket, s'.tz))
    decreases |steps|
  {
    if steps == [] {
    } else {
      StepShowsPrefix(server, s, steps[0]);
      PointsArePrefix(server, Take(server, s, steps[0]), steps[1..]);
    }
  }

  // ----- A changing list -----------------------------------------------------------------------

  lemma {:induction false} FreshMembers(seen: set<string>, points: seq<Point>, p: Point)
    ensures p in Fresh(seen, points) <==> p in points && p.id !in seen
  {
    if points == [] {
    } else {
      FreshMembers(seen, points[1..], p);
      assert p in points <==> p == points[0] || p in points[1..];
    }
  }

  lemma {:induction false} FreshIsDistinct(seen: set<string>, points: seq<Point>)
    requires DistinctIds(points)
    ensures DistinctIds(Fresh(seen, points))
    ensures forall p :: p in Fresh(seen, points) <==> p in points && p.id !in seen
  {
    forall p ensures p in Fresh(seen, points) <==> p in points && p.id !in seen {
      FreshMembers(seen, points, p);
    }
    if points == [] {
    } else {
      var rest := Fresh(seen, points[1..]);
      FreshIsDistinct(seen, points[1..]);
      forall j | 0 <= j < |rest|
        ensures rest[j].id != points[0].id
      {
        FreshMembers(seen, points[1..], rest[j]);
        var i :| 0 <= i < |points[1..]| && points[1..][i] == rest[j];
        assert points[i + 1] == rest[j];
      }
    }
  }

  ghost predicate ShowsDistinct(s: State) {
    DistinctIds(s.timeline.points) && (s.call.Some? ==> s.call.value.captured == s.timeline)
  }

  /** Whatever list each page comes from, no id is ever shown twice. */
  lemma {:induction false} IdsStayDistinct(server: Server, s: State, steps: seq<Step>)
    requires IsServer(server) && ShowsDistinct(s) && IsRun(server, s, steps)
    requires forall i :: 0 <= i < |steps| && steps[i].RespondWith? ==> DistinctIds(steps[i].page.points)
    ensures ShowsDistinct(After(server, s, steps))
    decreases |steps|
  {
    if steps == [] {
    } else {
      if steps[0].Respond? {
        var call := s.call.value;
        SliceIsDistinct(server(call.bucket, call.tz), call.offset, call.limit);
        SucceededIsDistinct(s, Reply(server, call));
      } else if steps[0].RespondWith? {
        SucceededIsDistinct(s, steps[0].page);
      }
      IdsStayDistinct(server, Take(server, s, steps[0]), steps[1..]);
    }
  }

  lemma SucceededIsDistinct(s: State, page: Page)
    requires ShowsDistinct(s) && s.call.Some? && DistinctIds(page.points)
    ensures ShowsDistinct(Succeeded(s, page))
  {
    if s.call.value.action.LoadMore? {
      var loaded := s.timeline.points;
      var added := Fresh(Ids(loaded), page.points);
      FreshIsDistinct(Ids(loaded), page.points);
      forall i, j | 0 <= i < |loaded| && 0 <= j < |added|
        ensures loaded[i].id != added[j].id
      {
        assert added[j] in added;
      }
    }
  }

  // ----- What a changed list still shows -------------------------------------------------------

  /** A "Load more" is waiting; it captured the timeline the state still holds. */
  ghost predicate IsLoading(s: State) {
    s.call.Some? && s.call.value == RequestFor(s, LoadMore)
  }

  /** Its answer from a list that may have changed since the first page. */
  function Loaded(s: State, list: seq<Point>): State
    requires s.call.Some?
  {
    Succeeded(s, Slice(list, s.call.value.offset, s.call.value.limit))
  }

  predicate Shows(s: State, p: Point) {
    p.id in Ids(s.timeline.points)
  }

  /** The indices of the page that the next "Load more" asks for. */
  predicate InWindow(s: State, i: nat) {
    |s.timeline.points| <= i < |s.timeline.points| + s.timeline.limit
  }

  lemma IdsJoin(a: seq<Point>, b: seq<Point>, id: string)
    ensures id in Ids(a + b) <==> id in Ids(a) || id in Ids(b)
  {
    if id in Ids(a) {
      var k :| 0 <= k < |a| && a[k].id == id;
      assert (a + b)[k].id == id;
    }
    if id in Ids(b) {
      var k :| 0 <= k < |b| && b[k].id == id;
      assert (a + b)[|a| + k].id == id;
    }
  }

  lemma {:induction false} FreshIds(seen: set<string>, points: seq<Point>, id: string)
    ensures id in Ids(Fresh(seen, points)) <==> id in Ids(points) && id !in seen
  {
    if points == [] {
    } else {
      var first := [points[0]];
      FreshIds(seen, points[1..], id);
      IdsJoin(first, points[1..], id);
      assert points == first + points[1..];
      assert id in Ids(first) <==> first[0].id == id;
      if points[0].id in seen {
        assert Fresh(seen, points) == Fresh(seen, points[1..]);
      } else {
        IdsJoin(first, Fresh(seen, points[1..]), id);
      }
    }
  }

  lemma SliceIds(list: seq<Point>, offset: nat, limit: nat, i: nat)
    requires DistinctIds(list) && i < |list|
    ensures list[i].id in Ids(Slice(list, offset, limit).points) <==> offset <= i < offset + limit
  {
    var page := Slice(list, offset, limit).points;
    if offset <= i < offset + limit {
      assert page[i - offset] == list[i];
    }
    if list[i].id in Ids(page) {
      var k :| 0 <= k < |page| && page[k].id == list[i].id;
      assert page[k] == list[offset + k];
    }
  }

  /** For any list at the time of the answer: a fight of it is shown afterwards if and only if it was
      shown before or lies in the requested window. */
  lemma LoadMoreShows(s: State, list: seq<Point>, i: nat)
    requires DistinctIds(list) && IsLoading(s) && i < |list|
    ensures Shows(Loaded(s, list), list[i]) <==> Shows(s, list[i]) || InWindow(s, i)
  {
    var loaded, page := s.timeline.points, Slice(list, |s.timeline.points|, s.timeline.limit).points;
    FreshIds(Ids(loaded), page, list[i].id);
    IdsJoin(loaded, Fresh(Ids(loaded), page), list[i].id);
    SliceIds(list, |loaded|, s.timeline.limit, i);
  }

  /** So the answer completes the list exactly when every fight not shown yet lies in the window. */
  lemma LoadMoreCompletes(s: State, list: seq<Point>)
    requires DistinctIds(list) && IsLoading(s)
    ensures (forall i :: 0 <= i < |list| ==> Shows(Loaded(s, list), list[i])) <==>
            (forall i :: 0 <= i < |list| && !Shows(s, list[i]) ==> InWindow(s, i))
  {
    forall i | 0 <= i < |list|
      ensures Shows(Loaded(s, list), list[i]) <==> Shows(s, list[i]) || InWindow(s, i)
    {
      LoadMoreShows(s, list, i);
    }
  }

  /** And the answer adds nothing exactly when every fight in the window is shown already: from then on
      loading more repeats the same request against the same list. */
  lemma LoadMoreAddsNothing(s: State, list: seq<Point>)
    requires DistinctIds(list) && IsLoading(s)
    ensures Loaded(s, list).timeline.points == s.timeline.points <==>
            forall i :: 0 <= i < |list| && InWindow(s, i) ==> Shows(s, list[i])
  {
    var offset, limit := |s.timeline.points|, s.timeline.limit;
    var page := Slice(list, offset, limit).points;
    var seen := Ids(s.timeline.points);
    assert Loaded(s, list).timeline.points == s.timeline.points + Fresh(seen, page);
    NothingIsFresh(seen, page);
    WindowSeen(seen, list, offset, limit);
  }

  lemma WindowSeen(seen: set<string>, list: seq<Point>, offset: nat, limit: nat)
    ensures (forall k :: 0 <= k < |Slice(list, offset, limit).points| ==>
               Slice(list, offset, limit).points[k].id in seen)
            <==> forall i :: offset <= i < offset + limit && i < |list| ==> list[i].id in seen
  {
    var page := Slice(list, offset, limit).points;
    assert forall k :: 0 <= k < |page| ==> page[k] == list[offset + k];
    if forall k :: 0 <= k < |page| ==> page[k].id in seen {
      forall i | offset <= i < offset + limit && i < |list| ensures list[i].id in seen {
        assert page[i - offset] == list[i];
      }
    }
  }

  lemma {:induction false} NothingIsFresh(seen: set<string>, points: seq<Point>)
    ensures Fresh(seen, points) == [] <==> forall k :: 0 <= k < |points| ==> points[k].id in seen
  {
    if points == [] {
    } else {
      NothingIsFresh(seen, points[1..]);
      assert forall k :: 0 < k < |points| ==> points[k] == points[1..][k - 1];
      assert forall k :: 0 <= k < |points| - 1 ==> points[1..][k] == points[k + 1];
    }
  }

  /** Only "Load more" is pressed, so the bucket and the timezone stay. */
  ghost predicate LoadsOnly(steps: seq<Step>) {
    forall i :: 0 <= i < |steps| ==> !steps[i].RespondWith? && (steps[i].Trigger? ==> steps[i].action.LoadMore?)
  }

  /** The fight `list[i]` lies before the end of what is loaded, and was not loaded. */
  ghost predicate IsPassed(server: Server, s: State, i: nat) {
    var list := server(s.bucket, s.tz);
    (s.call.Some? ==> IsLoading(s)) && i < |list| && i < |s.timeline.points| && !Shows(s, list[i])
  }

  lemma StepKeepsPassed(server: Server, s: State, step: Step, i: nat)
    requires IsServer(server) && Enabled(s, step) && LoadsOnly([step]) && IsPassed(server, s, i)
    ensures IsPassed(server, Take(server, s, step), i)
    ensures Take(server, s, step).bucket == s.bucket && Take(server, s, step).tz == s.tz
  {
    assert step == [step][0];
    if step.Respond? {
      LoadMoreShows(s, server(s.bucket, s.tz), i);
    }
  }

  /** A fight passed over is never shown, however often more is loaded. */
  lemma {:induction false} PassedIsNeverShown(server: Server, s: State, steps: seq<Step>, i: nat)
    requires IsServer(server) && IsRun(server, s, steps) && LoadsOnly(steps) && IsPassed(server, s, i)
    ensures IsPassed(server, After(server, s, steps), i)
    ensures After(server, s, steps).bucket == s.bucket && After(server, s, steps).tz == s.tz
    decreases |steps|
  {
    if steps == [] {
    } else {
      StepKeepsPassed(server, s, steps[0], i);
      PassedIsNeverShown(server, Take(server, s, steps[0]), steps[1..], i);
    }
  }

  lemma {:induction false} IdsCount(points: seq<Point>)
    ensures |Ids(points)| <= |points|
    ensures DistinctIds(points) ==> |Ids(points)| == |points|
    decreases |points|
  {
    if points == [] {
      assert Ids(points) == {};
    } else {
      var before, last := points[..|points| - 1], points[|points| - 1];
      IdsCount(before);
      assert points == before + [last];
      forall id ensures id in Ids(points) <==> id in Ids(before) || id == last.id {
        IdsJoin(before, [last], id);
        assert [last][0].id in Ids([last]);
      }
      assert Ids(points) == Ids(before) + {last.id};
    }
  }

  /** What is shown is part of the list, and not all of it. */
  ghost predicate IsPartial(server: Server, s: State, i: nat) {
    IsPassed(server, s, i) && ShowsDistinct(s) && HasMore(s) && Ids(s.timeline.points) <= Ids(server(s.bucket, s.tz))
  }

  lemma LoadedIsPartial(s: State, list: seq<Point>, i: nat)
    requires DistinctIds(list) && IsLoading(s) && ShowsDistinct(s) && Ids(s.timeline.points) <= Ids(list)
    requires i < |list| && !Shows(Loaded(s, list), list[i])
    ensures Ids(Loaded(s, list).timeline.points) <= Ids(list) && HasMore(Loaded(s, list))
  {
    var loaded, page := s.timeline.points, Slice(list, |s.timeline.points|, s.timeline.limit).points;
    var points := Loaded(s, list).timeline.points;
    forall id | id in Ids(points) ensures id in Ids(list) {
      IdsJoin(loaded, Fresh(Ids(loaded), page), id);
      FreshIds(Ids(loaded), page, id);
    }
    SliceIsDistinct(list, |loaded|, s.timeline.limit);
    SucceededIsDistinct(s, Slice(list, |loaded|, s.timeline.limit));
    IdsCount(points);
    IdsCount(list);
    assert list[i].id in Ids(list);
    ProperSubset(Ids(points), Ids(list), list[i].id);
  }

  lemma ProperSubset(a: set<string>, b: set<string>, x: string)
    requires a <= b && x in b && x !in a
    ensures |a| < |b|
  {
    assert b == a + (b - a) && x in b - a;
  }

  lemma {:induction false} PartialStaysPartial(server: Server, s: State, steps: seq<Step>, i: nat)
    requires IsServer(server) && IsRun(server, s, steps) && LoadsOnly(steps) && IsPartial(server, s, i)
    ensures IsPartial(server, After(server, s, steps), i)
    decreases |steps|
  {
    if steps == [] {
    } else {
      StepKeepsPassed(server, s, steps[0], i);
      if steps[0].Respond? {
        var call := s.call.value;
        SliceIsDistinct(server(call.bucket, call.tz), call.offset, call.limit);
        SucceededIsDistinct(s, Reply(server, call));
        LoadedIsPartial(s, server(s.bucket, s.tz), i);
      }
      PartialStaysPartial(server, Take(server, s, steps[0]), steps[1..], i);
    }
  }

  // ----- When loading more completes a changed list --------------------------------------------

  /** No fight of the list is missing before the end of what is loaded. */
  ghost predicate Gapless(s: State, list: seq<Point>) {
    forall i :: 0 <= i < |list| && i < |s.timeline.points| ==> Shows(s, list[i])
  }

  ghost predicate ShowsAll(s: State, list: seq<Point>) {
    forall i :: 0 <= i < |list| ==> Shows(s, list[i])
  }

  /** A section that shows distinct points and waits for nothing but more of them. */
  ghost predicate CanLoad(s: State) {
    ShowsDistinct(s) && (s.call.Some? ==> IsLoading(s))
  }

  /** Distinct points among which a prefix of the list of the same length is found are that prefix. */
  lemma GaplessIsPrefix(s: State, list: seq<Point>, i: nat)
    requires DistinctIds(list) && CanLoad(s) && Gapless(s, list) && |s.timeline.points| <= i < |list|
    ensures !Shows(s, list[i])
  {
    var points, prefix := s.timeline.points, list[..|s.timeline.points|];
    IdsCount(points);
    IdsCount(prefix);
    forall id | id in Ids(prefix) ensures id in Ids(points) {
      var k :| 0 <= k < |prefix| && prefix[k].id == id;
      assert list[k] == prefix[k] && Shows(s, list[k]);
    }
    SameSize(Ids(prefix), Ids(points));
    NotBefore(list, |points|, i);
  }

  lemma SameSize(a: set<string>, b: set<string>)
    requires a <= b && |a| == |b|
    ensures a == b
  {
    assert b == a + (b - a);
  }

  /** Against a list without gaps so far, an answer loads the whole window. */
  lemma GaplessLoads(s: State, list: seq<Point>)
    requires DistinctIds(list) && IsLoading(s) && CanLoad(s) && Gapless(s, list) && |s.timeline.points| <= |list|
    ensures Gapless(Loaded(s, list), list) && CanLoad(Loaded(s, list))
    ensures |Loaded(s, list).timeline.points| == Min(|s.timeline.points| + s.timeline.limit, |list|)
  {
    var loaded, limit := s.timeline.points, s.timeline.limit;
    var page := Slice(list, |loaded|, limit).points;
    forall k | 0 <= k < |page| ensures page[k].id !in Ids(loaded) {
      assert page[k] == list[|loaded| + k];
      GaplessIsPrefix(s, list, |loaded| + k);
    }
    NothingSeen(Ids(loaded), page);
    SliceIsDistinct(list, |loaded|, limit);
    SucceededIsDistinct(s, Slice(list, |loaded|, limit));
    forall i | 0 <= i < |list| && i < |Loaded(s, list).timeline.points| ensures Shows(Loaded(s, list), list[i]) {
      LoadMoreShows(s, list, i);
    }
  }

  function Answers(steps: seq<Step>): nat {
    if steps == [] then 0 else (if steps[0].Respond? then 1 else 0) + Answers(steps[1..])
  }

  lemma OneAnswerLess(points: nat, limit: nat, answers: nat, all: nat)
    requires points <= all
    ensures points + (answers + 1) * limit >= all <==> Min(points + limit, all) + answers * limit >= all
  {
    assert (answers + 1) * limit == answers * limit + limit;
  }

  lemma {:induction false} GaplessRunLoads(server: Server, s: State, steps: seq<Step>)
    requires IsServer(server) && IsRun(server, s, steps) && LoadsOnly(steps) && CanLoad(s)
    requires Gapless(s, server(s.bucket, s.tz)) && |s.timeline.points| <= |server(s.bucket, s.tz)|
    ensures ShowsAll(After(server, s, steps), server(s.bucket, s.tz)) <==>
            |s.timeline.points| + Answers(steps) * s.timeline.limit >= |server(s.bucket, s.tz)|
    decreases |steps|
  {
    var list := server(s.bucket, s.tz);
    if steps == [] {
      if |s.timeline.points| < |list| {
        GaplessIsPrefix(s, list, |s.timeline.points|);
      }
    } else {
      assert LoadsOnly(steps[1..]);
      if steps[0].Respond? {
        GaplessLoads(s, list);
        OneAnswerLess(|s.timeline.points|, s.timeline.limit, Answers(steps[1..]), |list|);
      }
      GaplessRunLoads(server, Take(server, s, steps[0]), steps[1..]);
    }
  }

  lemma {:induction false} LoadingKeepsShown(server: Server, s: State, steps: seq<Step>, i: nat)
    requires IsServer(server) && IsRun(server, s, steps) && LoadsOnly(steps) && (s.call.Some? ==> IsLoading(s))
    requires i < |server(s.bucket, s.tz)| && Shows(s, server(s.bucket, s.tz)[i])
    ensures Shows(After(server, s, steps), server(s.bucket, s.tz)[i])
    decreases |steps|
  {
    if steps == [] {
    } else {
      assert LoadsOnly(steps[1..]);
      if steps[0].Respond? {
        LoadMoreShows(s, server(s.bucket, s.tz), i);
      }
      LoadingKeepsShown(server, Take(server, s, steps[0]), steps[1..], i);
    }
  }

  /** Which runs of loading more show all of a list that changed before: those that start with no gap and
      whose answers are enough to reach its end. */
  lemma RunCompletesList(server: Server, s: State, steps: seq<Step>)
    requires IsServer(server) && IsRun(server, s, steps) && LoadsOnly(steps) && CanLoad(s)
    ensures ShowsAll(After(server, s, steps), server(s.bucket, s.tz)) <==>
            Gapless(s, server(s.bucket, s.tz)) &&
            |s.timeline.points| + Answers(steps) * s.timeline.limit >= |server(s.bucket, s.tz)|
  {
    if !Gapless(s, server(s.bucket, s.tz)) {
      GapNeverCloses(server, s, steps);
    } else {
      GaplessRunCompletes(server, s, steps);
    }
  }

  lemma NeverLess(points: nat, limit: nat, answers: nat)
    ensures points + answers * limit >= points
  {
  }

  lemma GaplessRunCompletes(server: Server, s: State, steps: seq<Step>)
    requires IsServer(server) && IsRun(server, s, steps) && LoadsOnly(steps) && CanLoad(s)
    requires Gapless(s, server(s.bucket, s.tz))
    ensures ShowsAll(After(server, s, steps), server(s.bucket, s.tz)) <==>
            |s.timeline.points| + Answers(steps) * s.timeline.limit >= |server(s.bucket, s.tz)|
  {
    if |s.timeline.points| <= |server(s.bucket, s.tz)| {
      GaplessRunLoads(server, s, steps);
    } else {
      LongEnoughShowsAll(server, s, steps);
      NeverLess(|s.timeline.points|, s.timeline.limit, Answers(steps));
    }
  }

  lemma GapNeverCloses(server: Server, s: State, steps: seq<Step>)
    requires IsServer(server) && IsRun(server, s, steps) && LoadsOnly(steps) && CanLoad(s)
    requires !Gapless(s, server(s.bucket, s.tz))
    ensures !ShowsAll(After(server, s, steps), server(s.bucket, s.tz))
  {
    var list := server(s.bucket, s.tz);
    var i :| 0 <= i < |list| && i < |s.timeline.points| && !Shows(s, list[i]);
    PassedIsNeverShown(server, s, steps, i);
    assert !Shows(After(server, s, steps), list[i]);
  }

  lemma LongEnoughShowsAll(server: Server, s: State, steps: seq<Step>)
    requires IsServer(server) && IsRun(server, s, steps) && LoadsOnly(steps) && CanLoad(s)
    requires Gapless(s, server(s.bucket, s.tz)) && |server(s.bucket, s.tz)| <= |s.timeline.points|
    ensures ShowsAll(After(server, s, steps), server(s.bucket, s.tz))
  {
    var list := server(s.bucket, s.tz);
    forall i | 0 <= i < |list| ensures Shows(After(server, s, steps), list[i]) {
      LoadingKeepsShown(server, s, steps, i);
    }
  }

  /** The state of the section when the server rendered the first page of `list`. */
  function FirstPage(list: seq<Point>, limit: nat, bucket: Bucket, tz: string): State {
    State(Slice(list, 0, limit), bucket, tz, false, None, None)
  }

  lemma FirstPageIsPartial(server: Server, list: seq<Point>, newest: Point, limit: nat, bucket: Bucket, tz: string)
    requires IsServer(server) && server(bucket, tz) == [newest] + list && 0 < limit < |list|
    ensures IsPartial(server, FirstPage(list, limit, bucket, tz), 0)
  {
    var all, points := [newest] + list, Slice(list, 0, limit).points;
    assert DistinctIds(all);
    assert forall k :: 0 <= k < |points| ==> points[k] == all[k + 1];
    forall id | id in Ids(points) ensures id in Ids(all) {
      var k :| 0 <= k < |points| && points[k].id == id;
      assert all[k + 1].id == id;
    }
    forall k | 0 <= k < |points| ensures points[k].id != newest.id {
      assert all[0] == newest && points[k] == all[k + 1];
    }
  }

  /** A fight is added in front of the list after its first page was rendered: in every run that loads
      more, from that page on, the newest fight is never shown, and "Load more" stays on offer. */
  lemma NewestFightNeverAppears(server: Server, list: seq<Point>, newest: Point, limit: nat,
                                bucket: Bucket, tz: string, steps: seq<Step>)
    requires IsServer(server) && server(bucket, tz) == [newest] + list && 0 < limit < |list|
    requires IsRun(server, FirstPage(list, limit, bucket, tz), steps) && LoadsOnly(steps)
    ensures !Shows(After(server, FirstPage(list, limit, bucket, tz), steps), newest)
    ensures HasMore(After(server, FirstPage(list, limit, bucket, tz), steps))
  {
    var s := FirstPage(list, limit, bucket, tz);
    FirstPageIsPartial(server, list, newest, limit, bucket, tz);
    PartialStaysPartial(server, s, steps, 0);
    PassedIsNeverShown(server, s, steps, 0);
  }

  /** Such runs exist: one answer announces the newest fight in the total without showing it. */
  lemma NewestFightIsAnnounced(server: Server, list: seq<Point>, newest: Point, limit: nat, bucket: Bucket, tz: string)
    requires IsServer(server) && server(bucket, tz) == [newest] + list && 0 < limit < |list|
    ensures var s, steps := FirstPage(list, limit, bucket, tz), [Trigger(LoadMore), Respond];
            IsRun(server, s, steps) && LoadsOnly(steps) && After(server, s, steps).timeline.total == |list| + 1
  {
    var s, steps := FirstPage(list, limit, bucket, tz), [Trigger(LoadMore), Respond];
    var waiting := Triggered(s, LoadMore);
    var done := Take(server, waiting, Respond);
    assert steps[1..] == [Respond] && [Respond][1..] == [];
    assert IsRun(server, done, []) && IsRun(server, waiting, [Respond]);
    assert After(server, waiting, [Respond]) == done;
  }
}
