/**
  Instant-cast detection: the rate gate of the effect finders, the reconstruction of animated-cast
  windows, and the rule that composes the two.
*/
module InstantCasts {
  import opened InsertionOrder
  import opened Options
  import StableSort

  type Agent = int

  datatype Hit = Hit(agent: Agent, time: int)

  const SERVER_DELAY := 10
  const DEFAULT_ICD := 50

  // ----- Sorting -------------------------------------------------------------------------------

  predicate AtMost(a: Hit, b: Hit) {
    a.agent < b.agent || (a.agent == b.agent && a.time <= b.time)
  }

  ghost predicate IsSorted(s: seq<Hit>) {
    forall i, j :: 0 <= i < j < |s| ==> AtMost(s[i], s[j])
  }

  ghost predicate IsStrictlySorted(s: seq<Hit>) {
    forall i, j :: 0 <= i < j < |s| ==> AtMost(s[i], s[j]) && s[i] != s[j]
  }

  function Sort(hits: seq<Hit>): seq<Hit> {
    StableSort.Sort(hits, AtMost)
  }

  lemma SortSorts(hits: seq<Hit>)
    ensures IsSorted(Sort(hits))
    ensures forall x :: x in Sort(hits) <==> x in hits
  {
    StableSort.SortSorts(hits, AtMost);
  }

  lemma HasMember(s: seq<Hit>)
    requires s != []
    ensures exists x :: x in s
  {
    assert s[0] in s;
  }

  lemma {:induction false} StrictlySortedUnique(s: seq<Hit>, t: seq<Hit>)
    requires IsStrictlySorted(s) && IsStrictlySorted(t)
    requires forall x :: x in s <==> x in t
    ensures s == t
    decreases |s|
  {
    if s == [] {
      if t != [] {
        HasMember(t);
      }
    } else {
      assert s[|s| - 1] in t && t[|t| - 1] in s;
      var s', t' := s[..|s| - 1], t[..|t| - 1];
      assert s == s' + [s[|s| - 1]] && t == t' + [t[|t| - 1]];
      assert s[|s| - 1] == t[|t| - 1];
      forall x
        ensures x in s' <==> x in t'
      {
        assert x in s' ==> x in s && x != s[|s| - 1];
        assert x in t' ==> x in t && x != t[|t| - 1];
      }
      StrictlySortedUnique(s', t');
    }
  }

  // ----- The gate ------------------------------------------------------------------------------

  /** The hit at `n` is the first of its agent, or at least one ICD after the hit before it. */
  predicate Opens(s: seq<Hit>, n: nat, icd: int)
    requires n < |s|
  {
    n == 0 || s[n - 1].agent != s[n].agent || s[n].time - s[n - 1].time >= icd
  }

  /** The gate on hits in order: every hit slides the window, kept or not. */
  function Gate(s: seq<Hit>, icd: int): seq<Hit> {
    if s == [] then []
    else Gate(s[..|s| - 1], icd) + if Opens(s, |s| - 1, icd) then [s[|s| - 1]] else []
  }

  function Gated(hits: seq<Hit>, icd: int): seq<Hit> {
    Gate(Sort(hits), icd)
  }

  /** The loop's table after some hits: the last time of every agent seen. */
  function LastTimes(s: seq<Hit>): map<Agent, int> {
    if s == [] then map[] else LastTimes(s[..|s| - 1])[s[|s| - 1].agent := s[|s| - 1].time]
  }

  /** The test of the loop, against its table. */
  predicate Suppressed(last: map<Agent, int>, h: Hit, icd: int) {
    h.agent in last && h.time - last[h.agent] < icd
  }

  method ApplyIcd(hits: seq<Hit>, icd: int) returns (kept: seq<Hit>)
    ensures kept == Gated(hits, icd)
  {
    var s := Sort(hits);
    var last: map<Agent, int> := map[];
    kept := [];
    for n := 0 to |s|
      invariant kept == Gate(s[..n], icd) && last == LastTimes(s[..n])
    {
      var h := s[n];
      var previous := if h.agent in last then Some(last[h.agent]) else None;
      GateNext(hits, n, icd);
      last := last[h.agent := h.time];
      if previous.Some? && h.time - previous.value < icd {
        continue;
      }
      kept := kept + [h];
    }
    assert s[..|s|] == s;
  }

  /** One round of the loop on the sorted hits. */
  lemma GateNext(hits: seq<Hit>, n: nat, icd: int)
    requires n < |Sort(hits)|
    ensures var s := Sort(hits);
            var last := LastTimes(s[..n]);
            LastTimes(s[..n + 1]) == last[s[n].agent := s[n].time] &&
            Gate(s[..n + 1], icd) == Gate(s[..n], icd) + if Suppressed(last, s[n], icd) then [] else [s[n]]
  {
    var s := Sort(hits);
    var before := s[..n];
    SortSorts(hits);
    assert s[..n + 1] == before + [s[n]] && (before + [s[n]])[..n] == before;
    forall k | 0 <= k < n ensures AtMost(before[k], s[n]) {
      assert before[k] == s[k];
    }
    LastTimeIsNeighbour(before, s[n]);
    assert Opens(before + [s[n]], n, icd) <==> !Suppressed(LastTimes(before), s[n], icd);
  }

  /** In order, the last time recorded for the next hit's agent is that of the neighbour. */
  lemma {:induction false} LastTimeIsNeighbour(s: seq<Hit>, h: Hit)
    requires IsSorted(s) && forall k :: 0 <= k < |s| ==> AtMost(s[k], h)
    ensures h.agent in LastTimes(s) <==> s != [] && s[|s| - 1].agent == h.agent
    ensures h.agent in LastTimes(s) ==> LastTimes(s)[h.agent] == s[|s| - 1].time
    decreases |s|
  {
    if s == [] {
    } else {
      LastTimeIsNeighbour(s[..|s| - 1], h);
      if |s| > 1 {
        assert AtMost(s[|s| - 2], s[|s| - 1]);
      }
    }
  }

  // ----- What the gate keeps -------------------------------------------------------------------

  /** No earlier hit of the same agent lies within one ICD: the first hit of a maximal burst. */
  ghost predicate LeadsBurst(hits: seq<Hit>, h: Hit, icd: int) {
    h in hits && forall g :: g in hits && g.agent == h.agent && g.time < h.time ==> h.time - g.time >= icd
  }

  ghost predicate OpensAt(s: seq<Hit>, h: Hit, icd: int) {
    exists n :: 0 <= n < |s| && s[n] == h && Opens(s, n, icd)
  }

  lemma OpensAtLonger(s: seq<Hit>, last: Hit, h: Hit, icd: int)
    ensures OpensAt(s + [last], h, icd) <==> OpensAt(s, h, icd) || (h == last && Opens(s + [last], |s|, icd))
  {
    var s' := s + [last];
    if OpensAt(s, h, icd) {
      var n :| 0 <= n < |s| && s[n] == h && Opens(s, n, icd);
      assert s'[n] == h && Opens(s', n, icd);
    }
    if OpensAt(s', h, icd) {
      var n :| 0 <= n < |s'| && s'[n] == h && Opens(s', n, icd);
      if n < |s| {
        assert s[n] == h && Opens(s, n, icd);
      }
    }
  }

  lemma {:induction false} GateMembers(s: seq<Hit>, icd: int)
    ensures forall h :: h in Gate(s, icd) <==> OpensAt(s, h, icd)
    decreases |s|
  {
    if s == [] {
    } else {
      var before, last := s[..|s| - 1], s[|s| - 1];
      assert s == before + [last];
      GateMembers(before, icd);
      forall h
        ensures h in Gate(s, icd) <==> OpensAt(s, h, icd)
      {
        OpensAtLonger(before, last, h, icd);
      }
    }
  }

  lemma {:induction false} GateIsStrict(s: seq<Hit>, icd: int)
    requires IsSorted(s) && icd > 0
    ensures IsStrictlySorted(Gate(s, icd))
    decreases |s|
  {
    if s == [] {
    } else {
      var before, last := s[..|s| - 1], s[|s| - 1];
      GateIsStrict(before, icd);
      GateMembers(before, icd);
      var kept := Gate(before, icd);
      if Opens(s, |s| - 1, icd) {
        forall i | 0 <= i < |kept|
          ensures AtMost(kept[i], last) && kept[i] != last
        {
          assert kept[i] in kept;
          var n :| 0 <= n < |before| && before[n] == kept[i] && Opens(before, n, icd);
          BelowOpening(s, n, icd);
        }
      }
    }
  }

  /** A hit that opens lies strictly above everything before it. */
  lemma BelowOpening(s: seq<Hit>, n: nat, icd: int)
    requires IsSorted(s) && icd > 0 && n < |s| - 1 && Opens(s, |s| - 1, icd)
    ensures AtMost(s[n], s[|s| - 1]) && s[n] != s[|s| - 1]
  {
    assert n == |s| - 2 || AtMost(s[n], s[|s| - 2]);
    assert AtMost(s[|s| - 2], s[|s| - 1]);
  }

  /** For a positive ICD the gate keeps exactly the first hit of every burst, once, in order. */
  lemma GateKeepsBurstLeaders(hits: seq<Hit>, icd: int)
    requires icd > 0
    ensures IsStrictlySorted(Gated(hits, icd))
    ensures forall h :: h in Gated(hits, icd) <==> LeadsBurst(hits, h, icd)
  {
    var s := Sort(hits);
    SortSorts(hits);
    GateMembers(s, icd);
    GateIsStrict(s, icd);
    forall h
      ensures h in Gate(s, icd) <==> LeadsBurst(hits, h, icd)
    {
      if h in Gate(s, icd) {
        var n :| 0 <= n < |s| && s[n] == h && Opens(s, n, icd);
        forall g | g in hits && g.agent == h.agent && g.time < h.time
          ensures h.time - g.time >= icd
        {
          assert g in s;
          OpensAfterEarlier(s, n, g, icd);
        }
      }
      if LeadsBurst(hits, h, icd) {
        LeaderOpens(s, h, icd);
      }
    }
  }

  lemma OpensAfterEarlier(s: seq<Hit>, n: nat, g: Hit, icd: int)
    requires IsSorted(s) && n < |s| && Opens(s, n, icd) && g in s && g.agent == s[n].agent && g.time < s[n].time
    ensures s[n].time - g.time >= icd
  {
    var m :| 0 <= m < |s| && s[m] == g;
    assert m < n;
    assert AtMost(s[m], s[n - 1]) || m == n - 1;
    assert AtMost(s[n - 1], s[n]);
  }

  lemma LeaderOpens(s: seq<Hit>, h: Hit, icd: int)
    requires IsSorted(s) && LeadsBurst(s, h, icd)
    ensures OpensAt(s, h, icd)
  {
    var n := FirstIndex(s, h);
    if n > 0 && s[n - 1].agent == h.agent {
      assert AtMost(s[n - 1], s[n]) && s[n - 1] in s;
    }
    assert Opens(s, n, icd);
  }

  ghost function FirstIndex(s: seq<Hit>, h: Hit): (n: nat)
    requires h in s
    ensures n < |s| && s[n] == h && h !in s[..n]
  {
    if s[0] == h then 0 else
      assert s == [s[0]] + s[1..];
      1 + FirstIndex(s[1..], h)
  }

  /** The result depends on the set of hits only, not on their order or multiplicity. */
  lemma GateIgnoresOrder(hits: seq<Hit>, hits': seq<Hit>, icd: int)
    requires icd > 0 && forall h :: h in hits <==> h in hits'
    ensures Gated(hits, icd) == Gated(hits', icd)
  {
    GateKeepsBurstLeaders(hits, icd);
    GateKeepsBurstLeaders(hits', icd);
    assert forall h :: LeadsBurst(hits, h, icd) <==> LeadsBurst(hits', h, icd);
    StrictlySortedUnique(Gated(hits, icd), Gated(hits', icd));
  }

  /** Kept hits of one agent are an ICD apart, so gating the result again changes nothing. */
  lemma GateIsIdempotent(hits: seq<Hit>, icd: int)
    requires icd > 0
    ensures forall g, h :: g in Gated(hits, icd) && h in Gated(hits, icd) && g.agent == h.agent && g.time < h.time
                           ==> h.time - g.time >= icd
    ensures Gated(Gated(hits, icd), icd) == Gated(hits, icd)
  {
    var kept := Gated(hits, icd);
    GateKeepsBurstLeaders(hits, icd);
    GateKeepsBurstLeaders(kept, icd);
    assert forall h :: h in kept ==> LeadsBurst(kept, h, icd);
    StrictlySortedUnique(Gated(kept, icd), kept);
  }

  /** The gate the source warns against: anchored on the last hit that was kept. */
  function Anchored(s: seq<Hit>, icd: int): seq<Hit> {
    if s == [] then []
    else
      var kept, h := Anchored(s[..|s| - 1], icd), s[|s| - 1];
      if kept != [] && kept[|kept| - 1].agent == h.agent && h.time - kept[|kept| - 1].time < icd then kept
      else kept + [h]
  }

  lemma {:induction false} AnchoredMembers(s: seq<Hit>, icd: int)
    ensures forall h :: h in Anchored(s, icd) ==> h in s
    decreases |s|
  {
    if s == [] {
    } else {
      AnchoredMembers(s[..|s| - 1], icd);
    }
  }

  lemma {:induction false} AnchoredKeepsLeaders(s: seq<Hit>, icd: int)
    requires IsSorted(s) && icd > 0
    ensures forall h :: LeadsBurst(s, h, icd) ==> h in Anchored(s, icd)
    decreases |s|
  {
    if s == [] {
    } else {
      var before, last := s[..|s| - 1], s[|s| - 1];
      AnchoredKeepsLeaders(before, icd);
      AnchoredMembers(before, icd);
      var kept := Anchored(before, icd);
      forall h | LeadsBurst(s, h, icd)
        ensures h in Anchored(s, icd)
      {
        if h in before {
          assert LeadsBurst(before, h, icd);
        } else if kept != [] && kept[|kept| - 1].agent == last.agent {
          var g := kept[|kept| - 1];
          assert g in kept && g in before;
          var k :| 0 <= k < |before| && before[k] == g;
          assert AtMost(s[k], s[|s| - 1]);
        }
      }
    }
  }

  /** Sliding the window on suppressed hits only ever removes hits: the tail of a burst goes. */
  lemma SlidingIsStricter(hits: seq<Hit>, icd: int)
    requires icd > 0
    ensures forall h :: h in Gated(hits, icd) ==> h in Anchored(Sort(hits), icd)
  {
    SortSorts(hits);
    GateKeepsBurstLeaders(hits, icd);
    AnchoredKeepsLeaders(Sort(hits), icd);
    assert forall h :: LeadsBurst(hits, h, icd) ==> LeadsBurst(Sort(hits), h, icd);
  }

  lemma AnchoringLetsTheTailThrough()
    ensures var burst := [Hit(1, 0), Hit(1, 40), Hit(1, 80)];
            Gate(burst, DEFAULT_ICD) == [Hit(1, 0)] && Anchored(burst, DEFAULT_ICD) == [Hit(1, 0), Hit(1, 80)]
  {
    var burst := [Hit(1, 0), Hit(1, 40), Hit(1, 80)];
    var one, two := [Hit(1, 0)], [Hit(1, 0), Hit(1, 40)];
    assert burst[..2] == two && two[..1] == one && one[..0] == [];
    assert Gate(one, 50) == one && Anchored(one, 50) == one;
    assert Gate(two, 50) == one && Anchored(two, 50) == one;
  }

  // ----- Cast windows --------------------------------------------------------------------------

  datatype Activation = Normal | Quickness | Minimum | Cancel | Reset | NoData {
    predicate Starts() {
      Normal? || Quickness?
    }
  }

  datatype Event = Event(agent: Agent, time: int, duration: int, activation: Activation)

  datatype Window = Window(start: int, end: int)

  /** The position of the last event of `agent`, if it has one. */
  function LastOf(events: seq<Event>, agent: Agent): (r: Option<nat>)
    ensures r.Some? ==> r.value < |events| && events[r.value].agent == agent
    ensures forall k :: (if r.Some? then r.value else -1) < k < |events| ==> events[k].agent != agent
  {
    if events == [] then None
    else if events[|events| - 1].agent == agent then Some(|events| - 1)
    else LastOf(events[..|events| - 1], agent)
  }

  /** When the agent's cast in progress began: its last event, provided that is a start. */
  function OpenSince(events: seq<Event>, agent: Agent): Option<int> {
    var last := LastOf(events, agent);
    if last.Some? && events[last.value].activation.Starts() then Some(events[last.value].time) else None
  }

  /** The window an ending event closes, given everything before it. */
  function WindowFor(before: seq<Event>, e: Event): Window {
    var since := OpenSince(before, e.agent);
    Window(if since.Some? then since.value else e.time - e.duration, e.time)
  }

  predicate Ends(e: Event, agent: Agent) {
    e.agent == agent && !e.activation.Starts()
  }

  /** One window per ending event of `agent`, in order. */
  function Closed(events: seq<Event>, agent: Agent): seq<Window> {
    if events == [] then []
    else
      var before, e := events[..|events| - 1], events[|events| - 1];
      Closed(before, agent) + if Ends(e, agent) then [WindowFor(before, e)] else []
  }

  /** And an empty window for a cast that never ended. */
  function Windows(events: seq<Event>, agent: Agent): seq<Window> {
    var since := OpenSince(events, agent);
    Closed(events, agent) + if since.Some? then [Window(since.value, since.value)] else []
  }

  function Get(windows: map<Agent, seq<Window>>, agent: Agent): seq<Window> {
    if agent in windows then windows[agent] else []
  }

  /** The loop's two dictionaries after the events `done`; `order` lists the keys of `open`. */
  ghost predicate Tracks(done: seq<Event>, order: seq<Agent>, open: map<Agent, int>, windows: map<Agent, seq<Window>>) {
    Distinct(order) && (forall a :: a in order <==> a in open) &&
    (forall a :: IsOpen(done, a, open) && Get(windows, a) == Closed(done, a))
  }

  ghost predicate IsOpen(done: seq<Event>, a: Agent, open: map<Agent, int>) {
    OpenSince(done, a) == if a in open then Some(open[a]) else None
  }

  lemma OneMoreEvent(done: seq<Event>, e: Event, a: Agent)
    ensures OpenSince(done + [e], a) ==
            if a != e.agent then OpenSince(done, a) else if e.activation.Starts() then Some(e.time) else None
    ensures Closed(done + [e], a) == Closed(done, a) + if Ends(e, a) then [WindowFor(done, e)] else []
  {
    var events := done + [e];
    assert events[..|events| - 1] == done && events[|events| - 1] == e;
    var last := LastOf(done, a);
    assert last.Some? ==> events[last.value] == done[last.value];
  }

  lemma TracksStart(done: seq<Event>, e: Event, order: seq<Agent>, open: map<Agent, int>,
                    windows: map<Agent, seq<Window>>)
    requires Tracks(done, order, open, windows) && e.activation.Starts()
    ensures Tracks(done + [e], if e.agent in open then order else order + [e.agent], open[e.agent := e.time], windows)
  {
    forall a
      ensures IsOpen(done + [e], a, open[e.agent := e.time]) && Get(windows, a) == Closed(done + [e], a)
    {
      OneMoreEvent(done, e, a);
      assert IsOpen(done, a, open);
    }
  }

  lemma TracksEnd(done: seq<Event>, e: Event, order: seq<Agent>, open: map<Agent, int>,
                  windows: map<Agent, seq<Window>>)
    requires Tracks(done, order, open, windows) && !e.activation.Starts()
    ensures IsOpen(done, e.agent, open)
    ensures Tracks(done + [e], Without(order, e.agent), open - {e.agent},
                   windows[e.agent := Get(windows, e.agent) + [WindowFor(done, e)]])
  {
    WithoutIsRemoval(order, e.agent);
    var windows' := windows[e.agent := Get(windows, e.agent) + [WindowFor(done, e)]];
    forall a
      ensures IsOpen(done + [e], a, open - {e.agent}) && Get(windows', a) == Closed(done + [e], a)
    {
      OneMoreEvent(done, e, a);
      assert IsOpen(done, a, open) && Get(windows, a) == Closed(done, a);
    }
  }

  /** The first loop: start events open a cast, every other event closes one. */
  method ReadEvents(events: seq<Event>)
    returns (order: seq<Agent>, open: map<Agent, int>, windows: map<Agent, seq<Window>>)
    ensures Tracks(events, order, open, windows)
    ensures forall a, w :: w in Get(windows, a) <==> IsEndedWindow(events, a, w)
    ensures forall a, start :: a in open && open[a] == start <==> IsLoneStartAt(events, a, start)
  {
    order, open, windows := [], map[], map[];
    for n := 0 to |events|
      invariant Tracks(events[..n], order, open, windows)
    {
      var e := events[n];
      assert events[..n + 1] == events[..n] + [e];
      if e.activation.Starts() {
        TracksStart(events[..n], e, order, open, windows);
        order := if e.agent in open then order else order + [e.agent];
        open := open[e.agent := e.time];
      } else {
        TracksEnd(events[..n], e, order, open, windows);
        var start := if e.agent in open then open[e.agent] else e.time - e.duration;
        order := Without(order, e.agent);
        open := open - {e.agent};
        windows := windows[e.agent := Get(windows, e.agent) + [Window(start, e.time)]];
      }
    }
    assert events[..|events|] == events;
    ReadMeans(events, order, open, windows);
  }

  /** The windows of `a` once the casts of the agents in `done` have been closed off. */
  function ClosedFor(events: seq<Event>, done: seq<Agent>, a: Agent): seq<Window> {
    if a in done then Windows(events, a) else Closed(events, a)
  }

  ghost predicate ClosesFor(events: seq<Event>, done: seq<Agent>, windows: map<Agent, seq<Window>>) {
    forall a :: Get(windows, a) == ClosedFor(events, done, a)
  }

  lemma CloseOne(events: seq<Event>, done: seq<Agent>, windows: map<Agent, seq<Window>>, a: Agent, start: int)
    requires ClosesFor(events, done, windows) && a !in done && OpenSince(events, a) == Some(start)
    ensures ClosesFor(events, done + [a], windows[a := Get(windows, a) + [Window(start, start)]])
  {
    var windows' := windows[a := Get(windows, a) + [Window(start, start)]];
    assert Get(windows, a) == Closed(events, a);
    forall b
      ensures Get(windows', b) == ClosedFor(events, done + [a], b)
    {
      if b != a {
        assert Get(windows', b) == Get(windows, b);
        assert b in done + [a] <==> b in done;
      }
    }
  }

  lemma CloseNext(events: seq<Event>, order: seq<Agent>, k: nat, open: map<Agent, int>,
                  windows: map<Agent, seq<Window>>)
    requires Distinct(order) && k < |order| && ClosesFor(events, order[..k], windows)
    requires order[k] in open && OpenSince(events, order[k]) == Some(open[order[k]])
    ensures var w := Window(open[order[k]], open[order[k]]);
            ClosesFor(events, order[..k + 1], windows[order[k] := Get(windows, order[k]) + [w]])
  {
    CloseOne(events, order[..k], windows, order[k], open[order[k]]);
    assert order[..k + 1] == order[..k] + [order[k]];
  }

  lemma NoneClosedYet(events: seq<Event>, order: seq<Agent>, open: map<Agent, int>, windows: map<Agent, seq<Window>>)
    requires Tracks(events, order, open, windows)
    ensures ClosesFor(events, order[..0], windows)
    ensures forall k :: 0 <= k < |order| ==> order[k] in open && OpenSince(events, order[k]) == Some(open[order[k]])
  {
    forall k | 0 <= k < |order|
      ensures order[k] in open && OpenSince(events, order[k]) == Some(open[order[k]])
    {
      assert order[k] in order && IsOpen(events, order[k], open);
    }
  }

  lemma AllClosed(events: seq<Event>, order: seq<Agent>, open: map<Agent, int>,
                  read: map<Agent, seq<Window>>, windows: map<Agent, seq<Window>>)
    requires Tracks(events, order, open, read) && ClosesFor(events, order[..|order|], windows)
    ensures forall a :: Get(windows, a) == Windows(events, a)
  {
    assert order[..|order|] == order;
    forall a
      ensures Get(windows, a) == Windows(events, a)
    {
      assert IsOpen(events, a, open);
    }
  }

  // ----- What the windows say about the events -------------------------------------------------

  ghost predicate IsStart(e: Event, agent: Agent) {
    e.agent == agent && (e.activation.Normal? || e.activation.Quickness?)
  }

  ghost predicate IsEnd(e: Event, agent: Agent) {
    e.agent == agent && !e.activation.Normal? && !e.activation.Quickness?
  }

  /** A start of the agent and its next event, which is an end. */
  ghost predicate IsCast(events: seq<Event>, m: nat, n: nat, agent: Agent) {
    m < n < |events| && IsStart(events[m], agent) && IsEnd(events[n], agent) &&
    forall k :: m < k < n ==> events[k].agent != agent
  }

  /** An end of the agent whose previous event is no start. */
  ghost predicate IsLoneEnd(events: seq<Event>, n: nat, agent: Agent) {
    n < |events| && IsEnd(events[n], agent) && forall m: nat :: !IsCast(events, m, n, agent)
  }

  /** A start of the agent that no event of it follows. */
  ghost predicate IsLoneStart(events: seq<Event>, m: nat, agent: Agent) {
    m < |events| && IsStart(events[m], agent) && forall k :: m < k < |events| ==> events[k].agent != agent
  }

  /** From a start to its end, or over the recorded duration of an end without a start. */
  ghost predicate IsEndedWindow(events: seq<Event>, agent: Agent, w: Window) {
    (exists m: nat, n: nat :: IsCast(events, m, n, agent) && w == Window(events[m].time, events[n].time)) ||
    (exists n: nat ::
       IsLoneEnd(events, n, agent) && w == Window(events[n].time - events[n].duration, events[n].time))
  }

  /** A cast without an end has nothing but its start. */
  ghost predicate IsLoneStartAt(events: seq<Event>, agent: Agent, start: int) {
    exists m: nat :: IsLoneStart(events, m, agent) && start == events[m].time
  }

  ghost predicate IsCastWindow(events: seq<Event>, agent: Agent, w: Window) {
    IsEndedWindow(events, agent, w) || (IsLoneStartAt(events, agent, w.start) && w.end == w.start)
  }

  ghost predicate ClosedAt(events: seq<Event>, agent: Agent, n: nat, w: Window) {
    n < |events| && Ends(events[n], agent) && w == WindowFor(events[..n], events[n])
  }

  lemma {:induction false} ClosedMembers(events: seq<Event>, agent: Agent, w: Window)
    ensures w in Closed(events, agent) <==> exists n: nat :: ClosedAt(events, agent, n, w)
    decreases |events|
  {
    if events == [] {
    } else {
      var last := |events| - 1;
      var before := events[..last];
      ClosedMembers(before, agent, w);
      forall n: nat | n < last ensures ClosedAt(before, agent, n, w) <==> ClosedAt(events, agent, n, w) {
        assert before[..n] == events[..n] && before[n] == events[n];
      }
      assert forall n: nat :: ClosedAt(before, agent, n, w) ==> n < last;
      assert ClosedAt(events, agent, last, w) <==> Ends(events[last], agent) && w == WindowFor(before, events[last]);
    }
  }

  /** What the loop remembers of an agent before its event `n`. */
  lemma OpenMeansCast(events: seq<Event>, n: nat, agent: Agent)
    requires n < |events| && IsEnd(events[n], agent)
    ensures var since := OpenSince(events[..n], agent);
            if since.Some? then exists m: nat :: IsCast(events, m, n, agent) && since == Some(events[m].time)
            else IsLoneEnd(events, n, agent)
  {
    var before := events[..n];
    var last := LastOf(before, agent);
    assert forall k :: 0 <= k < n ==> before[k] == events[k];
    if OpenSince(before, agent).Some? {
      assert IsCast(events, last.value, n, agent);
    } else {
      forall m: nat ensures !IsCast(events, m, n, agent) {
        if m < n && IsStart(events[m], agent) {
          assert last.Some? && m <= last.value;
        }
      }
    }
  }

  lemma CastIsUnique(events: seq<Event>, m: nat, m': nat, n: nat, agent: Agent)
    requires IsCast(events, m, n, agent) && IsCast(events, m', n, agent)
    ensures m == m'
  {
  }

  lemma LeftOpenMeansLoneStart(events: seq<Event>, agent: Agent, start: int)
    ensures OpenSince(events, agent) == Some(start) <==> IsLoneStartAt(events, agent, start)
  {
    var last := LastOf(events, agent);
    if OpenSince(events, agent).Some? {
      assert IsLoneStart(events, last.value, agent);
    }
    if m: nat :| IsLoneStart(events, m, agent) && start == events[m].time {
      assert last.Some? && last.value == m;
    }
  }

  lemma ClosedWindow(events: seq<Event>, agent: Agent, n: nat, w: Window)
    requires n < |events| && IsEnd(events[n], agent)
    ensures ClosedAt(events, agent, n, w) <==>
            (exists m: nat :: IsCast(events, m, n, agent) && w == Window(events[m].time, events[n].time)) ||
            (IsLoneEnd(events, n, agent) && w == Window(events[n].time - events[n].duration, events[n].time))
  {
    OpenMeansCast(events, n, agent);
    if m: nat :| IsCast(events, m, n, agent) && w == Window(events[m].time, events[n].time) {
      var m': nat :| IsCast(events, m', n, agent) && OpenSince(events[..n], agent) == Some(events[m'].time);
      CastIsUnique(events, m, m', n, agent);
    }
  }

  lemma EndedWindows(events: seq<Event>, agent: Agent, w: Window)
    ensures w in Closed(events, agent) <==> IsEndedWindow(events, agent, w)
  {
    ClosedMembers(events, agent, w);
    forall n: nat | n < |events| && IsEnd(events[n], agent)
      ensures ClosedAt(events, agent, n, w) <==>
              (exists m: nat :: IsCast(events, m, n, agent) && w == Window(events[m].time, events[n].time)) ||
              (IsLoneEnd(events, n, agent) && w == Window(events[n].time - events[n].duration, events[n].time))
    {
      ClosedWindow(events, agent, n, w);
    }
  }

  /** The windows of an agent are exactly those of its casts. */
  lemma WindowsAreCasts(events: seq<Event>, agent: Agent, w: Window)
    ensures w in Windows(events, agent) <==> IsCastWindow(events, agent, w)
  {
    EndedWindows(events, agent, w);
    LeftOpenMeansLoneStart(events, agent, w.start);
    assert w in Windows(events, agent) <==>
           w in Closed(events, agent) || (OpenSince(events, agent) == Some(w.start) && w.end == w.start);
  }

  /** What the first loop has found, said of the events: the windows of ended casts and the starts of the
      others. */
  lemma ReadMeans(events: seq<Event>, order: seq<Agent>, open: map<Agent, int>, windows: map<Agent, seq<Window>>)
    requires Tracks(events, order, open, windows)
    ensures forall a, w :: w in Get(windows, a) <==> IsEndedWindow(events, a, w)
    ensures forall a, start :: a in open && open[a] == start <==> IsLoneStartAt(events, a, start)
  {
    forall a, w ensures w in Get(windows, a) <==> IsEndedWindow(events, a, w) {
      assert IsOpen(events, a, open);
      EndedWindows(events, a, w);
    }
    forall a, start ensures a in open && open[a] == start <==> IsLoneStartAt(events, a, start) {
      assert IsOpen(events, a, open);
      LeftOpenMeansLoneStart(events, a, start);
    }
  }

  method CastWindows(events: seq<Event>) returns (windows: map<Agent, seq<Window>>)
    ensures forall a :: Get(windows, a) == Windows(events, a)
    ensures forall a, w :: w in Get(windows, a) <==> IsCastWindow(events, a, w)
  {
    var order, open;
    order, open, windows := ReadEvents(events);
    ghost var read := windows;
    NoneClosedYet(events, order, open, windows);
    for k := 0 to |order|
      invariant ClosesFor(events, order[..k], windows)
    {
      CloseNext(events, order, k, open, windows);
      var start := open[order[k]];
      windows := windows[order[k] := Get(windows, order[k]) + [Window(start, start)]];
    }
    AllClosed(events, order, open, read, windows);
    forall a, w ensures w in Get(windows, a) <==> IsCastWindow(events, a, w) {
      WindowsAreCasts(events, a, w);
    }
  }

  function CountEnds(events: seq<Event>, agent: Agent): nat {
    if events == [] then 0
    else CountEnds(events[..|events| - 1], agent) + if Ends(events[|events| - 1], agent) then 1 else 0
  }

  ghost predicate TimeOrdered(events: seq<Event>) {
    (forall i, j :: 0 <= i < j < |events| ==> events[i].time <= events[j].time) &&
    (forall i :: 0 <= i < |events| ==> events[i].duration >= 0)
  }

  /** One window per ending event plus one for a cast left open, each running forwards in time. */
  lemma {:induction false} WindowsAreWellFormed(events: seq<Event>, agent: Agent)
    requires TimeOrdered(events)
    ensures |Closed(events, agent)| == CountEnds(events, agent)
    ensures |Windows(events, agent)| == CountEnds(events, agent) + if OpenSince(events, agent).Some? then 1 else 0
    ensures forall w :: w in Windows(events, agent) ==> w.start <= w.end
    decreases |events|
  {
    if events == [] {
    } else {
      var before, e := events[..|events| - 1], events[|events| - 1];
      assert TimeOrdered(before);
      WindowsAreWellFormed(before, agent);
      var last := LastOf(before, agent);
      assert last.Some? ==> before[last.value] == events[last.value];
      assert forall w :: w in Closed(before, agent) ==> w in Windows(before, agent);
    }
  }

  /** The ending event at `n` closes a cast whose start was seen. */
  ghost predicate IsPaired(events: seq<Event>, n: nat, agent: Agent)
    requires n < |events|
  {
    Ends(events[n], agent) && OpenSince(events[..n], agent).Some?
  }

  /** Windows with both ends recorded never overlap beyond their end points. */
  lemma PairedWindowsAreDisjoint(events: seq<Event>, agent: Agent, m: nat, n: nat)
    requires TimeOrdered(events) && m < n < |events| && IsPaired(events, m, agent) && IsPaired(events, n, agent)
    ensures WindowFor(events[..m], events[m]).end <= WindowFor(events[..n], events[n]).start
  {
    var last := LastOf(events[..n], agent).value;
    assert events[..n][last] == events[last] && events[..n][m] == events[m];
    assert m < last;
  }

  // ----- The rule ------------------------------------------------------------------------------

  predicate Covers(w: Window, time: int) {
    time >= w.start - SERVER_DELAY && w.end + SERVER_DELAY >= time
  }

  /** The effect falls inside an animated cast of its own caster, a server delay included. */
  predicate IsAnimated(windows: seq<Window>, time: int) {
    exists w :: w in windows && Covers(w, time)
  }

  function Unanimated(effects: seq<Hit>, events: seq<Event>): seq<Hit> {
    if effects == [] then []
    else
      var h := effects[|effects| - 1];
      Unanimated(effects[..|effects| - 1], events) + if IsAnimated(Windows(events, h.agent), h.time) then [] else [h]
  }

  lemma {:induction false} UnanimatedMembers(effects: seq<Hit>, events: seq<Event>)
    ensures forall h :: h in Unanimated(effects, events) <==>
              h in effects && !IsAnimated(Windows(events, h.agent), h.time)
    decreases |effects|
  {
    if effects == [] {
    } else {
      var before := effects[..|effects| - 1];
      UnanimatedMembers(before, events);
      assert effects == before + [effects[|effects| - 1]];
    }
  }

  /** One round of the rule's loop. */
  lemma UnanimatedNext(effects: seq<Hit>, n: nat, events: seq<Event>)
    requires n < |effects|
    ensures var h := effects[n];
            Unanimated(effects[..n + 1], events) ==
            Unanimated(effects[..n], events) + if IsAnimated(Windows(events, h.agent), h.time) then [] else [h]
  {
    assert effects[..n + 1][..n] == effects[..n];
  }

  /** The loop of the rule over the windows already rebuilt. */
  method DropAnimated(events: seq<Event>, windows: map<Agent, seq<Window>>, effects: seq<Hit>) returns (hits: seq<Hit>)
    requires forall a :: Get(windows, a) == Windows(events, a)
    ensures hits == Unanimated(effects, events)
  {
    hits := [];
    for n := 0 to |effects|
      invariant hits == Unanimated(effects[..n], events)
    {
      var h := effects[n];
      UnanimatedNext(effects, n, events);
      if IsAnimated(Get(windows, h.agent), h.time) {
        continue;
      }
      hits := hits + [h];
    }
    assert effects[..|effects|] == effects;
  }

  /** The time lies in a cast of the agent, ten milliseconds on both sides included. */
  ghost predicate InCast(events: seq<Event>, agent: Agent, time: int) {
    exists w :: IsCastWindow(events, agent, w) && w.start - 10 <= time <= w.end + 10
  }

  lemma AnimatedMeansInCast(events: seq<Event>, agent: Agent, time: int)
    ensures IsAnimated(Windows(events, agent), time) <==> InCast(events, agent, time)
  {
    forall w ensures w in Windows(events, agent) <==> IsCastWindow(events, agent, w) {
      WindowsAreCasts(events, agent, w);
    }
    if w :| IsCastWindow(events, agent, w) && w.start - 10 <= time <= w.end + 10 {
      assert w in Windows(events, agent) && Covers(w, time);
    }
  }

  /** The rule books exactly the effects that lie outside every cast of their caster and are not within
      fifty milliseconds of another such effect before them. */
  ghost predicate IsTraitProc(events: seq<Event>, effects: seq<Hit>, h: Hit) {
    h in effects && !InCast(events, h.agent, h.time) &&
    forall g :: g in effects && g.agent == h.agent && !InCast(events, g.agent, g.time) && g.time < h.time ==>
      h.time - g.time >= 50
  }

  /** Each of them once, in order. */
  lemma RuleKeepsTraitProcs(events: seq<Event>, effects: seq<Hit>)
    ensures IsStrictlySorted(Gated(Unanimated(effects, events), DEFAULT_ICD))
    ensures forall h :: h in Gated(Unanimated(effects, events), DEFAULT_ICD) <==> IsTraitProc(events, effects, h)
  {
    var hits := Unanimated(effects, events);
    UnanimatedMembers(effects, events);
    GateKeepsBurstLeaders(hits, DEFAULT_ICD);
    forall g: Hit ensures IsAnimated(Windows(events, g.agent), g.time) <==> InCast(events, g.agent, g.time) {
      AnimatedMeansInCast(events, g.agent, g.time);
    }
    forall h
      ensures LeadsBurst(hits, h, DEFAULT_ICD) <==> IsTraitProc(events, effects, h)
    {
      assert forall g :: g in hits <==> g in effects && !InCast(events, g.agent, g.time);
    }
  }

  method LesserSymbolOfProtection(events: seq<Event>, effects: seq<Hit>) returns (casts: seq<Hit>)
    ensures casts == Gated(Unanimated(effects, events), DEFAULT_ICD)
    ensures IsStrictlySorted(casts)
    ensures forall h :: h in casts <==> IsTraitProc(events, effects, h)
  {
    var windows := CastWindows(events);
    var hits := DropAnimated(events, windows, effects);
    casts := ApplyIcd(hits, DEFAULT_ICD);
    RuleKeepsTraitProcs(events, effects);
  }

  /** An effect in the middle of a cast of its caster, or within a server delay of it, is never booked. */
  lemma MidCastIsNoProc(events: seq<Event>, effects: seq<Hit>, m: nat, n: nat, h: Hit)
    requires IsCast(events, m, n, h.agent) && events[m].time - 10 <= h.time <= events[n].time + 10
    ensures !IsTraitProc(events, effects, h)
  {
    var w := Window(events[m].time, events[n].time);
    assert IsCastWindow(events, h.agent, w);
    assert InCast(events, h.agent, h.time);
  }
}
