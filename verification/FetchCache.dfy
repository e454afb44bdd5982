/**
  The response cache of the web client: at most eight entries, a sixty-second lifetime, one shared
  promise per key while a fetch is outstanding, and settlement callbacks that find their entry by
  key.  An entry can be evicted while its fetch is still in flight; the fetch then settles into
  whatever entry the key has by that time, or deletes it.

  `FetchCache` is the mutable cache.  `State` is its abstract value, and the theorems are about
  every run: any sequence of calls, resolutions and rejections, with any clock readings.
*/
module FetchCache {
  import opened InsertionOrder
  import opened Options

  type Key = string
  type Body = string

  const MAX_ENTRIES := 8
  const TTL_MS := 60_000

  /** The three optional fields of a cache entry. */
  datatype Entry = Entry(result: Option<Body>, expiresAt: Option<int>, promise: Option<nat>)

  /** `order` is the insertion order of the map; `pending` are the fetches the network still owes. */
  datatype State = State(order: seq<Key>, entries: map<Key, Entry>, pending: map<nat, Key>, nextPromise: nat)

  const EMPTY := State([], map[], map[], 0)

  /** What a caller gets: somebody else's promise, a stored body, or the promise of a new fetch. */
  datatype Outcome = Shared(promise: nat) | Hit(body: Body) | Started(promise: nat)

  // ----- What one step does -------------------------------------------------------------------

  ghost predicate WellFormed(s: State) {
    Distinct(s.order) && forall k :: k in s.entries <==> k in s.order
  }

  function Find(s: State, key: Key): Option<Entry> {
    if key in s.entries then Some(s.entries[key]) else None
  }

  predicate Live(e: Entry, now: int) {
    e.result.Some? && e.expiresAt.Some? && e.expiresAt.value > now
  }

  function Answer(s: State, key: Key, now: int): Outcome {
    var e := Find(s, key);
    if e.Some? && e.value.promise.Some? then Shared(e.value.promise.value)
    else if e.Some? && Live(e.value, now) then Hit(e.value.result.value)
    else Started(s.nextPromise)
  }

  function Delete(s: State, key: Key): State {
    s.(order := Without(s.order, key), entries := s.entries - {key})
  }

  /** Push the oldest entry out when there is no room for another one. */
  function Trim(s: State): State {
    if |s.order| >= MAX_ENTRIES then Delete(s, s.order[0]) else s
  }

  /** A new fetch, its promise stored under a key that is not there yet. */
  function Start(s: State, key: Key): State {
    State(s.order + [key], s.entries[key := Entry(None, None, Some(s.nextPromise))],
          s.pending[s.nextPromise := key], s.nextPromise + 1)
  }

  function AfterCall(s: State, key: Key, now: int): State {
    if Answer(s, key, now).Started? then Start(Trim(Delete(s, key)), key) else s
  }

  function AfterResolve(s: State, promise: nat, body: Body, now: int): State
    requires promise in s.pending
  {
    var key := s.pending[promise];
    var stored := if key in s.entries then s.entries[key := Entry(Some(body), Some(now + TTL_MS), None)] else s.entries;
    s.(entries := stored, pending := s.pending - {promise})
  }

  function AfterReject(s: State, promise: nat): State
    requires promise in s.pending
  {
    Delete(s, s.pending[promise]).(pending := s.pending - {promise})
  }

  lemma DeleteAbsent(s: State, key: Key)
    requires WellFormed(s) && key !in s.entries
    ensures Delete(s, key) == s
  {
    WithoutAbsent(s.order, key);
    assert s.entries - {key} == s.entries;
  }

  lemma DeleteKeepsWellFormed(s: State, key: Key)
    requires WellFormed(s)
    ensures WellFormed(Delete(s, key))
  {
    WithoutIsRemoval(s.order, key);
  }

  lemma TrimKeepsWellFormed(s: State)
    requires WellFormed(s)
    ensures WellFormed(Trim(s))
    ensures |s.order| <= MAX_ENTRIES ==> |Trim(s).order| < MAX_ENTRIES
    ensures forall k :: k in Trim(s).entries ==> k in s.entries
  {
    if |s.order| >= MAX_ENTRIES {
      WithoutIsRemoval(s.order, s.order[0]);
    }
  }

  lemma StartKeepsWellFormed(s: State, key: Key)
    requires WellFormed(s) && key !in s.entries
    ensures WellFormed(Start(s, key))
  {
  }

  /** A call that starts a fetch: still bounded, and everything it keeps it keeps unchanged. */
  lemma FetchedState(s: State, key: Key, now: int)
    requires WellFormed(s) && |s.order| <= MAX_ENTRIES && Answer(s, key, now).Started?
    ensures var s' := AfterCall(s, key, now);
            WellFormed(s') && |s'.order| <= MAX_ENTRIES && key in s'.entries &&
            s'.entries[key] == Entry(None, None, Some(s.nextPromise)) &&
            (forall k :: k in s'.entries && k != key ==> k in s.entries && s'.entries[k] == s.entries[k])
  {
    WithoutIsRemoval(s.order, key);
    TrimKeepsWellFormed(Delete(s, key));
    StartKeepsWellFormed(Trim(Delete(s, key)), key);
  }

  // ----- The cache itself ---------------------------------------------------------------------

  class Cache {
    var order: seq<Key>
    var entries: map<Key, Entry>
    var pending: map<nat, Key>
    var nextPromise: nat

    function View(): State
      reads this
    {
      State(order, entries, pending, nextPromise)
    }

    constructor ()
      ensures View() == EMPTY
    {
      order, entries, pending, nextPromise := [], map[], map[], 0;
    }

    /** `Map.delete`: the key leaves the insertion order as well. */
    method Remove(key: Key)
      requires WellFormed(View())
      modifies this
      ensures View() == Delete(old(View()), key) && WellFormed(View())
    {
      DeleteKeepsWellFormed(View(), key);
      order, entries := Without(order, key), entries - {key};
    }

    /** The eviction of the first key when the map is full. */
    method MakeRoom()
      requires WellFormed(View())
      modifies this
      ensures View() == Trim(old(View())) && WellFormed(View())
    {
      if |order| >= MAX_ENTRIES {
        Remove(order[0]);
      }
    }

    method Fetch(key: Key, now: int) returns (outcome: Outcome)
      requires WellFormed(View())
      modifies this
      ensures WellFormed(View())
      ensures outcome == Answer(old(View()), key, now)
      ensures View() == AfterCall(old(View()), key, now)
      ensures outcome.Started? ==> order != [] && order[|order| - 1] == key
    {
      ghost var s := View();
      if key in entries {
        var existing := entries[key];
        if existing.promise.Some? {
          return Shared(existing.promise.value);
        }
        if Live(existing, now) {
          return Hit(existing.result.value);
        }
        Remove(key);
      } else {
        DeleteAbsent(s, key);
      }
      MakeRoom();
      ghost var roomy := View();
      TrimKeepsWellFormed(Delete(s, key));
      StartKeepsWellFormed(roomy, key);
      var promise := nextPromise;
      nextPromise := nextPromise + 1;
      pending := pending[promise := key];
      order := order + [key];
      entries := entries[key := Entry(None, None, Some(promise))];
      assert View() == Start(roomy, key);
      return Started(promise);
    }

    method Resolve(promise: nat, body: Body, now: int)
      requires WellFormed(View()) && promise in pending
      modifies this
      ensures WellFormed(View())
      ensures View() == AfterResolve(old(View()), promise, body, now)
    {
      var key := pending[promise];
      pending := pending - {promise};
      if key in entries {
        var entry := entries[key];
        entry := entry.(result := Some(body));
        entry := entry.(expiresAt := Some(now + TTL_MS));
        entry := entry.(promise := None);
        entries := entries[key := entry];
      }
    }

    method Reject(promise: nat)
      requires WellFormed(View()) && promise in pending
      modifies this
      ensures WellFormed(View())
      ensures View() == AfterReject(old(View()), promise)
    {
      var key := pending[promise];
      pending := pending - {promise};
      Remove(key);
    }
  }

  // ----- Runs ---------------------------------------------------------------------------------

  datatype Event =
    | Called(key: Key, now: int)
    | Resolved(promise: nat, body: Body, now: int)
    | Rejected(promise: nat)

  ghost predicate Enabled(s: State, e: Event) {
    e.Called? || e.promise in s.pending
  }

  ghost function Apply(s: State, e: Event): State
    requires Enabled(s, e)
  {
    match e
    case Called(key, now) => AfterCall(s, key, now)
    case Resolved(promise, body, now) => AfterResolve(s, promise, body, now)
    case Rejected(promise) => AfterReject(s, promise)
  }

  ghost predicate IsRun(es: seq<Event>)
    decreases |es|, 0
  {
    es == [] || (IsRun(es[..|es| - 1]) && Enabled(After(es[..|es| - 1]), es[|es| - 1]))
  }

  /** The state after a run from the empty cache. */
  ghost function After(es: seq<Event>): State
    requires IsRun(es)
    decreases |es|, 1
  {
    if es == [] then EMPTY else Apply(After(es[..|es| - 1]), es[|es| - 1])
  }

  /** Event `i` of the run started the fetch `promise` for `key`. */
  ghost predicate StartedAt(es: seq<Event>, i: nat, promise: nat, key: Key)
    requires i < |es| && IsRun(es[..i])
  {
    es[i].Called? && es[i].key == key && Answer(After(es[..i]), key, es[i].now) == Started(promise)
  }

  lemma {:induction false} PrefixIsRun(es: seq<Event>, i: nat)
    requires IsRun(es) && i <= |es|
    ensures IsRun(es[..i])
    decreases |es|
  {
    if i < |es| {
      PrefixIsRun(es[..|es| - 1], i);
      assert es[..|es| - 1][..i] == es[..i];
    } else {
      assert es[..i] == es;
    }
  }

  ghost predicate WasStarted(es: seq<Event>, promise: nat, key: Key)
    requires IsRun(es)
  {
    exists i: nat :: i < |es| && IsRun(es[..i]) && StartedAt(es, i, promise, key)
  }

  /** Somewhere in the run, a fetch of `key` completed with `body`, a minute before `expiry`. */
  ghost predicate CompletedRecently(es: seq<Event>, key: Key, body: Body, expiry: int)
    requires IsRun(es)
  {
    exists i: nat :: i < |es| && IsRun(es[..i]) && CompletedAt(es, i, key, body, expiry)
  }

  ghost predicate CompletedAt(es: seq<Event>, i: nat, key: Key, body: Body, expiry: int)
    requires i < |es| && IsRun(es[..i])
  {
    es[i].Resolved? && es[i].body == body && es[i].now + TTL_MS == expiry &&
    WasStarted(es[..i], es[i].promise, key)
  }

  lemma WasStartedLater(es: seq<Event>, e: Event, promise: nat, key: Key)
    requires IsRun(es) && IsRun(es + [e]) && WasStarted(es, promise, key)
    ensures WasStarted(es + [e], promise, key)
  {
    var i: nat :| i < |es| && IsRun(es[..i]) && StartedAt(es, i, promise, key);
    assert (es + [e])[..i] == es[..i];
    assert StartedAt(es + [e], i, promise, key);
  }

  lemma CompletedLater(es: seq<Event>, e: Event, key: Key, body: Body, expiry: int)
    requires IsRun(es) && IsRun(es + [e]) && CompletedRecently(es, key, body, expiry)
    ensures CompletedRecently(es + [e], key, body, expiry)
  {
    var i: nat :| i < |es| && IsRun(es[..i]) && CompletedAt(es, i, key, body, expiry);
    assert (es + [e])[..i] == es[..i];
    assert CompletedAt(es + [e], i, key, body, expiry);
  }

  /** What every reachable cache satisfies, related to the run that produced it. */
  ghost predicate Invariant(es: seq<Event>)
    requires IsRun(es)
  {
    var s := After(es);
    WellFormed(s) && |s.order| <= MAX_ENTRIES &&
    (forall p :: p in s.pending ==> p < s.nextPromise && WasStarted(es, p, s.pending[p])) &&
    (forall k :: k in s.entries ==> EntryIsSound(es, k, s.entries[k]))
  }

  /** An entry is either a promise still owed for its own key, or a body and expiry written together
      by the completion of a fetch of that key. */
  ghost predicate EntryIsSound(es: seq<Event>, key: Key, e: Entry)
    requires IsRun(es)
  {
    if e.promise.Some? then
      e.result.None? && e.expiresAt.None? &&
      e.promise.value in After(es).pending && After(es).pending[e.promise.value] == key
    else
      e.result.Some? && e.expiresAt.Some? &&
      CompletedRecently(es, key, e.result.value, e.expiresAt.value)
  }

  lemma CallKeepsInvariant(es: seq<Event>, key: Key, now: int)
    requires IsRun(es) && Invariant(es)
    ensures IsRun(es + [Called(key, now)]) && Invariant(es + [Called(key, now)])
  {
    var s, e := After(es), Called(key, now);
    var es' := es + [e];
    assert es'[..|es|] == es;
    var s' := After(es');
    if Answer(s, key, now).Started? {
      FetchedState(s, key, now);
      assert StartedAt(es', |es|, s.nextPromise, key);
    }
    forall p | p in s'.pending
      ensures p < s'.nextPromise && WasStarted(es', p, s'.pending[p])
    {
      if p in s.pending && s'.pending[p] == s.pending[p] {
        WasStartedLater(es, e, p, s.pending[p]);
      }
    }
    forall k | k in s'.entries
      ensures EntryIsSound(es', k, s'.entries[k])
    {
      if k in s.entries && s'.entries[k] == s.entries[k] && s.entries[k].promise.None? {
        CompletedLater(es, e, k, s.entries[k].result.value, s.entries[k].expiresAt.value);
      }
    }
  }

  lemma ResolveKeepsInvariant(es: seq<Event>, promise: nat, body: Body, now: int)
    requires IsRun(es) && Invariant(es) && promise in After(es).pending
    ensures IsRun(es + [Resolved(promise, body, now)]) && Invariant(es + [Resolved(promise, body, now)])
  {
    var s, e := After(es), Resolved(promise, body, now);
    var es' := es + [e];
    assert es'[..|es|] == es;
    var s' := After(es');
    assert CompletedAt(es', |es|, s.pending[promise], body, now + TTL_MS);
    forall p | p in s'.pending
      ensures WasStarted(es', p, s'.pending[p])
    {
      WasStartedLater(es, e, p, s.pending[p]);
    }
    forall k | k in s'.entries
      ensures EntryIsSound(es', k, s'.entries[k])
    {
      if k != s.pending[promise] && s.entries[k].promise.None? {
        CompletedLater(es, e, k, s.entries[k].result.value, s.entries[k].expiresAt.value);
      }
    }
  }

  lemma RejectKeepsInvariant(es: seq<Event>, promise: nat)
    requires IsRun(es) && Invariant(es) && promise in After(es).pending
    ensures IsRun(es + [Rejected(promise)]) && Invariant(es + [Rejected(promise)])
  {
    var s, e := After(es), Rejected(promise);
    var es' := es + [e];
    assert es'[..|es|] == es;
    var s' := After(es');
    WithoutIsRemoval(s.order, s.pending[promise]);
    DeleteKeepsWellFormed(s, s.pending[promise]);
    forall p | p in s'.pending
      ensures WasStarted(es', p, s'.pending[p])
    {
      WasStartedLater(es, e, p, s.pending[p]);
    }
    forall k | k in s'.entries
      ensures EntryIsSound(es', k, s'.entries[k])
    {
      if s.entries[k].promise.None? {
        CompletedLater(es, e, k, s.entries[k].result.value, s.entries[k].expiresAt.value);
      }
    }
  }

  /** Every run, whatever is evicted in flight and however late it settles. */
  lemma {:induction false} InvariantHolds(es: seq<Event>)
    requires IsRun(es)
    ensures Invariant(es)
  {
    if es == [] {
    } else {
      var before, e := es[..|es| - 1], es[|es| - 1];
      InvariantHolds(before);
      assert before + [e] == es;
      match e
      case Called(key, now) => CallKeepsInvariant(before, key, now);
      case Resolved(promise, body, now) => ResolveKeepsInvariant(before, promise, body, now);
      case Rejected(promise) => RejectKeepsInvariant(before, promise);
    }
  }

  /** A stored body is only ever served within a minute of a completed fetch of the same key. */
  lemma HitIsFresh(es: seq<Event>, key: Key, now: int, body: Body)
    requires IsRun(es) && Answer(After(es), key, now) == Hit(body)
    ensures exists i: nat :: i < |es| && IsRun(es[..i]) && es[i].Resolved? && es[i].body == body &&
                             now < es[i].now + 60_000 && WasStarted(es[..i], es[i].promise, key)
  {
    InvariantHolds(es);
    var expiry := After(es).entries[key].expiresAt.value;
    var i: nat :| i < |es| && IsRun(es[..i]) && CompletedAt(es, i, key, body, expiry);
  }

  /** A shared promise belongs to a fetch of the same key that has not settled yet. */
  lemma SharedIsOutstanding(es: seq<Event>, key: Key, now: int, promise: nat)
    requires IsRun(es) && Answer(After(es), key, now) == Shared(promise)
    ensures promise in After(es).pending && WasStarted(es, promise, key)
  {
    InvariantHolds(es);
  }

  /** The cache never outgrows its bound, and a settlement never inserts a key. */
  lemma Bounded(es: seq<Event>)
    requires IsRun(es)
    ensures |After(es).entries| == |After(es).order| <= 8
    ensures es != [] && !es[|es| - 1].Called? ==>
              IsRun(es[..|es| - 1]) && After(es).entries.Keys <= After(es[..|es| - 1]).entries.Keys
  {
    InvariantHolds(es);
    DistinctCount(After(es).order, After(es).entries.Keys);
  }

  // ----- The order of the cache, in terms of the run --------------------------------------------

  /** The last event of the run starts a fetch of `key`. */
  ghost predicate EndsWithStart(es: seq<Event>, key: Key)
    requires es != [] && IsRun(es)
  {
    var last := |es| - 1;
    StartedAt(es, last, After(es[..last]).nextPromise, key)
  }

  /** When the latest fetch of a key was started; -1 if none was. */
  ghost function LatestStart(es: seq<Event>, key: Key): int
    requires IsRun(es)
    decreases |es|
  {
    if es == [] then -1
    else if EndsWithStart(es, key) then |es| - 1
    else LatestStart(es[..|es| - 1], key)
  }

  lemma {:induction false} LatestStartIsLatest(es: seq<Event>, key: Key)
    requires IsRun(es)
    ensures -1 <= LatestStart(es, key) < |es|
    ensures LatestStart(es, key) >= 0 ==>
              var i := LatestStart(es, key); IsRun(es[..i + 1]) && EndsWithStart(es[..i + 1], key)
    ensures forall n: nat :: LatestStart(es, key) + 1 < n <= |es| && IsRun(es[..n]) ==> !EndsWithStart(es[..n], key)
    decreases |es|
  {
    if es == [] {
    } else {
      var before := es[..|es| - 1];
      assert es[..|es|] == es;
      LatestStartIsLatest(before, key);
      forall n: nat | n <= |before| ensures before[..n] == es[..n] {
      }
    }
  }

  /** The map lists its keys by the time of their latest start. */
  ghost predicate OldestFirst(es: seq<Event>, order: seq<Key>)
    requires IsRun(es)
  {
    forall a, b :: 0 <= a < b < |order| ==> LatestStart(es, order[a]) < LatestStart(es, order[b])
  }

  lemma RemovalKeepsOldestFirst(es: seq<Event>, order: seq<Key>, key: Key)
    requires IsRun(es) && Distinct(order) && OldestFirst(es, order)
    ensures OldestFirst(es, Without(order, key))
  {
    if i :| 0 <= i < |order| && order[i] == key {
      WithoutIsCut(order, i);
      var rest := order[..i] + order[i + 1..];
      forall a, b | 0 <= a < b < |rest| ensures LatestStart(es, rest[a]) < LatestStart(es, rest[b]) {
        CutIndex(order, i, a);
        CutIndex(order, i, b);
      }
    } else {
      WithoutAbsent(order, key);
    }
  }

  lemma OtherEventsKeepOldestFirst(es: seq<Event>, e: Event, order: seq<Key>)
    requires IsRun(es) && IsRun(es + [e]) && OldestFirst(es, order)
    requires forall k :: k in order ==> !EndsWithStart(es + [e], k)
    ensures OldestFirst(es + [e], order)
  {
    assert (es + [e])[..|es|] == es;
  }

  lemma RoomKeepsOldestFirst(es: seq<Event>, key: Key)
    requires IsRun(es) && WellFormed(After(es)) && OldestFirst(es, After(es).order)
    ensures OldestFirst(es, Trim(Delete(After(es), key)).order)
    ensures key !in Trim(Delete(After(es), key)).order
  {
    var s, room := After(es), Delete(After(es), key);
    WithoutIsRemoval(s.order, key);
    RemovalKeepsOldestFirst(es, s.order, key);
    if |room.order| >= MAX_ENTRIES {
      WithoutIsRemoval(room.order, room.order[0]);
      RemovalKeepsOldestFirst(es, room.order, room.order[0]);
    }
  }

  lemma StartKeepsOldestFirst(es: seq<Event>, e: Event, rest: seq<Key>)
    requires IsRun(es) && IsRun(es + [e]) && e.Called? && EndsWithStart(es + [e], e.key)
    requires OldestFirst(es, rest) && e.key !in rest
    ensures OldestFirst(es + [e], rest + [e.key])
  {
    var es', order := es + [e], rest + [e.key];
    assert es'[..|es|] == es;
    OtherEventsKeepOldestFirst(es, e, rest);
    forall a | 0 <= a < |rest| ensures LatestStart(es', rest[a]) < |es| {
      assert rest[a] in rest;
      LatestStartIsLatest(es, rest[a]);
    }
    assert LatestStart(es', e.key) == |es|;
  }

  /** In every reachable state, a key whose latest fetch was started earlier comes first. */
  lemma {:induction false} OrderFollowsStarts(es: seq<Event>)
    requires IsRun(es)
    ensures OldestFirst(es, After(es).order)
    decreases |es|
  {
    if es == [] {
    } else {
      var before, e := es[..|es| - 1], es[|es| - 1];
      assert before + [e] == es;
      OrderFollowsStarts(before);
      InvariantHolds(before);
      if e.Called? && Answer(After(before), e.key, e.now).Started? {
        RoomKeepsOldestFirst(before, e.key);
        StartKeepsOldestFirst(before, e, Trim(Delete(After(before), e.key)).order);
      } else {
        if e.Rejected? {
          RemovalKeepsOldestFirst(before, After(before).order, After(before).pending[e.promise]);
        }
        OtherEventsKeepOldestFirst(before, e, After(es).order);
      }
    }
  }

  /** So a call that pushes an entry out removes the cached key whose latest fetch was started first. */
  lemma EarliestStartIsPushedOut(es: seq<Event>, gone: Key, next: Key, now: int, other: Key)
    requires IsRun(es) && gone in After(es).entries && gone !in AfterCall(After(es), next, now).entries
    requires other in After(es).entries && other != gone
    ensures LatestStart(es, gone) < LatestStart(es, other)
  {
    OldestIsPushedOut(es, gone, next, now);
    OrderFollowsStarts(es);
    ReachableIsSound(es);
    assert other in After(es).order;
    var b :| 0 <= b < |After(es).order| && After(es).order[b] == other;
  }

  /** What a settlement stores is served for sixty seconds, and not a moment longer. */
  lemma StoredBodyIsServed(es: seq<Event>, promise: nat, body: Body, settled: int, now: int)
    requires IsRun(es) && promise in After(es).pending && After(es).pending[promise] in After(es).entries
    ensures var key := After(es).pending[promise];
            Answer(Apply(After(es), Resolved(promise, body, settled)), key, now) ==
            if now < settled + 60_000 then Hit(body) else Started(After(es).nextPromise)
  {
  }

  // ----- Sharing: at most one fetch in flight per key ------------------------------------------

  /** Every fetch in flight is the promise its key's entry holds. */
  ghost predicate Tracked(s: State) {
    forall p :: p in s.pending ==> s.pending[p] in s.entries && s.entries[s.pending[p]].promise == Some(p)
  }

  /** The step pushes out an entry whose fetch is still in flight. */
  ghost predicate EvictsInFlight(s: State, e: Event) {
    e.Called? && Answer(s, e.key, e.now).Started? &&
    var room := Delete(s, e.key);
    |room.order| >= MAX_ENTRIES && room.order[0] in room.entries && room.entries[room.order[0]].promise.Some?
  }

  /** The part of the invariant that does not mention the run. */
  ghost predicate Sound(s: State) {
    WellFormed(s) && |s.order| <= MAX_ENTRIES && (forall p :: p in s.pending ==> p < s.nextPromise) &&
    (forall k :: k in s.entries && s.entries[k].promise.Some? ==>
       s.entries[k].promise.value in s.pending && s.pending[s.entries[k].promise.value] == k)
  }

  lemma ReachableIsSound(es: seq<Event>)
    requires IsRun(es)
    ensures Sound(After(es))
  {
    InvariantHolds(es);
    forall k | k in After(es).entries
      ensures EntryIsSound(es, k, After(es).entries[k])
    {
    }
  }

  lemma LostByEviction(s: State, key: Key, now: int)
    requires Sound(s) && EvictsInFlight(s, Called(key, now))
    ensures !Tracked(AfterCall(s, key, now))
  {
    var room := Delete(s, key);
    var k := room.order[0];
    WithoutIsRemoval(s.order, key);
    WithoutIsRemoval(room.order, k);
    var s' := AfterCall(s, key, now);
    assert k !in s'.entries;
    assert s'.pending[s.entries[k].promise.value] == k;
  }

  lemma KeptUnlessEvicted(s: State, key: Key, p: nat)
    requires Sound(s) && Tracked(s) && p in s.pending && s.pending[p] != key
    requires |Delete(s, key).order| >= MAX_ENTRIES ==> Delete(s, key).order[0] != s.pending[p]
    ensures s.pending[p] in Trim(Delete(s, key)).entries
    ensures Trim(Delete(s, key)).entries[s.pending[p]].promise == Some(p)
  {
  }

  lemma KeptWithoutEviction(s: State, key: Key, now: int)
    requires Sound(s) && Tracked(s) && Answer(s, key, now).Started? && !EvictsInFlight(s, Called(key, now))
    ensures Tracked(AfterCall(s, key, now))
  {
    WithoutIsRemoval(s.order, key);
    var s' := AfterCall(s, key, now);
    forall p | p in s'.pending
      ensures s'.pending[p] in s'.entries && s'.entries[s'.pending[p]].promise == Some(p)
    {
      if p != s.nextPromise {
        KeptUnlessEvicted(s, key, p);
      }
    }
  }

  lemma TrackedAfterSettlement(s: State, e: Event)
    requires Sound(s) && Tracked(s) && !e.Called? && e.promise in s.pending
    ensures Tracked(Apply(s, e))
  {
  }

  /** Sharing survives a step exactly when the step does not evict an entry in flight. */
  lemma SharingLostOnlyByEviction(es: seq<Event>, e: Event)
    requires IsRun(es) && Enabled(After(es), e) && Tracked(After(es))
    ensures Tracked(Apply(After(es), e)) <==> !EvictsInFlight(After(es), e)
  {
    ReachableIsSound(es);
    if !e.Called? {
      TrackedAfterSettlement(After(es), e);
    } else if Answer(After(es), e.key, e.now).Started? {
      if EvictsInFlight(After(es), e) {
        LostByEviction(After(es), e.key, e.now);
      } else {
        KeptWithoutEviction(After(es), e.key, e.now);
      }
    }
  }

  ghost function KeysCalled(es: seq<Event>): set<Key> {
    set i | 0 <= i < |es| && es[i].Called? :: es[i].key
  }

  lemma KeysCalledOneMore(es: seq<Event>, e: Event)
    ensures KeysCalled(es + [e]) == KeysCalled(es) + if e.Called? then {e.key} else {}
  {
    var es' := es + [e];
    assert forall i | 0 <= i < |es| :: es'[i] == es[i];
    assert es'[|es|] == e;
    forall k | k in KeysCalled(es) + if e.Called? then {e.key} else {}
      ensures k in KeysCalled(es')
    {
      if k in KeysCalled(es) {
        var i :| 0 <= i < |es| && es[i].Called? && es[i].key == k;
        assert es'[i].Called? && es'[i].key == k;
      }
    }
  }

  lemma RoomForFewKeys(s: State, key: Key, keys: set<Key>)
    requires WellFormed(s) && s.entries.Keys <= keys && key in keys && |keys| <= MAX_ENTRIES
    ensures |Delete(s, key).order| < MAX_ENTRIES
    ensures Trim(Delete(s, key)) == Delete(s, key)
  {
    var room := Delete(s, key);
    DeleteKeepsWellFormed(s, key);
    DistinctCount(room.order, room.entries.Keys);
    Subset(room.entries.Keys + {key}, keys);
  }

  /** With at most eight keys nothing is ever evicted, so sharing is never lost. */
  lemma {:induction false} FewKeysAreTracked(es: seq<Event>)
    requires IsRun(es) && |KeysCalled(es)| <= 8
    ensures Tracked(After(es)) && After(es).entries.Keys <= KeysCalled(es)
  {
    if es == [] {
    } else {
      var before, e := es[..|es| - 1], es[|es| - 1];
      assert before + [e] == es;
      KeysCalledOneMore(before, e);
      Subset(KeysCalled(before), KeysCalled(es));
      FewKeysAreTracked(before);
      InvariantHolds(before);
      if e.Called? {
        RoomForFewKeys(After(before), e.key, KeysCalled(es));
      }
      SharingLostOnlyByEviction(before, e);
    }
  }

  lemma Subset(a: set<Key>, b: set<Key>)
    requires a <= b
    ensures |a| <= |b|
  {
    assert b == a + (b - a);
  }

  /** With at most eight keys, one fetch per key is in flight and every concurrent caller shares it. */
  lemma OneFetchPerKey(es: seq<Event>, p: nat, q: nat, now: int)
    requires IsRun(es) && |KeysCalled(es)| <= 8
    requires p in After(es).pending && q in After(es).pending && After(es).pending[p] == After(es).pending[q]
    ensures p == q && Answer(After(es), After(es).pending[p], now) == Shared(p)
  {
    FewKeysAreTracked(es);
  }

  // ----- When bodies are lost or overwritten ----------------------------------------------------

  /** In every reachable state: a body that would be served survives the failure of a fetch if and only
      if that fetch is of another key, and a failing fetch of the same key means sharing was lost. */
  lemma FailureForgetsOwnKey(es: seq<Event>, promise: nat, key: Key, now: int, body: Body)
    requires IsRun(es) && promise in After(es).pending && Answer(After(es), key, now) == Hit(body)
    ensures Answer(Apply(After(es), Rejected(promise)), key, now) == Hit(body) <==> After(es).pending[promise] != key
    ensures Tracked(After(es)) ==> After(es).pending[promise] != key
  {
  }

  /** Likewise for a late success: it replaces a body that would be served, and renews its lifetime, if
      and only if it is of the same key, which again means sharing was lost. */
  lemma SuccessReplacesOwnKey(es: seq<Event>, promise: nat, late: Body, settled: int, key: Key, now: int, body: Body)
    requires IsRun(es) && promise in After(es).pending && Answer(After(es), key, now) == Hit(body)
    ensures var e := Find(Apply(After(es), Resolved(promise, late, settled)), key);
            if After(es).pending[promise] == key then e == Some(Entry(Some(late), Some(settled + TTL_MS), None))
            else e == Find(After(es), key)
    ensures Tracked(After(es)) ==> After(es).pending[promise] != key
  {
  }

  /** In every reachable state, a call pushes a cached entry out if and only if the call is of a key that
      is not cached, the map is full, and the entry is the oldest insertion. */
  lemma OldestIsPushedOut(es: seq<Event>, used: Key, next: Key, now: int)
    requires IsRun(es) && used in After(es).entries
    ensures used !in AfterCall(After(es), next, now).entries <==>
            next !in After(es).entries && |After(es).order| == 8 && After(es).order[0] == used
  {
    ReachableIsSound(es);
    if next in After(es).entries {
      CachedCallKeeps(After(es), used, next, now);
    } else {
      UncachedCallKeeps(After(es), used, next, now);
    }
  }

  lemma CachedCallKeeps(s: State, used: Key, next: Key, now: int)
    requires Sound(s) && used in s.entries && next in s.entries
    ensures used in AfterCall(s, next, now).entries
  {
    WithoutIsRemoval(s.order, next);
  }

  lemma UncachedCallKeeps(s: State, used: Key, next: Key, now: int)
    requires Sound(s) && used in s.entries && next !in s.entries
    ensures used !in AfterCall(s, next, now).entries <==> |s.order| == MAX_ENTRIES && s.order[0] == used
  {
    DeleteAbsent(s, next);
  }

  /** Sharing was never lost on the way. */
  ghost predicate AlwaysTracked(es: seq<Event>)
    requires IsRun(es)
    decreases |es|
  {
    Tracked(After(es)) && (es == [] || AlwaysTracked(es[..|es| - 1]))
  }

  /** No event of the run pushed out an entry whose fetch was in flight. */
  ghost predicate NeverEvictsInFlight(es: seq<Event>)
    requires IsRun(es)
    decreases |es|
  {
    es == [] ||
    (NeverEvictsInFlight(es[..|es| - 1]) && !EvictsInFlight(After(es[..|es| - 1]), es[|es| - 1]))
  }

  /** In a whole run, sharing was never lost if and only if no entry was pushed out in flight. */
  lemma {:induction false} SharingKeptIffNoEviction(es: seq<Event>)
    requires IsRun(es)
    ensures AlwaysTracked(es) <==> NeverEvictsInFlight(es)
    decreases |es|
  {
    if es == [] {
    } else {
      var before := es[..|es| - 1];
      SharingKeptIffNoEviction(before);
      if AlwaysTracked(before) {
        SharingLostOnlyByEviction(before, es[|es| - 1]);
      }
    }
  }

  lemma {:induction false} AlwaysTrackedPrefix(es: seq<Event>, i: nat)
    requires IsRun(es) && AlwaysTracked(es) && i <= |es| && IsRun(es[..i])
    ensures AlwaysTracked(es[..i])
    decreases |es|
  {
    if i == |es| {
      assert es[..i] == es;
    } else {
      assert es[..|es| - 1][..i] == es[..i];
      AlwaysTrackedPrefix(es[..|es| - 1], i);
    }
  }

  /** Event `i` settles a fetch of `key` successfully. */
  ghost predicate ResolvesAt(es: seq<Event>, i: nat, key: Key)
    requires i < |es| && IsRun(es[..i])
  {
    es[i].Resolved? && es[i].promise in After(es[..i]).pending && After(es[..i]).pending[es[i].promise] == key
  }

  ghost predicate ResolvedBelow(es: seq<Event>, key: Key, bound: nat)
    requires IsRun(es)
  {
    forall i: nat :: i < |es| && IsRun(es[..i]) && ResolvesAt(es, i, key) ==> es[i].promise < bound
  }

  lemma ResolvedBelowLater(es: seq<Event>, key: Key, bound: nat)
    requires es != [] && IsRun(es) && ResolvedBelow(es[..|es| - 1], key, bound)
    requires ResolvesAt(es, |es| - 1, key) ==> es[|es| - 1].promise < bound
    ensures ResolvedBelow(es, key, bound)
  {
    var before := es[..|es| - 1];
    forall i: nat | i < |es| && IsRun(es[..i]) && ResolvesAt(es, i, key) ensures es[i].promise < bound {
      if i < |before| {
        assert before[..i] == es[..i] && ResolvesAt(before, i, key);
      }
    }
  }

  ghost predicate IsYoungest(s: State, key: Key, bound: nat) {
    bound == s.nextPromise || (bound in s.pending && s.pending[bound] == key)
  }

  lemma YoungestBefore(s: State, e: Event, key: Key, bound: nat)
    requires Sound(s) && Tracked(s) && Enabled(s, e) && IsYoungest(Apply(s, e), key, bound)
    ensures (bound in s.pending && s.pending[bound] == key) || s.nextPromise <= bound
    ensures e.Resolved? && s.pending[e.promise] == key ==> e.promise < bound
  {
  }

  /** While sharing is not lost, every fetch in flight is younger than all settled ones of its key. */
  lemma {:induction false} PendingIsYounger(es: seq<Event>, key: Key, bound: nat)
    requires IsRun(es) && AlwaysTracked(es)
    requires IsYoungest(After(es), key, bound)
    ensures ResolvedBelow(es, key, bound)
    decreases |es|
  {
    if es == [] {
    } else {
      var before := es[..|es| - 1];
      var s := After(before);
      ReachableIsSound(before);
      YoungestBefore(s, es[|es| - 1], key, bound);
      PendingIsYounger(before, key, if bound < s.nextPromise then bound else s.nextPromise);
      ResolvedBelowLater(es, key, bound);
    }
  }

  /** So as long as sharing is not lost, the bodies of a key come from ever later fetches. */
  lemma BodiesComeInOrder(es: seq<Event>, i: nat, j: nat, key: Key)
    requires IsRun(es) && AlwaysTracked(es) && i < j < |es| && IsRun(es[..i]) && IsRun(es[..j])
    requires ResolvesAt(es, i, key) && ResolvesAt(es, j, key)
    ensures es[i].promise < es[j].promise
  {
    var before := es[..j];
    AlwaysTrackedPrefix(es, j);
    PendingIsYounger(before, key, es[j].promise);
    assert before[..i] == es[..i] && ResolvesAt(before, i, key);
  }

  /** With at most eight keys it never is. */
  lemma {:induction false} FewKeysAreAlwaysTracked(es: seq<Event>)
    requires IsRun(es) && |KeysCalled(es)| <= 8
    ensures AlwaysTracked(es)
    decreases |es|
  {
    FewKeysAreTracked(es);
    if es == [] {
    } else {
      var before := es[..|es| - 1];
      assert before + [es[|es| - 1]] == es;
      KeysCalledOneMore(before, es[|es| - 1]);
      Subset(KeysCalled(before), KeysCalled(es));
      FewKeysAreAlwaysTracked(before);
    }
  }

  // ----- What nine keys can do ------------------------------------------------------------------

  function NthKey(i: nat): Key {
    seq(i, _ => 'k')
  }

  ghost function FirstKeys(n: nat): set<Key> {
    set i: nat | i < n :: NthKey(i)
  }

  lemma FirstKeysGrow(n: nat)
    ensures FirstKeys(n) + {NthKey(n)} <= FirstKeys(n + 1)
  {
  }

  ghost predicate AllInFlight(s: State) {
    forall k :: k in s.entries ==> s.entries[k].promise.Some?
  }

  lemma OneMoreEvent(es: seq<Event>, e: Event) returns (es': seq<Event>)
    requires IsRun(es) && Enabled(After(es), e)
    ensures es' == es + [e] && IsRun(es') && After(es') == Apply(After(es), e)
    ensures KeysCalled(es') == KeysCalled(es) + if e.Called? then {e.key} else {}
  {
    es' := es + [e];
    assert es'[..|es|] == es;
    KeysCalledOneMore(es, e);
  }

  /** A call with a key that is not cached stores a new promise for it. */
  lemma Miss(s: State, key: Key)
    requires key !in s.entries
    ensures var s' := AfterCall(s, key, 0);
            key in s'.entries && s'.entries[key] == Entry(None, None, Some(s.nextPromise)) &&
            s'.pending == s.pending[s.nextPromise := key] && s'.nextPromise == s.nextPromise + 1
  {
  }

  lemma MissWithRoom(s: State, key: Key)
    requires WellFormed(s) && key !in s.entries && |s.order| < MAX_ENTRIES
    ensures AfterCall(s, key, 0) == Start(s, key)
  {
    DeleteAbsent(s, key);
  }

  /** Eight entries: a call with another key pushes the oldest out. */
  lemma MissWithoutRoom(s: State, key: Key)
    requires Sound(s) && |s.order| == MAX_ENTRIES && key !in s.entries
    ensures s.order[0] in s.entries && s.order[0] !in AfterCall(s, key, 0).entries
  {
    DeleteAbsent(s, key);
  }

  lemma {:induction false} FillUp(n: nat) returns (es: seq<Event>)
    requires n <= MAX_ENTRIES
    ensures IsRun(es) && |After(es).order| == n && AllInFlight(After(es))
    ensures After(es).entries.Keys <= KeysCalled(es) <= FirstKeys(n)
    ensures forall k :: k in After(es).entries ==> |k| < n
  {
    if n == 0 {
      es := [];
    } else {
      var before := FillUp(n - 1);
      ReachableIsSound(before);
      MissWithRoom(After(before), NthKey(n - 1));
      es := OneMoreEvent(before, Called(NthKey(n - 1), 0));
    }
  }

  /** Two fetches of `key` are outstanding and the cache knows of the second one only. */
  ghost predicate DoublyFetched(s: State, late: nat, again: nat, key: Key) {
    late < again && late in s.pending && s.pending[late] == key && again in s.pending && s.pending[again] == key &&
    key in s.entries && s.entries[key].promise == Some(again)
  }

  /** The oldest of eight keys in flight is pushed out by a ninth key and then asked for again. */
  lemma PushOutAndRefetch(s: State, ninth: Key) returns (late: nat, again: nat, key: Key)
    requires Sound(s) && |s.order| == MAX_ENTRIES && AllInFlight(s) && ninth !in s.entries
    ensures key in s.entries
    ensures DoublyFetched(AfterCall(AfterCall(s, ninth, 0), key, 0), late, again, key)
  {
    key, again := s.order[0], s.nextPromise + 1;
    late := s.entries[key].promise.value;
    MissWithoutRoom(s, ninth);
    Miss(s, ninth);
    Miss(AfterCall(s, ninth, 0), key);
  }

  lemma TwoCalls(es: seq<Event>, a: Key, b: Key) returns (es': seq<Event>)
    requires IsRun(es)
    ensures IsRun(es') && After(es') == AfterCall(AfterCall(After(es), a, 0), b, 0)
    ensures KeysCalled(es') == KeysCalled(es) + {a} + {b}
  {
    es' := OneMoreEvent(es, Called(a, 0));
    es' := OneMoreEvent(es', Called(b, 0));
  }

  lemma Overload(es: seq<Event>, ninth: Key) returns (es': seq<Event>, late: nat, again: nat, key: Key)
    requires IsRun(es) && |After(es).order| == MAX_ENTRIES && AllInFlight(After(es)) && ninth !in After(es).entries
    ensures IsRun(es') && DoublyFetched(After(es'), late, again, key)
    ensures key in After(es).entries && KeysCalled(es') == KeysCalled(es) + {ninth} + {key}
  {
    var s := After(es);
    ReachableIsSound(es);
    late, again, key := PushOutAndRefetch(s, ninth);
    es' := TwoCalls(es, ninth, key);
  }

  /** Nine keys are enough to put two fetches of one key in flight at once. */
  lemma NinthKeyBreaksSharing() returns (es: seq<Event>, late: nat, again: nat, key: Key)
    ensures IsRun(es) && KeysCalled(es) <= FirstKeys(MAX_ENTRIES + 1)
    ensures DoublyFetched(After(es), late, again, key)
  {
    var full := FillUp(MAX_ENTRIES);
    var ninth := NthKey(MAX_ENTRIES);
    assert |ninth| == MAX_ENTRIES;
    es, late, again, key := Overload(full, ninth);
    FirstKeysGrow(MAX_ENTRIES);
  }

  /** And when the older of the two then fails, it takes away a body that was fetched successfully
      and has not expired. */
  lemma LateFailureForgetsFreshBody() returns (es: seq<Event>, late: nat, key: Key, body: Body)
    ensures IsRun(es) && late in After(es).pending && KeysCalled(es) <= FirstKeys(MAX_ENTRIES + 1)
    ensures Answer(After(es), key, 0) == Hit(body)
    ensures Answer(Apply(After(es), Rejected(late)), key, 0).Started?
  {
    var both, again;
    both, late, again, key := NinthKeyBreaksSharing();
    body := "fresh";
    es := OneMoreEvent(both, Resolved(again, body, 0));
  }

  /** When it succeeds instead, its older body replaces the newer one and lives on after it. */
  lemma LateSuccessRenewsOldBody() returns (es: seq<Event>, late: nat, again: nat, key: Key)
    ensures IsRun(es) && late < again && late in After(es).pending
    ensures Answer(After(es), key, 0) == Hit("newer")
    ensures var s := Apply(After(es), Resolved(late, "older", TTL_MS - 1));
            Answer(s, key, TTL_MS - 1) == Answer(s, key, TTL_MS) == Hit("older")
    ensures Answer(After(es), key, TTL_MS).Started?
  {
    var both;
    both, late, again, key := NinthKeyBreaksSharing();
    es := OneMoreEvent(both, Resolved(again, "newer", 0));
  }

  /** Being used does not protect an entry: the oldest insertion goes, even when it is the entry the
      last call was answered from. */
  lemma EvictsTheEntryJustUsed() returns (s: State, key: Key, ninth: Key)
    ensures exists es :: IsRun(es) && After(es) == s
    ensures key in s.entries && !Answer(s, key, 0).Started?
    ensures key !in AfterCall(AfterCall(s, key, 0), ninth, 0).entries
  {
    var full := FillUp(MAX_ENTRIES);
    s, ninth := After(full), NthKey(MAX_ENTRIES);
    ReachableIsSound(full);
    assert |ninth| == MAX_ENTRIES;
    key := s.order[0];
    MissWithoutRoom(s, ninth);
  }
}
