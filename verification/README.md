# Verified models of the fight analytics web client, API and parity tools

This project models the stateful and algorithmic core of the repository in Dafny and proves what that
core promises. Each module follows one source component: code that updates state in place is a class
or a method with its loops, proved equal to a specification function or predicate; the promises are
lemmas about that specification, over every input or every run.

`dafny verify dfyconfig.toml` checks everything.

## What is modelled

**The response cache** (`FetchCache`). An insertion-ordered map of at most eight entries, each a
promise or a body with an expiry, and settlement callbacks that find their entry by key. A run is any
sequence of calls, resolutions and rejections with any clock readings, so an entry can be evicted in
flight and its fetch can settle later into a newer entry, or delete it. In every run a stored body was
produced by a completed fetch of the same key less than sixty seconds earlier. Sharing of one fetch per
key is lost exactly by evicting an entry in flight, in a step and in a run, hence never with eight keys; with nine keys two
fetches of one key can be outstanding. Exactly a fetch of the same key can remove or replace a body that
would be served, and that needs sharing to be lost first; until then bodies come from ever later fetches.
The map always lists its keys by the time of their latest start, so what is evicted is the key started first.

**Schema reachability** (`SchemaFields`). The recursive `$ref` walk whose visited set is shared by all
branches. A call returns exactly the fields reachable without the references already marked, and marks
exactly the references it could reach; from an empty set this is all reachable fields, with cycles,
shared components and dangling references. What reachable means is pinned by the fields a schema declares,
the branches it has and the component it refers to.

**Key rotation** (`Envelope`, `KeyRotation`, `SecretMigration`). Encryption is ideal: an envelope opens
under its own key only. One run of the rotation script is a method with its loop, commits and
rollbacks. A second model interleaves any number of runs with application inserts, failed commits and
crashes, step by step; a run by itself does there what the script does. No secret the application can read is ever lost, a run without failures leaves
every row under the new key, and a row under the new key is final exactly when no run is stale on it,
which only overlapping runs can be.
The migration that introduced encryption is undone exactly by its downgrade.

**The duration-buff queue simulator** (`QueueUptime`). The nested loops, the bounded buffer with
drop-shortest overflow and the fuel counter, for any capacity. The reference is a sum over distinct
starts of the longest stack. They agree on every sorted input, within the fuel, exactly for capacity three
and above. The sum is never less than the time of the fight in which some stack is active, and equals it
exactly when no counted run starts before the fight or overlaps an earlier one.

**Instant-cast detection** (`InstantCasts`). The sliding rate gate, the reconstruction of cast windows
from start and end events, and the rule that composes them; what the rule books is characterised by the
events and effects alone.

**Request and response protocols of the client** (`TaggedLoad`, `PagedTimeline`, `WebhookPanel`). State
machines over renders, effects, clicks and responses in any order: the generation-tagged load, the
paginated timeline, and the one-shot secret panel.

**Transformations** (`BrokenLine`, `Downsample`, `Heatmap`, `DeltaReport`, `BoonColumns`). Broken-line
segmentation over the union of dates, downsampling with a bound, interpolation and projection,
classification of parity results, and the boon column migration.

`Options`, `InsertionOrder`, `StableSort` and `RealOrder` hold shared vocabulary.

## Where the code differs from its documentation, or may surprise

- `web/src/app/fights/[id]/page.tsx:364` calls the cache LRU; it evicts the oldest insertion, used or
  not (`FetchCache.OldestIsPushedOut`), even the entry the last call was answered from
  (`FetchCache.EvictsTheEntryJustUsed`).
- A late settlement of an evicted fetch can delete a fresh body or replace it by an older one, exactly
  when it is of the same key (`FetchCache.FailureForgetsOwnKey`, `FetchCache.SuccessReplacesOwnKey`, with
  the runs `FetchCache.LateFailureForgetsFreshBody` and `FetchCache.LateSuccessRenewsOldBody`).
- `scripts/ei-parity/probe_buff_ei.py:40` speaks of capacity 9; the capacity comes from a table that
  says 15 for swiftness (`libs/gw2_analytics/src/gw2_analytics/buff_state.py:100`). The model keeps it as a parameter.
- The queue simulator returns "cumulative active ms", yet applications that overlap are each counted in
  full, and a start before zero, which the caller does not clamp (`scripts/ei-parity/probe_buff_ei.py:131`),
  is counted from there. The total is the active time of the fight if and only if neither happens among
  the counted runs (`QueueUptime.ActiveTimeIffClear`, `QueueUptime.OverlapIsCountedTwice`,
  `QueueUptime.NegativeStartIsCounted`).
- `docs/ops/kek-rotation.md:118` says that a second run of the rotation re-encrypts rows already rotated;
  it leaves them byte for byte and counts them as failed (`KeyRotation.RerunChangesNothing`). Only a run
  that overlaps another one rewrites a rotated row, exactly when it is stale on it
  (`KeyRotation.RotatedRowsAreFinal`, `KeyRotation.OverlappingRunsRewrite`).
- The rotation script returns 1 for failure; run again after a success it changes nothing, counts every
  row as failed, and so returns 1 unless the table is empty (`KeyRotation.RotateAgain`).
- The de-duplication comment at `web/src/components/PlayerTimelineSection.tsx:269` covers a fight added
  in mid-pagination; no id is shown twice, but a fight of the changed list appears only if the requested
  window reaches it (`PagedTimeline.LoadMoreShows`), so one added in front never does
  (`PagedTimeline.NewestFightNeverAppears`), and loading more completes the list exactly when nothing is
  missing before the end of what is loaded (`PagedTimeline.RunCompletesList`).
- The panel marks a secret as copied when any clipboard write succeeds, so a slow write of an earlier
  secret marks a later one (`WebhookPanel.StaleCopyMarks`); when the mark can be trusted is
  `WebhookPanel.MarkIsHonest`.

## Model

| member | source | states |
|---|---|---|
| `FetchCache.Cache.Fetch` | web/src/lib/fetchCached.ts:18-45 | A call shares a promise, serves a live body, or deletes a stale entry, evicts the oldest key when full and stores one new promise behind all others; whole new state given |
| `FetchCache.Cache.MakeRoom` | web/src/lib/fetchCached.ts:38-43 | Removes the first inserted key exactly when the map holds eight |
| `FetchCache.Cache.Resolve` | web/src/lib/fetchCached.ts:68-76 | A settlement writes body and expiry together into whatever entry the key has now, and inserts nothing when it has none |
| `FetchCache.Cache.Reject` | web/src/lib/fetchCached.ts:77-80 | A failure deletes the entry its key has now, whoever created it |
| `FetchCache.InvariantHolds` | web/src/lib/fetchCached.ts:9-85 | Every run, late and out-of-order settlement included: an entry is a promise owed for its own key, or a body and expiry written by one completed fetch of that key |
| `FetchCache.HitIsFresh` | web/src/lib/fetchCached.ts:30-32 | A served body was returned by a fetch of the same key that completed less than sixty seconds before, in every run |
| `FetchCache.SharedIsOutstanding` | web/src/lib/fetchCached.ts:26-28 | A shared promise belongs to an unsettled fetch of the same key |
| `FetchCache.Bounded` | web/src/lib/fetchCached.ts:38-43 | At most eight entries in every reachable state, and a settlement never adds a key |
| `FetchCache.SharingLostOnlyByEviction` | web/src/lib/fetchCached.ts:34-43 | One fetch per key survives a step if and only if the step does not evict an entry in flight |
| `FetchCache.FewKeysAreTracked` | web/src/lib/fetchCached.ts:26-43 | In runs over at most eight keys every outstanding fetch is the promise its entry holds |
| `FetchCache.OneFetchPerKey` | web/src/lib/fetchCached.ts:26-28 | In such runs two outstanding fetches of one key are the same, and any caller of that key shares it |
| `FetchCache.NinthKeyBreaksSharing` | web/src/lib/fetchCached.ts:38-43 | A reachable run over nine keys with two outstanding fetches of one key |
| `FetchCache.FailureForgetsOwnKey` | web/src/lib/fetchCached.ts:77-80 | In every reachable state a served body survives the failure of an outstanding fetch if and only if that fetch is of another key; one of the same key exists only after sharing was lost |
| `FetchCache.SuccessReplacesOwnKey` | web/src/lib/fetchCached.ts:68-76 | In every reachable state a late success replaces a served body and renews its lifetime if and only if it is of the same key, again only after sharing was lost |
| `FetchCache.BodiesComeInOrder` | web/src/lib/fetchCached.ts:45-83 | While sharing is not lost, the bodies stored for one key come from ever later fetches |
| `FetchCache.SharingKeptIffNoEviction` | web/src/lib/fetchCached.ts:34-43 | In a whole run sharing was never lost if and only if no event evicted an entry in flight |
| `FetchCache.FewKeysAreAlwaysTracked` | web/src/lib/fetchCached.ts:26-43 | With at most eight keys sharing is never lost at any moment of the run |
| `FetchCache.OldestIsPushedOut` | web/src/lib/fetchCached.ts:34-43 | In every reachable state a call pushes a cached entry out if and only if the key called is not cached, the map holds eight and the entry is first in it, used or not |
| `FetchCache.LatestStartIsLatest` | web/src/lib/fetchCached.ts:45-83 | The latest start of a key is the last event of the run that started a fetch of it, if there is one |
| `FetchCache.OrderFollowsStarts` | web/src/lib/fetchCached.ts:34-83 | In every reachable state, of two cached keys the one whose latest fetch was started earlier stands first in the map |
| `FetchCache.EarliestStartIsPushedOut` | web/src/lib/fetchCached.ts:38-43 | So what a call pushes out is the cached key whose latest fetch was started before that of every other cached key |
| `FetchCache.StoredBodyIsServed` | web/src/lib/fetchCached.ts:30-45 | In every reachable state a body stored by a settlement is served if and only if less than sixty seconds have passed; then the key is fetched again |
| `InsertionOrder.WithoutIsCut` | web/src/lib/fetchCached.ts:34-43 | Deleting a key cuts it out of the insertion order and keeps the order of all others |
| `SchemaFields.LastSegmentIsAfterLastSlash` | scripts/ei-parity/api_coverage.py:81 | The component name is the part of the pointer after its last slash, or all of it |
| `SchemaFields.LeafFields` | scripts/ei-parity/api_coverage.py:77-94 | With any visited set: returns exactly the fields reachable without following an already marked reference, and marks exactly the references reachable that way; terminates |
| `SchemaFields.NodeFields` | scripts/ei-parity/api_coverage.py:86-94 | The same for one object schema; its fields are those it declares and those of each branch: any of `anyOf`, `oneOf` and `allOf`, the items of an array (an empty schema if there are none), any property |
| `SchemaFields.ResponseFields` | scripts/ei-parity/api_coverage.py:77-94 | From an empty set: exactly the field names reachable in the schema graph, and for an object schema exactly the declared ones and those of its branches |
| `SchemaFields.BranchesAreChildren` | scripts/ei-parity/api_coverage.py:86-93 | The walk goes on from an object schema to exactly its `anyOf`, `oneOf` and `allOf` members, its items if it is an array, and its property schemas |
| `SchemaFields.FieldsByBranch` | scripts/ei-parity/api_coverage.py:86-94 | An object schema has a field exactly when it declares it or one of those branches has it, whatever references are avoided |
| `SchemaFields.FieldsByReference` | scripts/ei-parity/api_coverage.py:80-85 | A reference has a field exactly when a component of that name exists and has it |
| `SchemaFields.ReachesThroughRef` | scripts/ei-parity/api_coverage.py:80-85 | What a fresh reference reaches is what its definition reaches without coming back to it |
| `SchemaFields.SiblingReaches` | scripts/ei-parity/api_coverage.py:86-93 | What a later branch misses because of the shared set, an earlier branch has reached |
| `SchemaFields.ExploreNext` | scripts/ei-parity/api_coverage.py:86-93 | One more branch, told to avoid all marked names, keeps the account of fields and marks exact |
| `SchemaFields.NodeIsExact` | scripts/ei-parity/api_coverage.py:86-94 | All branches explored in order: the object schema itself is exact |
| `SchemaFields.SeenRefIsExact` | scripts/ei-parity/api_coverage.py:82-83 | Returning nothing for a marked reference is exact |
| `SchemaFields.FreshRefIsExact` | scripts/ei-parity/api_coverage.py:84-85 | Marking first and then walking the definition is exact |
| `SchemaFields.MarkingIsProgress` | scripts/ei-parity/api_coverage.py:84-85 | Every followed reference goes down in the termination measure, dangling or not |
| `SchemaFields.ChildIsSmaller` | scripts/ei-parity/api_coverage.py:86-93 | Every recursive call inside an object schema goes down in it |
| `Envelope.OpensUnderSomeKey` | apps/api/src/gw2analytics_api/crypto.py:64-71 | The fallback loop opens an envelope exactly when its key is in the list, wherever |
| `Envelope.DecryptNeedsOnlyTheKey` | apps/api/src/gw2analytics_api/crypto.py:61-71 | Primary then fallbacks yield a text if and only if the envelope holds it under one of those keys, and an invalid token if and only if none of them is its key |
| `KeyRotation.Database.RotateRow` | apps/api/scripts/rotate_kek.py:96-118 | One row: done exactly when the old key opens it and the commit goes through, then its text is sealed under the new key; if not done the whole table is as it was |
| `KeyRotation.Database.RotateKek` | apps/api/scripts/rotate_kek.py:64-124 | One run: equal keys stop it with code 1; else the audit has a line per row, rotated exactly when the old key opens it and its commit goes through; a row not rotated is byte for byte what it was, a rotated one holds its text under the new key; the counts match the audit, code 0 exactly without failures; whatever the new key with the old behind it could read, it reads unchanged |
| `KeyRotation.RotatedMeans` | apps/api/scripts/rotate_kek.py:95-118 | The account the loop keeps means just that for each row and its audit line |
| `KeyRotation.RunKeepsReadable` | apps/api/scripts/rotate_kek.py:95-118 | Such a run, with any failed commits, takes no readable secret away and changes no text |
| `KeyRotation.OnlyCommitsWrite` | apps/api/scripts/rotate_kek.py:96-118 | In the step model a row changes only by a commit of a write pending for that row, to the bytes of that write |
| `KeyRotation.SoloRunIsTheScript` | apps/api/scripts/rotate_kek.py:95-118 | A run of the step model that nothing interferes with satisfies the same account of rows, audit and counts as the script's loop, for any rows and commit outcomes |
| `KeyRotation.ExitZero` | apps/api/scripts/rotate_kek.py:95-124 | No failure if and only if every row is text under the old key and every commit goes through; then the new key alone opens every row to the same text |
| `KeyRotation.RerunChangesNothing` | apps/api/scripts/rotate_kek.py:95-118 | Rows under the new key stay byte for byte the same; a run over only such rows rotates none |
| `KeyRotation.RotateAgain` | apps/api/scripts/rotate_kek.py:64-124 | After a run with code 0, a second run changes nothing and returns 0 again if and only if the table is empty |
| `KeyRotation.StepRefines` | apps/api/scripts/rotate_kek.py:96-118 | Any interleaved step keeps the text of every row and rewrites it only under the new key, from the old key or, with overlapping runs, from the new one |
| `KeyRotation.ExecutionRefines` | apps/api/scripts/rotate_kek.py:95-118 | The same over any interleaving of runs, inserts, failed commits and crashes |
| `KeyRotation.NoSecretIsLost` | apps/api/src/gw2analytics_api/crypto.py:52-71 | Under any configuration, what the application can read at one moment of an execution, original or inserted, it reads unchanged at every later moment |
| `KeyRotation.ReadableThroughout` | apps/api/src/gw2analytics_api/crypto.py:52-71 | A row with a text under the old or the new key is readable at every moment of every execution if and only if its key is the new one or the old key is among the fallbacks |
| `KeyRotation.StepKeepsRunsSound` | apps/api/scripts/rotate_kek.py:95-118 | Every step keeps: a run without failures has every row under the new key or still ahead of it |
| `KeyRotation.FinishedRun` | apps/api/scripts/rotate_kek.py:92-124 | A finished run counted each row once; without failures the new key alone opens the whole table, rows inserted meanwhile included |
| `KeyRotation.RotatedRowsAreFinal` | apps/api/scripts/rotate_kek.py:84-118 | A row under the new key is never written again in any execution, overlapping runs included, if and only if no run has a write of it pending or is about to visit it as a first row loaded under the old key; pending writes are other bytes than the row, as every sealing has its own nonce |
| `KeyRotation.RotatedAloneIsFinal` | apps/api/scripts/rotate_kek.py:84-118 | While runs do not overlap, whatever crashes and restarts, no run is stale on a rotated row, so it is final from then on |
| `KeyRotation.OverlapIsReachable` | apps/api/scripts/rotate_kek.py:84-101 | Two overlapping runs reach a state in which both have a write of the same row pending |
| `KeyRotation.OverlappingRunsRewrite` | apps/api/scripts/rotate_kek.py:98-101 | From there the second commit replaces the ciphertext the first one wrote under the new key |
| `SecretMigration.Table.Upgrade` | apps/api/alembic/versions/0009_webhook_secret_at_rest.py:154-217 | Drops the plaintext column and leaves each non-empty secret in an envelope under the key, each empty one empty |
| `SecretMigration.Table.Downgrade` | apps/api/alembic/versions/0009_webhook_secret_at_rest.py:220-264 | Succeeds if and only if the key opens every envelope, and then restores the plaintext; on failure the table is as before |
| `SecretMigration.RoundTrip` | apps/api/alembic/versions/0009_webhook_secret_at_rest.py:154-264 | Downgrade after upgrade succeeds if and only if the key is the same or there was nothing to encrypt, and restores every secret, empty ones included |
| `SecretMigration.UpgradeThenDowngrade` | apps/api/alembic/versions/0009_webhook_secret_at_rest.py:154-264 | Both loops on one table, rows in any order: the columns are what they were |
| `QueueUptime.QueueUptime` | scripts/ei-parity/probe_buff_ei.py:39-79 | The outer loop with its fuel and clock jumps equals the sum over groups of equal start, for every capacity |
| `QueueUptime.Drain` | scripts/ei-parity/probe_buff_ei.py:51-60 | Draining a queue of one start moves the clock by its longest stack, cut at the end of the fight, and counts that much |
| `QueueUptime.Fill` | scripts/ei-parity/probe_buff_ei.py:67-78 | Filling takes exactly the stacks of the next start through the bounded buffer |
| `QueueUptime.OverflowKeepsLongest` | scripts/ei-parity/probe_buff_ei.py:72-78 | Replacing the shortest stack behind the front never loses the longest |
| `QueueUptime.BufferPeak` | scripts/ei-parity/probe_buff_ei.py:70-78 | Which longest stack a buffer of each capacity still holds |
| `QueueUptime.ThreeStacksAreNeeded` | scripts/ei-parity/probe_buff_ei.py:70-78 | A buffer keeps the longest stack of every input if and only if its capacity is at least three |
| `QueueUptime.UptimeIsReference` | scripts/ei-parity/probe_buff_ei.py:49-79 | Group by group, the simulated sum is the reference sum over the distinct starts, as long as the fuel covers them |
| `QueueUptime.StartsAreUnique` | scripts/ei-parity/probe_buff_ei.py:127-132 | The increasing list of the distinct starts of a sorted list exists and is the only one |
| `QueueUptime.SimulatorMeetsReference` | scripts/ei-parity/probe_buff_ei.py:39-79 | For capacity three and above and fewer than a million distinct starts: the longest stack per distinct start, in order, cut where one reaches the end of the fight |
| `QueueUptime.ThreeStacksMeetReference` | scripts/ei-parity/probe_buff_ei.py:39-79 | The simulator meets this reference on every sorted input if and only if the capacity is at least three |
| `QueueUptime.ReferenceVersusTimes` | scripts/ei-parity/probe_buff_ei.py:49-79 | The reference sum is at least the number of milliseconds from any frontier on in which some start runs, with equality if and only if no counted run starts before the frontier or overlaps an earlier one |
| `QueueUptime.ActiveTimeIffClear` | scripts/ei-parity/probe_buff_ei.py:39-79 | The simulator never reports less than the active time of the fight, counted from zero, and reports exactly it if and only if no counted run starts before zero or overlaps an earlier one |
| `QueueUptime.NegativeStartIsCounted` | scripts/ei-parity/probe_buff_ei.py:64-66 | A stack that starts before zero is counted from its start |
| `QueueUptime.BoundedWithoutOverlap` | scripts/ei-parity/probe_buff_ei.py:39-79 | As a consequence, the simulated total without overlap is at most what is left of the fight after the first start |
| `StableSort.SortSorts` | scripts/ei-parity/probe_ei_finders.py:80 | Sorting by a total preorder returns an ordered permutation |
| `StableSort.SortIsStable` | scripts/ei-parity/ei_diff.py:527 | Elements that compare equal keep their order |
| `InstantCasts.ApplyIcd` | scripts/ei-parity/probe_ei_finders.py:70-86 | The loop over the table of last times equals the gate that compares each hit with its neighbour in order |
| `InstantCasts.GateKeepsBurstLeaders` | scripts/ei-parity/probe_ei_finders.py:70-86 | For a positive interval, exactly the first hit of each maximal burst is kept, once, in order |
| `InstantCasts.GateIgnoresOrder` | scripts/ei-parity/probe_ei_finders.py:80 | The result depends only on the set of hits |
| `InstantCasts.GateIsIdempotent` | scripts/ei-parity/probe_ei_finders.py:70-86 | Kept hits of one agent are an interval apart, and gating again changes nothing |
| `InstantCasts.SlidingIsStricter` | scripts/ei-parity/probe_ei_finders.py:73-76 | Whatever the sliding gate keeps, a gate anchored on the last kept hit keeps too |
| `InstantCasts.AnchoringLetsTheTailThrough` | scripts/ei-parity/probe_ei_finders.py:73-76 | A burst whose tail only the anchored gate lets through |
| `InstantCasts.ReadEvents` | scripts/ei-parity/probe_ei_finders.py:419-427 | The first loop: the windows are exactly those from a start to the next event of the agent, an end, and the recorded duration before an end without a start; the casts left open are exactly the starts that no event of the agent follows |
| `InstantCasts.CastWindows` | scripts/ei-parity/probe_ei_finders.py:417-430 | The windows of every agent are exactly those, plus an empty one at each start left open |
| `InstantCasts.OpenMeansCast` | scripts/ei-parity/probe_ei_finders.py:421-427 | Before an ending event, a cast is in progress exactly when the event ends a start, and began then |
| `InstantCasts.WindowsAreCasts` | scripts/ei-parity/probe_ei_finders.py:417-430 | A window belongs to an agent if and only if its events hold such a cast |
| `InstantCasts.WindowsAreWellFormed` | scripts/ei-parity/probe_ei_finders.py:417-430 | For time-ordered events: their exact number, and each runs forwards in time |
| `InstantCasts.PairedWindowsAreDisjoint` | scripts/ei-parity/probe_ei_finders.py:423-427 | Windows of one agent with both ends recorded overlap in end points only |
| `InstantCasts.DropAnimated` | scripts/ei-parity/probe_ei_finders.py:442-451 | The loop of the rule keeps the effects outside all windows of their caster, in order |
| `InstantCasts.LesserSymbolOfProtection` | scripts/ei-parity/probe_ei_finders.py:433-452 | The composed rule books, once and in order, exactly the effects that lie outside every cast of their caster, ten milliseconds on both sides included, and not within fifty of an earlier such effect |
| `InstantCasts.RuleKeepsTraitProcs` | scripts/ei-parity/probe_ei_finders.py:433-452 | The booked effects, characterised by the events and effects alone |
| `InstantCasts.MidCastIsNoProc` | scripts/ei-parity/probe_ei_finders.py:433-452 | An effect from ten milliseconds before a start to ten after its end is never booked |
| `TaggedLoad.Section.Render` | web/src/components/LazyTabbedTimelineSection.tsx:103-111 | A render with other properties moves the request on, and shows a response only under the current tags |
| `TaggedLoad.Section.RunEffects` | web/src/components/LazyTabbedTimelineSection.tsx:114-136 | An effect runs only for a changed request, after the previous one was cleaned up |
| `TaggedLoad.Section.Respond` | web/src/components/ReadoutTabClient.tsx:539-558 | A response or failure is stored under the tags of its own effect, unless that effect was cleaned up |
| `TaggedLoad.RunsStaySound` | web/src/components/ReadoutTabClient.tsx:516-570 | In every run effects have ever later generations, and a stored response answers an effect with its tags |
| `TaggedLoad.DisplayIsCurrent` | web/src/components/LazyTabbedTimelineSection.tsx:138-143 | In every run, with or without cleanup, what is shown answers the only effect of the current generation; A to B to A included |
| `TaggedLoad.RenderFollowsProps` | web/src/components/LazyTabbedTimelineSection.tsx:103-143 | A render with the same properties changes nothing; one with others takes them over and shows the loading state, even if they were loaded before |
| `TaggedLoad.EffectsAskForCurrent` | web/src/components/LazyTabbedTimelineSection.tsx:114-137 | In every run, after the effects the newest one is for the current properties and generation, and it is new exactly when that request had changed |
| `TaggedLoad.DisplayedIffAnswered` | web/src/components/LazyTabbedTimelineSection.tsx:114-143 | In every run, with cleanup, something is shown if and only if the newest effect is for the current request and has been answered |
| `TaggedLoad.DisplayIsStable` | web/src/components/LazyTabbedTimelineSection.tsx:115-135 | With cleanup, a current result once shown stays until the properties change |
| `TaggedLoad.FlagDecides` | web/src/components/LazyTabbedTimelineSection.tsx:115-135 | While a current result is shown, any other response leaves it shown if and only if the callbacks consult the flag; otherwise the loading state replaces it |
| `PagedTimeline.Section.Trigger` | web/src/components/PlayerTimelineSection.tsx:252-338 | Each handler's guard and request; a rejected action changes nothing |
| `PagedTimeline.Section.Succeed` | web/src/components/PlayerTimelineSection.tsx:269-284 | What each handler commits when its response arrives |
| `PagedTimeline.Section.Fail` | web/src/components/PlayerTimelineSection.tsx:280-284 | A failure reports the error and leaves the list, bucket and timezone alone |
| `PagedTimeline.TriggerIsTakenUp` | web/src/components/PlayerTimelineSection.tsx:252-344 | An idle section takes an action up exactly when there is something to do, a busy one never |
| `PagedTimeline.FailureKeepsList` | web/src/components/PlayerTimelineSection.tsx:252-344 | A failure reports its message and leaves everything that is shown |
| `PagedTimeline.ChangeShowsFirstPage` | web/src/components/PlayerTimelineSection.tsx:286-344 | The answer to a change shows the first page of exactly the bucket and timezone asked for, days after a change of timezone |
| `PagedTimeline.NextPageIsFresh` | web/src/components/PlayerTimelineSection.tsx:274-279 | Against an unchanging list the de-duplication drops nothing |
| `PagedTimeline.StepShowsPrefix` | web/src/components/PlayerTimelineSection.tsx:249-344 | Every step keeps: the points are a prefix of the list for the current bucket and timezone; a loaded page extends it by the limit |
| `PagedTimeline.PointsArePrefix` | web/src/components/PlayerTimelineSection.tsx:249-344 | So in every run of successes and failures, and the whole list once there is no more |
| `PagedTimeline.FreshIsDistinct` | web/src/components/PlayerTimelineSection.tsx:274-275 | The points added are exactly those whose ids are new, without repetition |
| `PagedTimeline.IdsStayDistinct` | web/src/components/PlayerTimelineSection.tsx:252-344 | In every run, whatever list each page comes from, ids stay distinct |
| `PagedTimeline.LoadMoreShows` | web/src/components/PlayerTimelineSection.tsx:252-279 | For any list at the time of the answer, a fight of it is shown afterwards if and only if it was shown before or lies in the requested window |
| `PagedTimeline.LoadMoreCompletes` | web/src/components/PlayerTimelineSection.tsx:252-279 | The answer completes that list if and only if every fight not shown yet lies in the window |
| `PagedTimeline.LoadMoreAddsNothing` | web/src/components/PlayerTimelineSection.tsx:274-279 | The answer adds nothing if and only if every fight in the window is shown already |
| `PagedTimeline.PassedIsNeverShown` | web/src/components/PlayerTimelineSection.tsx:252-285 | A fight missing before the end of what is loaded is never shown in any run that only loads more |
| `PagedTimeline.GaplessLoads` | web/src/components/PlayerTimelineSection.tsx:252-279 | With none missing, an answer loads its whole window and leaves none missing |
| `PagedTimeline.RunCompletesList` | web/src/components/PlayerTimelineSection.tsx:252-285 | A run that only loads more shows the whole list if and only if none was missing before the end of what was loaded and its answers reach the end of the list |
| `PagedTimeline.NewestFightNeverAppears` | web/src/components/PlayerTimelineSection.tsx:249-285 | From the first page on, with a fight added in front of the list: no run of loading more ever shows it, and more stays on offer |
| `PagedTimeline.NewestFightIsAnnounced` | web/src/components/PlayerTimelineSection.tsx:249-285 | Such runs exist, and the first answer counts the fight in the total |
| `WebhookPanel.ReducerGuards` | web/src/components/CreateWebhookPanel.tsx:111-168 | A secret is revealed exactly by a success that meets the form, and leaves exactly on open, cancel or done; a submission ends on nothing but open, cancel, success or failure |
| `WebhookPanel.Panel.HandleSubmit` | web/src/components/CreateWebhookPanel.tsx:191-253 | Blank URL and bad filter fail without a request, a second submission does nothing, otherwise exactly one request with the form's values is sent |
| `WebhookPanel.TrimCutsSpace` | web/src/components/CreateWebhookPanel.tsx:197-216 | Trimming cuts white space off both ends and nothing else, and leaves none there |
| `WebhookPanel.SubmitOutcome` | web/src/components/CreateWebhookPanel.tsx:191-253 | From an idle form: an error for a blank URL or a bad filter, else one request with trimmed URL and filter, the default filter exactly for a blank one, and no description exactly for a blank one |
| `WebhookPanel.FormHoldsLastEdits` | web/src/components/CreateWebhookPanel.tsx:111-136 | In every run the form holds what was last typed into each field since it was opened |
| `WebhookPanel.RequestCarriesLastEdits` | web/src/components/CreateWebhookPanel.tsx:191-253 | In every run a request sent carries the last edits in this way, and one is sent unless the last filter is bad |
| `WebhookPanel.Panel.HandleAnswer` | web/src/components/CreateWebhookPanel.tsx:254-259 | The answer reveals the secret or returns to the form with the error |
| `WebhookPanel.Panel.HandleCopyEnds` | web/src/components/CreateWebhookPanel.tsx:271-295 | A finished clipboard write marks whatever is revealed at that time |
| `WebhookPanel.StepKeepsSound` | web/src/components/CreateWebhookPanel.tsx:111-168 | Every enabled step keeps: one request at most, in flight exactly while the panel is a submitting form; a success always reveals its own secret |
| `WebhookPanel.RunsStaySound` | web/src/components/CreateWebhookPanel.tsx:191-426 | So in every run of enabled controls and asynchronous answers |
| `WebhookPanel.StaysUntilDismissed` | web/src/components/CreateWebhookPanel.tsx:489-512 | A revealed secret stays, or some later event is Done pressed on it with the box ticked |
| `WebhookPanel.EverySecretIsShown` | web/src/components/CreateWebhookPanel.tsx:137-153 | In every run from the closed panel, every secret the server returns is shown at once and leaves only by an acknowledged Done |
| `WebhookPanel.RevealFollowsClicks` | web/src/components/CreateWebhookPanel.tsx:154-168 | Until Done, the box is what was last clicked and the mark says that some clipboard write succeeded |
| `WebhookPanel.MarkFollowsOwnCopy` | web/src/components/CreateWebhookPanel.tsx:271-295 | With no mark yet and no foreign write under way, up to Done the mark is set exactly when a write of this secret succeeded |
| `WebhookPanel.MarkIsHonest` | web/src/components/CreateWebhookPanel.tsx:271-295 | In every run up to Done a mark means that a write of this secret succeeded in it if and only if there was no mark at first and no write of another secret under way |
| `WebhookPanel.StaleCopyMarks` | web/src/components/CreateWebhookPanel.tsx:271-295 | A reachable run that marks a secret as copied although Copy was never pressed on it |
| `BrokenLine.AllDates` | web/src/components/CrossAccountTimelineChart.tsx:202-210 | The shared axis is strictly increasing and has exactly the dates of all points |
| `BrokenLine.Align` | web/src/components/CrossAccountTimelineChart.tsx:214-228 | Each aligned value is that of the last point at its date, or a gap |
| `BrokenLine.LastAtWins` | web/src/components/CrossAccountTimelineChart.tsx:217-220 | A date has a value exactly when a point has it, and the last such point gives it |
| `BrokenLine.BuildSegments` | web/src/components/CrossAccountTimelineChart.tsx:142-175 | The paths are maximal runs of values, each a move and then lines, in order, and cover every value |
| `BrokenLine.CloseRun` | web/src/components/CrossAccountTimelineChart.tsx:161-173 | Closing a run at a gap keeps this |
| `BrokenLine.SegmentsDetermineValues` | web/src/components/CrossAccountTimelineChart.tsx:142-175 | The aligned values, gaps included, can be read back from the paths |
| `BrokenLine.PathsJoinRuns` | web/src/components/CrossAccountTimelineChart.tsx:142-175 | Two values lie on one path if and only if there is no gap between them |
| `BrokenLine.SegmentsShow` | web/src/components/CrossAccountTimelineChart.tsx:142-228 | The paths of the aligned values show the series on the axis in this sense |
| `BrokenLine.Draw` | web/src/components/CrossAccountTimelineChart.tsx:142-228 | The axis holds exactly the dates of all series; at each of them the paths show the last point of the series or a gap; two of its dates lie on one path if and only if it has a point at every date of any series between them |
| `Downsample.ActivityLosesNothing` | web/src/components/ReadoutTabClient.tsx:176-179 | The active windows have the totals of all windows if and only if every dropped window is zero in both, which non-negative totals imply |
| `Downsample.GroupsCover` | web/src/components/ReadoutTabClient.tsx:192-195 | Groups are non-empty, consecutive, of full size except the last, and make up the windows |
| `Downsample.GroupsAreFew` | web/src/components/ReadoutTabClient.tsx:192-194 | At most as many groups as the size times which covers the windows |
| `Downsample.GroupSize` | web/src/components/ReadoutTabClient.tsx:192 | The least size for which two hundred groups suffice |
| `Downsample.ChartKeepsTotals` | web/src/components/ReadoutTabClient.tsx:195-200 | Grouping keeps the total damage and the total healing |
| `Downsample.PlotEach` | web/src/components/ReadoutTabClient.tsx:185-191 | Up to two hundred windows, one point each is the grouping of size one |
| `Downsample.PlotGroups` | web/src/components/ReadoutTabClient.tsx:192-202 | The loop over slices yields one point per group |
| `Downsample.PointIsGroup` | web/src/components/ReadoutTabClient.tsx:192-202 | Point i stands for the windows from i times the group size on, with their totals, at the share of the span at which the first of them starts |
| `Downsample.SinglePoint` | web/src/components/ReadoutTabClient.tsx:185-191 | Without grouping, point i has the damage and healing of window i |
| `Downsample.Points` | web/src/components/ReadoutTabClient.tsx:182-203 | At most two hundred points, one per window up to two hundred windows; they keep the totals of the fight if and only if no dropped window is non-zero, and run from left to right in an ordered fight, in both modes |
| `Downsample.PointsRunLeftToRight` | web/src/components/ReadoutTabClient.tsx:192-197 | For windows that start in order within the span, grouped points run from left to right between 0 and 100 |
| `Downsample.ChartRunsLeftToRight` | web/src/components/ReadoutTabClient.tsx:176-197 | The filter keeps the order, so this holds on the scale of the whole fight in both modes |
| `Heatmap.Interpolate` | web/src/components/PlayerPositionHeatmap.tsx:216-238 | The loop finds the first segment reaching the time, and never divides by zero, for samples in any order |
| `Heatmap.PassesThroughSamples` | web/src/components/PlayerPositionHeatmap.tsx:223-232 | With increasing times the interpolation passes through every sample |
| `Heatmap.PositionIsProportional` | web/src/components/PlayerPositionHeatmap.tsx:223-232 | Between two neighbouring samples with increasing times the way walked is to the whole way as the time passed is to the whole time, in both coordinates |
| `Heatmap.PositionIsClamped` | web/src/components/PlayerPositionHeatmap.tsx:222-237 | Up to the first sample and past the last one the position is that sample |
| `Heatmap.HullIsTight` | web/src/components/PlayerPositionHeatmap.tsx:195-206 | The bounds enclose every sample, each side touches one, and they exist as soon as there is a sample |
| `Heatmap.Collect` | web/src/components/PlayerPositionHeatmap.tsx:197-204 | The loops gather the coordinates of all samples of all players |
| `Heatmap.PositionStaysInBox` | web/src/components/PlayerPositionHeatmap.tsx:216-238 | At every time a player with samples has a position inside the bounds |
| `Heatmap.ProjectStaysInCanvas` | web/src/components/PlayerPositionHeatmap.tsx:206-214 | Bounds go to the padded canvas sides, zero range and negative length included |
| `Heatmap.ProjectIsProportional` | web/src/components/PlayerPositionHeatmap.tsx:206-214 | Distances on the canvas, from the padding of forty on, are in proportion to distances in the fight |
| `Heatmap.DotOfPlayer` | web/src/components/PlayerPositionHeatmap.tsx:292-304 | Every player with a sample has its dot at its projected position, after those of the players before it, and nobody else has one |
| `Heatmap.CentreStaysInCanvas` | web/src/components/PlayerPositionHeatmap.tsx:335-337 | The mean of dots in the padded canvas lies in it |
| `Heatmap.CentreBalances` | web/src/components/PlayerPositionHeatmap.tsx:301-337 | The distances of the dots from their mean cancel out |
| `Heatmap.Draw` | web/src/components/PlayerPositionHeatmap.tsx:195-304 | Every dot and the centre of mass lie in the padded canvas, forty pixels from each side; the centre exists exactly for two or more dots, and the distances of the dots from it cancel out |
| `DeltaReport.BucketHasNoGroup` | scripts/ei-parity/ei_diff.py:106-111 | No bracketed group is left in a bucket |
| `DeltaReport.BucketCutsGroup` | scripts/ei-parity/ei_diff.py:106-111 | The leftmost bracketed group is cut out, what is before it stays, and the rest is bucketed likewise |
| `DeltaReport.BucketFixesGroupless` | scripts/ei-parity/ei_diff.py:106-111 | A key is its own bucket if and only if it has no bracketed group, so bucketing is idempotent |
| `DeltaReport.FirstApplicable` | scripts/ei-parity/ei_diff.py:500-510 | The cited rule is the first whose selector and bound both hold; none exactly when none does |
| `DeltaReport.AppliesExactly` | scripts/ei-parity/ei_diff.py:450-481 | A rule applies exactly when every dimension it selects has that value and its bound, if any, is a number not below the size of a numeric delta |
| `DeltaReport.ClassifyResult` | scripts/ei-parity/ei_diff.py:491-526 | A pass stays a pass, a failure is a known delta exactly when some rule applies, any other status aborts |
| `DeltaReport.RowStatus` | scripts/ei-parity/ei_diff.py:495-512 | The status of a row in terms of the result and all rules |
| `DeltaReport.ClassifyResults` | scripts/ei-parity/ei_diff.py:484-526 | One such row per result of all runs, in order, or an abort exactly on an unexpected status |
| `DeltaReport.MoreRulesLoseNothing` | scripts/ei-parity/ei_diff.py:499-512 | More rules never lose a known delta or touch a pass; reordering changes at most the cited rule |
| `DeltaReport.Summarise` | scripts/ei-parity/ei_diff.py:538-542 | The counters count statuses, and buckets per status |
| `DeltaReport.SummaryKeys` | scripts/ei-parity/ei_diff.py:541 | A status has a bucket counter exactly when it occurs |
| `DeltaReport.SummaryBuckets` | scripts/ei-parity/ei_diff.py:541-542 | It counts exactly the buckets of the rows with that status |
| `DeltaReport.CountsAddUp` | scripts/ei-parity/ei_diff.py:538-542 | Status counts sum to the number of rows, and each status count is the sum of its bucket counts |
| `DeltaReport.CountsIgnoreOrder` | scripts/ei-parity/ei_diff.py:527-542 | Sorting the rows changes no counter |
| `DeltaReport.StringOrderIsByFirstDifference` | scripts/ei-parity/ei_diff.py:527 | Rows are ordered by prefix, or by the first difference of their strings |
| `DeltaReport.BuildReport` | scripts/ei-parity/ei_diff.py:531-554 | The report shows exactly one row per result, ordered by stem and key with ties as they came, and counts them; it fails exactly on an unexpected status |
| `BoonColumns.LegacyNames` | apps/api/alembic/versions/8534265864ec_add_boon_uptimes_and_outgoing_boons_to_.py:61-62 | When legacy, canonical and outgoing names of two boons coincide |
| `BoonColumns.Table.RenameLegacy` | apps/api/alembic/versions/8534265864ec_add_boon_uptimes_and_outgoing_boons_to_.py:59-90 | Legacy names are gone, a free canonical name has the data of its legacy column, all else is as it was |
| `BoonColumns.Table.AddMissing` | apps/api/alembic/versions/8534265864ec_add_boon_uptimes_and_outgoing_boons_to_.py:95-103 | Missing canonical and outgoing columns are added, all else is as it was |
| `BoonColumns.Table.Upgrade` | apps/api/alembic/versions/8534265864ec_add_boon_uptimes_and_outgoing_boons_to_.py:40-103 | Both loops together, name by name |
| `BoonColumns.UpgradeAligns` | apps/api/alembic/versions/8534265864ec_add_boon_uptimes_and_outgoing_boons_to_.py:40-103 | From any starting columns: aligned, other columns untouched, canonical data kept, legacy data moved whenever the canonical name was free |
| `BoonColumns.UpgradeOfBoon` | apps/api/alembic/versions/8534265864ec_add_boon_uptimes_and_outgoing_boons_to_.py:59-103 | For each boon, with the names written out: the legacy column is gone, and the canonical one has its own data, else the legacy data, else NULLs; likewise the outgoing one |
| `BoonColumns.UpgradeIsIdempotent` | apps/api/alembic/versions/8534265864ec_add_boon_uptimes_and_outgoing_boons_to_.py:43-48 | Running it twice is running it once |
| `BoonColumns.ClashIsFatal` | apps/api/alembic/versions/8534265864ec_add_boon_uptimes_and_outgoing_boons_to_.py:59-90 | An aligned table exists if and only if no boon is another one with the legacy prefix |
| `BoonColumns.BoonsDoNotClash` | apps/api/alembic/versions/8534265864ec_add_boon_uptimes_and_outgoing_boons_to_.py:22-37 | The fourteen boons of the migration satisfy this |

## Left out

- FetchCache.Cache.Fetch: the HTTP request, the parsing of error bodies and the construction of the key
  are not modelled; a fetch settles with any body or fails, at any time, with any clock reading.
- SchemaFields.ResponseFields: schemas are records of the keys the walk looks at; a schema whose
  `anyOf`, `properties` or `items` is not of the expected JSON type makes the code raise, and is not modelled.
- KeyRotation.Database.RotateKek: the check of the environment variables, malformed keys and the text of
  the audit lines are not modelled; the audit is the sequence of row id and success.
- KeyRotation.NoSecretIsLost: assumes that rows are not deleted (the application marks a subscription
  inactive) and that every application process already has the new key first, as the procedure prescribes.
- KeyRotation.StepRefines: a run reads its first row as the initial SELECT loaded it and every later row
  when its turn comes, as the session expires what it loaded at each commit or rollback; other effects of
  transaction isolation are not modelled.
- SecretMigration.Table.Downgrade: a failing downgrade leaves the table as it was because the migration
  runs in one transaction; transactions themselves, non-string rows and the length limit of the restored
  column are not modelled.
- QueueUptime.SimulatorMeetsReference: the capacity table, the event stream and the comparison with a
  recorded uptime are not modelled.
- QueueUptime.QueueUptime: the inner loops are the methods `Drain` and `Fill`; the list of stacks must be
  sorted by start, as the caller sorts it.
- InstantCasts.LesserSymbolOfProtection: effects of all effect ids are one list; the parser and the other
  rules, which add simpler compositions, are not modelled.
- TaggedLoad.Section.Respond: the variant without the flag exists only in `TaggedLoad.FlagDecides` and in the
  run `TaggedLoad.UnguardedDisplayIsLost`, to show what the flag is for.
- TaggedLoad.Section.Render: all identifying properties are one value; the three parallel requests of the
  readout are one; unmounting and the double effects of development mode are not modelled.
- PagedTimeline.Section.Trigger: the stored scale and the text of errors are not modelled; a response is
  any page, and for the prefix theorem a slice of the server's list.
- WebhookPanel.Panel.HandleSubmit: the JSON parser is a parameter that objects or does not; focus, the
  list refresh after Done and the error texts of the server are not modelled. Only enabled controls
  fire, on the state that is rendered.
- BrokenLine.Draw: dates are integers standing for ISO strings, values are integers, and path
  coordinates are replaced by index and value.
- Downsample.Points: a negative total, which `Downsample.NegativeTotalIsLost` shows would be missed, cannot be
  received, as `libs/gw2_analytics/src/gw2_analytics/event_window.py:99-100` declares both totals non-negative;
  positions are reals, so rounding is not modelled, and gap lines and the export are left out.
- Heatmap.Draw: coordinates are reals, not floating point; trails, the grid, labels and the wait for layout are left out.
- DeltaReport.ClassifyResult: results are records with a key, an optional numeric delta and the selectable
  dimensions; entries that are not objects, the copied expected and actual values, and JSON equality of
  booleans with numbers are not modelled.
- DeltaReport.BuildReport: reference data, the manifest hash, rule validation and the files are not modelled.
- BoonColumns.Table.Upgrade: column types and the information schema are not modelled; a column is its name
  and its contents.
- Fernet, gzip, PostgreSQL, React rendering, SVG, canvas drawing, routing and styling appear only through
  the values above.
- The other migrations, health and authentication helpers, formatting, the replay player, the other probe
  scripts and the file orchestration of the parity tools would only add easy members.
