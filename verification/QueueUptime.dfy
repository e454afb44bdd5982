/**
  The duration-buff queue simulator: stacks are queued in a bounded buffer, only the front one runs,
  and on overflow the shortest queued stack is replaced.

  The method keeps the source's loops, its fuel counter and its jump of the clock to the next start,
  which can go backwards.  The reference is a sum over distinct start times that knows neither the
  buffer nor the fuel.
*/
module QueueUptime {

  datatype Stack = Stack(start: int, duration: int)

  const FUEL := 1_000_000

  ghost predicate SortedByStart(stacks: seq<Stack>) {
    forall i, j :: 0 <= i < j < |stacks| ==> stacks[i].start <= stacks[j].start
  }

  function Max(a: int, b: int): int {
    if a < b then b else a
  }

  function Min(a: int, b: int): int {
    if a < b then a else b
  }

  // ----- The buffer ----------------------------------------------------------------------------

  /** The position of the first shortest stack. */
  function Shortest(buf: seq<Stack>): (k: nat)
    requires buf != []
    ensures k < |buf| && forall j :: 0 <= j < |buf| ==> buf[k].duration <= buf[j].duration
  {
    if |buf| == 1 then 0
    else
      var k := Shortest(buf[..|buf| - 1]);
      if buf[|buf| - 1].duration < buf[k].duration then |buf| - 1 else k
  }

  /** Append, or overwrite the shortest stack behind the front; with nothing behind it, drop the new one. */
  function Push(cap: nat, buf: seq<Stack>, item: Stack): seq<Stack> {
    if |buf| < cap then buf + [item]
    else if |buf| > 1 then buf[1 + Shortest(buf[1..]) := item]
    else buf
  }

  function Buffer(cap: nat, items: seq<Stack>): seq<Stack> {
    if items == [] then [] else Push(cap, Buffer(cap, items[..|items| - 1]), items[|items| - 1])
  }

  /** The longest duration, counting from zero. */
  function Longest(stacks: seq<Stack>): int {
    if stacks == [] then 0 else Max(Longest(stacks[..|stacks| - 1]), stacks[|stacks| - 1].duration)
  }

  ghost predicate IsLongest(stacks: seq<Stack>, d: int) {
    d >= 0 && (forall i :: 0 <= i < |stacks| ==> stacks[i].duration <= d) &&
    (d == 0 || exists i :: 0 <= i < |stacks| && stacks[i].duration == d)
  }

  lemma {:induction false} LongestIsLongest(stacks: seq<Stack>)
    ensures IsLongest(stacks, Longest(stacks))
  {
    if stacks == [] {
    } else {
      var before := stacks[..|stacks| - 1];
      LongestIsLongest(before);
      assert forall i :: 0 <= i < |before| ==> before[i] == stacks[i];
      if Longest(stacks) != 0 && Longest(stacks) == Longest(before) {
        var i :| 0 <= i < |before| && before[i].duration == Longest(before);
        assert stacks[i].duration == Longest(stacks);
      }
    }
  }

  /** The longest stack that a buffer of the given capacity still holds. */
  function Peak(cap: nat, items: seq<Stack>): int {
    if cap == 0 || items == [] then 0
    else if cap == 1 then Max(0, items[0].duration)
    else if cap == 2 then Max(0, Max(items[0].duration, items[|items| - 1].duration))
    else Longest(items)
  }

  lemma LongestUnique(stacks: seq<Stack>, d: int)
    requires IsLongest(stacks, d)
    ensures Longest(stacks) == d
  {
    LongestIsLongest(stacks);
  }

  /** Replacing the shortest of at least two queued stacks never loses the longest. */
  lemma OverflowKeepsLongest(buf: seq<Stack>, item: Stack)
    requires |buf| >= 3
    ensures Longest(buf[1 + Shortest(buf[1..]) := item]) == Max(Longest(buf), item.duration)
  {
    var k := 1 + Shortest(buf[1..]);
    var buf' := buf[k := item];
    var d := Max(Longest(buf), item.duration);
    assert buf[1..][k - 1] == buf[k];
    LongestIsLongest(buf);
    if d == item.duration {
      assert buf'[k].duration == d;
    } else if d != 0 {
      var i :| 0 <= i < |buf| && buf[i].duration == d;
      var j := if k == 1 then 2 else 1;
      assert buf[1..][j - 1] == buf[j];
      assert buf'[if i == k then j else i].duration >= d;
    }
    LongestUnique(buf', d);
  }

  lemma {:induction false} SmallBuffer(cap: nat, items: seq<Stack>)
    requires cap <= 2
    ensures Buffer(cap, items) == if cap == 0 || items == [] then []
                                  else if cap == 1 || |items| == 1 then [items[0]]
                                  else [items[0], items[|items| - 1]]
    decreases |items|
  {
    if items == [] {
    } else {
      SmallBuffer(cap, items[..|items| - 1]);
    }
  }

  lemma {:induction false} LargeBuffer(cap: nat, items: seq<Stack>)
    requires cap >= 3
    ensures |Buffer(cap, items)| == Min(|items|, cap)
    ensures Longest(Buffer(cap, items)) == Longest(items)
    decreases |items|
  {
    if items == [] {
    } else {
      var before, item := items[..|items| - 1], items[|items| - 1];
      LargeBuffer(cap, before);
      var buf := Buffer(cap, before);
      if |buf| < cap {
        assert (buf + [item])[..|buf|] == buf;
      } else {
        OverflowKeepsLongest(buf, item);
      }
    }
  }

  lemma BufferPeak(cap: nat, items: seq<Stack>)
    ensures Longest(Buffer(cap, items)) == Peak(cap, items)
  {
    if cap >= 3 {
      LargeBuffer(cap, items);
    } else {
      SmallBuffer(cap, items);
      var buf := Buffer(cap, items);
      assert buf != [] ==> buf[0].duration == items[0].duration;
      assert |buf| == 2 ==> buf[1].duration == items[|items| - 1].duration;
      LongestUnique(Buffer(cap, items), Peak(cap, items));
    }
  }

  // ----- The simulator -------------------------------------------------------------------------

  ghost predicate IsGroup(stacks: seq<Stack>, i: nat, j: nat) {
    i < j <= |stacks| && (forall k :: i <= k < j ==> stacks[k].start == stacks[i].start) &&
    (j < |stacks| ==> stacks[j].start != stacks[i].start)
  }

  /** Where the run of equal starts beginning at `i` ends. */
  function GroupEnd(stacks: seq<Stack>, i: nat): (j: nat)
    requires i < |stacks|
    ensures IsGroup(stacks, i, j)
    decreases |stacks| - i
  {
    if i + 1 < |stacks| && stacks[i + 1].start == stacks[i].start then GroupEnd(stacks, i + 1) else i + 1
  }

  function GroupPeak(stacks: seq<Stack>, i: nat, cap: nat): int
    requires i < |stacks|
  {
    Peak(cap, stacks[i..GroupEnd(stacks, i)])
  }

  /** A group that starts at `start` and runs for `peak`, followed by groups worth `rest`: the first
      group to reach the end of the fight is cut there, and nothing after it counts. */
  function Cut(start: int, fightEnd: int, peak: int, rest: int): int {
    if start >= fightEnd then 0
    else if peak >= fightEnd - start then fightEnd - start
    else peak + rest
  }

  /** What the simulator adds up from stack `i` on, in at most `groups` groups of equal start. */
  function Uptime(stacks: seq<Stack>, i: nat, fightEnd: int, cap: nat, groups: nat): int
    requires i <= |stacks|
    decreases groups
  {
    if i == |stacks| || groups == 0 then 0
    else Cut(stacks[i].start, fightEnd, GroupPeak(stacks, i, cap),
             Uptime(stacks, GroupEnd(stacks, i), fightEnd, cap, groups - 1))
  }

  lemma LongestTail(buf: seq<Stack>)
    requires buf != []
    ensures Longest(buf) == Max(Longest(buf[1..]), buf[0].duration) && Longest(buf[1..]) >= 0
  {
    var tail := buf[1..];
    LongestIsLongest(tail);
    var d := Max(Longest(tail), buf[0].duration);
    if d == buf[0].duration {
      assert buf[0].duration == d;
    } else if d != 0 {
      var i :| 0 <= i < |tail| && tail[i].duration == d;
      assert buf[i + 1].duration == d;
    }
    LongestUnique(buf, d);
  }

  /** The inner draining loop on a queue whose stacks all start at the current time. */
  method Drain(queue: seq<Stack>, from: int, fightEnd: int) returns (buf: seq<Stack>, t: int, added: int)
    requires forall k :: 0 <= k < |queue| ==> queue[k].start == from
    ensures buf == [] || t >= fightEnd
    ensures added == t - from
    ensures t == DrainedAt(from, fightEnd, Longest(queue))
  {
    buf, t, added := queue, from, 0;
    ghost var longest := Longest(queue);
    LongestIsLongest(queue);
    while buf != [] && t < fightEnd
      invariant forall k :: 0 <= k < |buf| ==> buf[k].start == from
      invariant added == t - from && from <= t && (t == from || t <= fightEnd)
      invariant Longest(buf) <= longest && (t - from <= Longest(buf) == longest || t - from == longest)
      decreases |buf|, fightEnd - t
    {
      LongestTail(buf);
      var front := buf[0];
      var remain := front.duration - (t - front.start);
      if remain <= 0 {
        buf := buf[1..];
        continue;
      }
      var step := Min(fightEnd - t, remain);
      added := added + step;
      t := t + step;
    }
  }

  lemma {:induction false} BufferStarts(cap: nat, items: seq<Stack>, start: int)
    requires forall k :: 0 <= k < |items| ==> items[k].start == start
    ensures forall k :: 0 <= k < |Buffer(cap, items)| ==> Buffer(cap, items)[k].start == start
    decreases |items|
  {
    if items == [] {
    } else {
      BufferStarts(cap, items[..|items| - 1], start);
    }
  }

  /** Where the clock stands after draining a queue filled at `start`. */
  function DrainedAt(start: int, fightEnd: int, longest: int): int {
    if start >= fightEnd then start else Min(fightEnd, start + longest)
  }

  lemma CutIsDrain(start: int, fightEnd: int, peak: int, rest: int)
    requires peak >= 0
    ensures var t := DrainedAt(start, fightEnd, peak);
            Cut(start, fightEnd, peak, rest) == t - start + if t >= fightEnd then 0 else rest
  {
  }

  /** Draining the buffered group at `i` accounts for one unfolding of `Uptime`. */
  lemma DrainedGroup(stacks: seq<Stack>, i: nat, fightEnd: int, cap: nat, groups: nat)
    requires i < |stacks| && groups > 0
    ensures var start, j := stacks[i].start, GroupEnd(stacks, i);
            var t := DrainedAt(start, fightEnd, Longest(Buffer(cap, stacks[i..j])));
            Uptime(stacks, i, fightEnd, cap, groups) ==
              t - start + (if t >= fightEnd then 0 else Uptime(stacks, j, fightEnd, cap, groups - 1))
  {
    var buf := Buffer(cap, stacks[i..GroupEnd(stacks, i)]);
    BufferPeak(cap, stacks[i..GroupEnd(stacks, i)]);
    LongestIsLongest(buf);
    CutIsDrain(stacks[i].start, fightEnd, Longest(buf), Uptime(stacks, GroupEnd(stacks, i), fightEnd, cap, groups - 1));
  }

  lemma BufferNext(stacks: seq<Stack>, from: nat, i: nat, cap: nat)
    requires from <= i < |stacks|
    ensures Buffer(cap, stacks[from..i + 1]) == Push(cap, Buffer(cap, stacks[from..i]), stacks[i])
  {
    var items := stacks[from..i + 1];
    assert items[..|items| - 1] == stacks[from..i] && items[|items| - 1] == stacks[i];
  }

  /** The inner filling loop: everything that has started by now goes into the queue. */
  method Fill(queue: seq<Stack>, stacks: seq<Stack>, from: nat, t: int, cap: nat) returns (buf: seq<Stack>, i: nat)
    requires SortedByStart(stacks) && from < |stacks| && queue == [] && t == stacks[from].start
    ensures i == GroupEnd(stacks, from) && buf == Buffer(cap, stacks[from..i])
  {
    buf, i := queue, from;
    while i < |stacks| && stacks[i].start <= t
      invariant from <= i <= GroupEnd(stacks, from) && buf == Buffer(cap, stacks[from..i])
    {
      BufferNext(stacks, from, i, cap);
      buf := Push(cap, buf, stacks[i]);
      i := i + 1;
    }
  }

  /** The simulator's result, for every capacity: the fuel covers all groups but one. */
  function Simulated(stacks: seq<Stack>, fightEnd: int, cap: nat): int {
    if fightEnd <= 0 then 0 else Uptime(stacks, 0, fightEnd, cap, FUEL - 1)
  }

  /** After `guard` rounds: the group `from..i` sits in the buffer and is all that is not yet counted. */
  ghost predicate RoundDone(stacks: seq<Stack>, fightEnd: int, cap: nat, guard: nat,
                            from: nat, i: nat, buf: seq<Stack>, t: int, total: int) {
    fightEnd > 0 && guard <= FUEL && from < i <= |stacks| && i == GroupEnd(stacks, from) && t == stacks[from].start &&
    buf == Buffer(cap, stacks[from..i]) &&
    total + Uptime(stacks, from, fightEnd, cap, FUEL - guard) == Simulated(stacks, fightEnd, cap)
  }

  /** Between draining and filling: what is not yet counted starts at stack `i`. */
  ghost predicate Counted(stacks: seq<Stack>, fightEnd: int, cap: nat, guard: nat, i: nat, t: int, total: int) {
    guard <= FUEL && i <= |stacks| &&
    total + (if t >= fightEnd then 0 else Uptime(stacks, i, fightEnd, cap, FUEL - guard)) ==
      Simulated(stacks, fightEnd, cap)
  }

  lemma AfterDrain(stacks: seq<Stack>, fightEnd: int, cap: nat, guard: nat,
                   from: nat, i: nat, buf: seq<Stack>, t: int, total: int)
    requires guard < FUEL
    requires RoundDone(stacks, fightEnd, cap, guard, from, i, buf, t, total)
    ensures var end := DrainedAt(t, fightEnd, Longest(buf));
            Counted(stacks, fightEnd, cap, guard + 1, i, end, total + end - t)
  {
    DrainedGroup(stacks, from, fightEnd, cap, FUEL - guard);
  }

  lemma AfterFirstDrain(stacks: seq<Stack>, fightEnd: int, cap: nat)
    ensures DrainedAt(0, fightEnd, 0) == 0 && Counted(stacks, fightEnd, cap, 1, 0, 0, 0)
  {
  }

  lemma AfterFill(stacks: seq<Stack>, fightEnd: int, cap: nat, guard: nat, i: nat, t: int, total: int)
    requires Counted(stacks, fightEnd, cap, guard, i, t, total) && t < fightEnd && i < |stacks| && fightEnd > 0
    ensures var end := GroupEnd(stacks, i);
            RoundDone(stacks, fightEnd, cap, guard, i, end, Buffer(cap, stacks[i..end]), stacks[i].start, total)
  {
  }

  method QueueUptime(stacks: seq<Stack>, fightEnd: int, cap: nat) returns (total: int)
    requires SortedByStart(stacks)
    ensures total == Simulated(stacks, fightEnd, cap)
  {
    var buf: seq<Stack> := [];
    var t, guard := 0, 0;
    var i: nat := 0;
    ghost var from: nat := 0;
    total := 0;
    while guard < FUEL
      invariant 0 <= guard <= FUEL
      invariant if guard == 0 then i == t == total == 0 && buf == []
                else RoundDone(stacks, fightEnd, cap, guard, from, i, buf, t, total)
      decreases FUEL - guard
    {
      if guard == 0 {
        AfterFirstDrain(stacks, fightEnd, cap);
      } else {
        AfterDrain(stacks, fightEnd, cap, guard, from, i, buf, t, total);
        BufferStarts(cap, stacks[from..i], t);
      }
      guard := guard + 1;
      var added;
      buf, t, added := Drain(buf, t, fightEnd);
      total := total + added;
      if t >= fightEnd || i >= |stacks| {
        return;
      }
      AfterFill(stacks, fightEnd, cap, guard, i, t, total);
      if buf == [] {
        t := stacks[i].start;
      }
      from := i;
      buf, i := Fill(buf, stacks, i, t, cap);
    }
  }

  // ----- The reference -------------------------------------------------------------------------

  /** The longest stack starting at `start`, wherever it is in the list. */
  function LongestAt(stacks: seq<Stack>, start: int): int {
    if stacks == [] then 0
    else
      var last := stacks[|stacks| - 1];
      Max(LongestAt(stacks[..|stacks| - 1], start), if last.start == start then last.duration else 0)
  }

  /** Every distinct start runs for its longest stack. */
  function Reference(starts: seq<int>, stacks: seq<Stack>, fightEnd: int): int {
    if starts == [] then 0
    else Cut(starts[0], fightEnd, LongestAt(stacks, starts[0]), Reference(starts[1..], stacks, fightEnd))
  }

  ghost predicate StartsFrom(stacks: seq<Stack>, i: nat, start: int) {
    exists k :: i <= k < |stacks| && stacks[k].start == start
  }

  ghost predicate IncreasingStarts(starts: seq<int>) {
    forall a, b :: 0 <= a < b < |starts| ==> starts[a] < starts[b]
  }

  /** The distinct starts of the stacks from `i` on, in increasing order. */
  ghost predicate AreStarts(starts: seq<int>, stacks: seq<Stack>, i: nat) {
    IncreasingStarts(starts) &&
    (forall a :: 0 <= a < |starts| ==> StartsFrom(stacks, i, starts[a])) &&
    (forall k :: i <= k < |stacks| ==> stacks[k].start in starts)
  }

  lemma {:induction false} LongestAtBounds(stacks: seq<Stack>, start: int)
    ensures LongestAt(stacks, start) >= 0
    ensures forall k :: 0 <= k < |stacks| && stacks[k].start == start ==> stacks[k].duration <= LongestAt(stacks, start)
    ensures LongestAt(stacks, start) == 0 ||
            exists k :: 0 <= k < |stacks| && stacks[k].start == start && stacks[k].duration == LongestAt(stacks, start)
  {
    if stacks == [] {
    } else {
      var before := stacks[..|stacks| - 1];
      LongestAtBounds(before, start);
      if LongestAt(stacks, start) != 0 && LongestAt(stacks, start) == LongestAt(before, start) {
        var k :| 0 <= k < |before| && before[k].start == start && before[k].duration == LongestAt(before, start);
        assert stacks[k].start == start && stacks[k].duration == LongestAt(stacks, start);
      }
      forall k | 0 <= k < |stacks| && stacks[k].start == start
        ensures stacks[k].duration <= LongestAt(stacks, start)
      {
        if k < |before| {
          assert before[k] == stacks[k];
        }
      }
    }
  }

  /** In a sorted list the stacks with one start are a contiguous group. */
  lemma GroupIsWhole(stacks: seq<Stack>, i: nat, j: nat, k: nat)
    requires SortedByStart(stacks) && IsGroup(stacks, i, j) && (i == 0 || stacks[i - 1].start < stacks[i].start)
    requires k < |stacks| && stacks[k].start == stacks[i].start
    ensures i <= k < j
  {
  }

  lemma WholeGroupLongest(stacks: seq<Stack>, i: nat, j: nat)
    requires SortedByStart(stacks) && IsGroup(stacks, i, j) && (i == 0 || stacks[i - 1].start < stacks[i].start)
    ensures Longest(stacks[i..j]) == LongestAt(stacks, stacks[i].start)
  {
    var start := stacks[i].start;
    var items, d := stacks[i..j], LongestAt(stacks, start);
    LongestAtBounds(stacks, start);
    forall k | 0 <= k < |items| ensures items[k].duration <= d {
      assert items[k] == stacks[i + k];
    }
    if d != 0 {
      var k :| 0 <= k < |stacks| && stacks[k].start == start && stacks[k].duration == d;
      GroupIsWhole(stacks, i, j, k);
      assert items[k - i].duration == d;
    }
    assert IsLongest(items, d);
    LongestUnique(items, d);
  }

  lemma GroupLongest(stacks: seq<Stack>, i: nat, cap: nat)
    requires cap >= 3 && SortedByStart(stacks) && i < |stacks| && (i == 0 || stacks[i - 1].start < stacks[i].start)
    ensures GroupPeak(stacks, i, cap) == LongestAt(stacks, stacks[i].start)
  {
    WholeGroupLongest(stacks, i, GroupEnd(stacks, i));
  }

  /** The distinct starts, read off a sorted list. */
  function Starts(stacks: seq<Stack>, i: nat): seq<int>
    requires i <= |stacks|
    decreases |stacks| - i
  {
    if i == |stacks| then [] else [stacks[i].start] + Starts(stacks, GroupEnd(stacks, i))
  }

  lemma {:induction false} UptimeIsReference(stacks: seq<Stack>, i: nat, fightEnd: int, cap: nat, groups: nat)
    requires SortedByStart(stacks) && cap >= 3 && i <= |stacks| && groups >= |Starts(stacks, i)|
    requires i == 0 || i == |stacks| || stacks[i - 1].start < stacks[i].start
    ensures Uptime(stacks, i, fightEnd, cap, groups) == Reference(Starts(stacks, i), stacks, fightEnd)
    decreases |stacks| - i
  {
    if i == |stacks| {
    } else {
      var j := GroupEnd(stacks, i);
      assert Starts(stacks, i)[1..] == Starts(stacks, j);
      GroupLongest(stacks, i, cap);
      UptimeIsReference(stacks, j, fightEnd, cap, groups - 1);
    }
  }

  lemma LaterStart(stacks: seq<Stack>, i: nat, j: nat, start: int)
    requires SortedByStart(stacks) && IsGroup(stacks, i, j) && StartsFrom(stacks, j, start)
    ensures stacks[i].start < start && StartsFrom(stacks, i, start)
  {
    var k :| j <= k < |stacks| && stacks[k].start == start;
    assert stacks[i].start <= stacks[j].start <= stacks[k].start;
  }

  lemma FirstOrLater(stacks: seq<Stack>, i: nat, j: nat, rest: seq<int>, k: nat)
    requires IsGroup(stacks, i, j) && i <= k < |stacks| && AreStarts(rest, stacks, j)
    ensures stacks[k].start in [stacks[i].start] + rest
  {
    if k < j {
      assert stacks[k].start == ([stacks[i].start] + rest)[0];
    } else {
      assert stacks[k].start in rest;
    }
  }

  lemma FirstStart(stacks: seq<Stack>, i: nat, j: nat, rest: seq<int>)
    requires SortedByStart(stacks) && IsGroup(stacks, i, j) && AreStarts(rest, stacks, j)
    ensures AreStarts([stacks[i].start] + rest, stacks, i)
  {
    var first, starts := stacks[i].start, [stacks[i].start] + rest;
    forall a | 0 <= a < |rest| ensures first < rest[a] && StartsFrom(stacks, i, rest[a]) {
      LaterStart(stacks, i, j, rest[a]);
    }
    assert StartsFrom(stacks, i, first);
    forall k | i <= k < |stacks| ensures stacks[k].start in starts {
      FirstOrLater(stacks, i, j, rest, k);
    }
  }

  lemma {:induction false} StartsAreStarts(stacks: seq<Stack>, i: nat)
    requires SortedByStart(stacks) && i <= |stacks|
    ensures AreStarts(Starts(stacks, i), stacks, i)
    decreases |stacks| - i
  {
    if i == |stacks| {
    } else {
      var j := GroupEnd(stacks, i);
      StartsAreStarts(stacks, j);
      FirstStart(stacks, i, j, Starts(stacks, j));
    }
  }

  ghost predicate AllIn(a: seq<int>, b: seq<int>) {
    forall i :: 0 <= i < |a| ==> a[i] in b
  }

  lemma NotInEmpty(a: seq<int>)
    requires a != []
    ensures !AllIn(a, [])
  {
    assert a[0] !in [];
  }

  lemma LastAtMost(a: seq<int>, b: seq<int>)
    requires a != [] && b != [] && IncreasingStarts(b) && AllIn(a, b)
    ensures a[|a| - 1] <= b[|b| - 1]
  {
    var k :| 0 <= k < |b| && b[k] == a[|a| - 1];
  }

  lemma AllInWithoutLast(a: seq<int>, b: seq<int>)
    requires a != [] && b != [] && IncreasingStarts(a) && AllIn(a, b) && a[|a| - 1] == b[|b| - 1]
    ensures AllIn(a[..|a| - 1], b[..|b| - 1])
  {
    var b' := b[..|b| - 1];
    forall i | 0 <= i < |a| - 1 ensures a[i] in b' {
      var k :| 0 <= k < |b| && b[k] == a[i];
      assert a[i] < a[|a| - 1];
      assert b'[k] == a[i];
    }
  }

  lemma {:induction false} IncreasingIsUnique(a: seq<int>, b: seq<int>)
    requires IncreasingStarts(a) && IncreasingStarts(b) && AllIn(a, b) && AllIn(b, a)
    ensures a == b
    decreases |a|
  {
    if a == [] {
      if b != [] {
        NotInEmpty(b);
      }
    } else if b == [] {
      NotInEmpty(a);
    } else {
      LastAtMost(a, b);
      LastAtMost(b, a);
      AllInWithoutLast(a, b);
      AllInWithoutLast(b, a);
      IncreasingIsUnique(a[..|a| - 1], b[..|b| - 1]);
      assert a == a[..|a| - 1] + [a[|a| - 1]] && b == b[..|b| - 1] + [b[|b| - 1]];
    }
  }

  lemma StartsAreIn(stacks: seq<Stack>, a: seq<int>, b: seq<int>)
    requires AreStarts(a, stacks, 0) && AreStarts(b, stacks, 0)
    ensures AllIn(a, b)
  {
    forall i | 0 <= i < |a| ensures a[i] in b {
      var k :| 0 <= k < |stacks| && stacks[k].start == a[i];
    }
  }

  /** The increasing list of the distinct starts exists and is the only one. */
  lemma StartsAreUnique(stacks: seq<Stack>, starts: seq<int>)
    requires SortedByStart(stacks)
    ensures AreStarts(starts, stacks, 0) <==> starts == Starts(stacks, 0)
  {
    StartsAreStarts(stacks, 0);
    if AreStarts(starts, stacks, 0) {
      StartsAreIn(stacks, starts, Starts(stacks, 0));
      StartsAreIn(stacks, Starts(stacks, 0), starts);
      IncreasingIsUnique(starts, Starts(stacks, 0));
    }
  }

  /** What the documentation promises: every distinct start runs for its longest stack. */
  function Expected(stacks: seq<Stack>, fightEnd: int): int {
    if fightEnd <= 0 then 0 else Reference(Starts(stacks, 0), stacks, fightEnd)
  }

  /** With room for three stacks, drop-shortest overflow never loses the longest one, and below a
      million distinct starts the fuel never decides: the simulator computes the reference. */
  lemma SimulatorMeetsReference(stacks: seq<Stack>, fightEnd: int, cap: nat)
    requires SortedByStart(stacks) && cap >= 3 && |Starts(stacks, 0)| < 1_000_000
    ensures Simulated(stacks, fightEnd, cap) == Expected(stacks, fightEnd)
  {
    UptimeIsReference(stacks, 0, fightEnd, cap, FUEL - 1);
  }

  ghost predicate MeetsReference(stacks: seq<Stack>, fightEnd: int, cap: nat) {
    SortedByStart(stacks) && |Starts(stacks, 0)| < FUEL ==>
      Simulated(stacks, fightEnd, cap) == Expected(stacks, fightEnd)
  }

  /** Three is the least capacity of a buffer that keeps the longest stack of a group. */
  lemma ThreeStacksAreNeeded(cap: nat)
    ensures (forall items :: Longest(Buffer(cap, items)) == Longest(items)) <==> cap >= 3
  {
    if cap >= 3 {
      forall items
        ensures Longest(Buffer(cap, items)) == Longest(items)
      {
        LargeBuffer(cap, items);
      }
    } else {
      SmallBufferLoses(cap);
    }
  }

  lemma SmallBufferLoses(cap: nat)
    requires cap < 3
    ensures var items := [Stack(0, 1), Stack(0, 3), Stack(0, 2)]; Longest(Buffer(cap, items)) != Longest(items)
  {
    var items := [Stack(0, 1), Stack(0, 3), Stack(0, 2)];
    assert items[1].duration == 3;
    LongestUnique(items, 3);
    BufferPeak(cap, items);
    assert Peak(cap, items) < 3;
  }

  /** And the least capacity of a simulator that meets the reference on every sorted input. */
  lemma ThreeStacksMeetReference(cap: nat)
    ensures (forall stacks, fightEnd :: MeetsReference(stacks, fightEnd, cap)) <==> cap >= 3
  {
    if cap >= 3 {
      forall stacks, fightEnd ensures MeetsReference(stacks, fightEnd, cap) {
        if SortedByStart(stacks) && |Starts(stacks, 0)| < FUEL {
          SimulatorMeetsReference(stacks, fightEnd, cap);
        }
      }
    } else {
      SmallBufferMisses(cap);
    }
  }

  lemma SmallBufferMisses(cap: nat)
    requires cap < 3
    ensures !MeetsReference([Stack(0, 1), Stack(0, 3), Stack(0, 2)], 10, cap)
  {
    var stacks := [Stack(0, 1), Stack(0, 3), Stack(0, 2)];
    assert GroupEnd(stacks, 2) == 3 && GroupEnd(stacks, 1) == 3 && GroupEnd(stacks, 0) == 3;
    assert stacks[0..3] == stacks;
    assert Starts(stacks, 3) == [] && Starts(stacks, 0) == [0];
    assert Uptime(stacks, 3, 10, cap, FUEL - 2) == 0;
    assert Simulated(stacks, 10, cap) == Peak(cap, stacks) < 3;
    GroupLongest(stacks, 0, 3);
    assert GroupPeak(stacks, 0, 3) == Longest(stacks);
    LongestUnique(stacks, 3);
    assert Reference([0][1..], stacks, 10) == 0;
  }

  // ----- Active time ---------------------------------------------------------------------------

  ghost predicate IsActive(stacks: seq<Stack>, t: int) {
    exists k :: 0 <= k < |stacks| && stacks[k].start <= t < stacks[k].start + stacks[k].duration
  }

  /** The milliseconds from `from` to the end of the fight in which some stack is active. */
  ghost function ActiveTimes(stacks: seq<Stack>, from: int, fightEnd: int): set<int> {
    set t | from <= t < fightEnd && IsActive(stacks, t)
  }

  predicate Within(t: int, a: int, b: int) {
    a <= t < b
  }

  function Interval(a: int, b: int): set<int> {
    set t | a <= t < b && Within(t, a, b)
  }

  lemma {:induction false} IntervalSize(a: int, b: int)
    ensures |Interval(a, b)| == Max(0, b - a)
    decreases b - a
  {
    if b <= a {
      assert Interval(a, b) == {};
    } else {
      IntervalSize(a, b - 1);
      assert Interval(a, b) == Interval(a, b - 1) + {b - 1};
    }
  }

  ghost predicate RunsAt(starts: seq<int>, stacks: seq<Stack>, t: int) {
    exists a :: 0 <= a < |starts| && starts[a] <= t < starts[a] + LongestAt(stacks, starts[a])
  }

  /** The times from `frontier` on in which the longest stack of some start is active. */
  ghost function TimesFrom(starts: seq<int>, stacks: seq<Stack>, fightEnd: int, frontier: int): set<int> {
    set t | frontier <= t < fightEnd && RunsAt(starts, stacks, t)
  }

  /** No start that runs at all comes before the frontier, which moves to the end of each run; nothing
      after a run that reaches the end of the fight matters. */
  predicate Clear(starts: seq<int>, stacks: seq<Stack>, fightEnd: int, frontier: int) {
    starts == [] || starts[0] >= fightEnd ||
    (var s, d := starts[0], LongestAt(stacks, starts[0]);
     (d == 0 || frontier <= s) && (s + d >= fightEnd || Clear(starts[1..], stacks, fightEnd, Max(frontier, s + d))))
  }

  /** The first run, and then what the others add beyond it. */
  lemma TimesSplit(starts: seq<int>, stacks: seq<Stack>, fightEnd: int, frontier: int)
    requires starts != [] && IncreasingStarts(starts)
    ensures var s, d := starts[0], LongestAt(stacks, starts[0]);
            var first := Interval(Max(frontier, s), Min(fightEnd, s + d));
            var others := TimesFrom(starts[1..], stacks, fightEnd, Max(frontier, s + d));
            TimesFrom(starts, stacks, fightEnd, frontier) == first + others && first !! others
  {
    var s, d := starts[0], LongestAt(stacks, starts[0]);
    var rest := starts[1..];
    LongestAtBounds(stacks, s);
    forall t ensures RunsAt(starts, stacks, t) <==> s <= t < s + d || RunsAt(rest, stacks, t) {
      if RunsAt(rest, stacks, t) {
        var a :| 0 <= a < |rest| && rest[a] <= t < rest[a] + LongestAt(stacks, rest[a]);
        assert starts[a + 1] == rest[a];
      }
      if RunsAt(starts, stacks, t) {
        var a :| 0 <= a < |starts| && starts[a] <= t < starts[a] + LongestAt(stacks, starts[a]);
        assert a > 0 ==> starts[a] == rest[a - 1];
      }
    }
    forall t | RunsAt(rest, stacks, t) ensures s <= t {
      var a :| 0 <= a < |rest| && rest[a] <= t < rest[a] + LongestAt(stacks, rest[a]);
      assert starts[0] < starts[a + 1];
    }
  }

  lemma NoTimesAfterEnd(starts: seq<int>, stacks: seq<Stack>, fightEnd: int, frontier: int)
    requires IncreasingStarts(starts)
    requires starts == [] || starts[0] >= fightEnd || frontier >= fightEnd
    ensures TimesFrom(starts, stacks, fightEnd, frontier) == {}
  {
    if starts != [] && frontier < fightEnd {
      forall t | frontier <= t < fightEnd ensures !RunsAt(starts, stacks, t) {
        forall a | 0 <= a < |starts| ensures t < starts[a] {
          assert a > 0 ==> starts[0] < starts[a];
        }
      }
    }
  }

  lemma TimesSize(starts: seq<int>, stacks: seq<Stack>, fightEnd: int, frontier: int)
    requires starts != [] && IncreasingStarts(starts)
    ensures var s, d := starts[0], LongestAt(stacks, starts[0]);
            |TimesFrom(starts, stacks, fightEnd, frontier)| ==
            Max(0, Min(fightEnd, s + d) - Max(frontier, s)) +
            |TimesFrom(starts[1..], stacks, fightEnd, Max(frontier, s + d))|
  {
    TimesSplit(starts, stacks, fightEnd, frontier);
    IntervalSize(Max(frontier, starts[0]), Min(fightEnd, starts[0] + LongestAt(stacks, starts[0])));
  }

  lemma {:induction false} ReferenceVersusTimes(starts: seq<int>, stacks: seq<Stack>, fightEnd: int, frontier: int)
    requires IncreasingStarts(starts)
    ensures |TimesFrom(starts, stacks, fightEnd, frontier)| <= Reference(starts, stacks, fightEnd)
    ensures |TimesFrom(starts, stacks, fightEnd, frontier)| == Reference(starts, stacks, fightEnd)
            <==> Clear(starts, stacks, fightEnd, frontier)
    decreases |starts|
  {
    if starts == [] || starts[0] >= fightEnd {
      NoTimesAfterEnd(starts, stacks, fightEnd, frontier);
    } else {
      var s, d := starts[0], LongestAt(stacks, starts[0]);
      LongestAtBounds(stacks, s);
      TimesSize(starts, stacks, fightEnd, frontier);
      if s + d >= fightEnd {
        NoTimesAfterEnd(starts[1..], stacks, fightEnd, Max(frontier, s + d));
      } else {
        ReferenceVersusTimes(starts[1..], stacks, fightEnd, Max(frontier, s + d));
      }
    }
  }

  lemma ActiveIffSomeStartRuns(stacks: seq<Stack>, starts: seq<int>, t: int)
    requires AreStarts(starts, stacks, 0)
    ensures IsActive(stacks, t) <==> RunsAt(starts, stacks, t)
  {
    if IsActive(stacks, t) {
      var k :| 0 <= k < |stacks| && stacks[k].start <= t < stacks[k].start + stacks[k].duration;
      LongestAtBounds(stacks, stacks[k].start);
      assert StartsFrom(stacks, 0, stacks[k].start);
      assert stacks[k].start in starts;
    }
    if RunsAt(starts, stacks, t) {
      var a :| 0 <= a < |starts| && starts[a] <= t < starts[a] + LongestAt(stacks, starts[a]);
      LongestAtBounds(stacks, starts[a]);
    }
  }

  lemma ActiveTimesByStart(stacks: seq<Stack>, from: int, fightEnd: int)
    requires SortedByStart(stacks)
    ensures ActiveTimes(stacks, from, fightEnd) == TimesFrom(Starts(stacks, 0), stacks, fightEnd, from)
  {
    StartsAreStarts(stacks, 0);
    forall t ensures IsActive(stacks, t) <==> RunsAt(Starts(stacks, 0), stacks, t) {
      ActiveIffSomeStartRuns(stacks, Starts(stacks, 0), t);
    }
  }

  /** Among the runs that count, none starts before the fight does, and none starts while an earlier one
      is still going. */
  predicate IsClear(stacks: seq<Stack>, fightEnd: int) {
    fightEnd <= 0 || Clear(Starts(stacks, 0), stacks, fightEnd, 0)
  }

  /** The simulator never reports less than the active time of the fight, which begins at zero, and
      reports exactly that if and only if no counted run starts before zero or overlaps an earlier one. */
  lemma ActiveTimeIffClear(stacks: seq<Stack>, fightEnd: int, cap: nat)
    requires SortedByStart(stacks) && cap >= 3 && |Starts(stacks, 0)| < FUEL
    ensures |ActiveTimes(stacks, 0, fightEnd)| <= Simulated(stacks, fightEnd, cap)
    ensures |ActiveTimes(stacks, 0, fightEnd)| == Simulated(stacks, fightEnd, cap) <==> IsClear(stacks, fightEnd)
  {
    SimulatorMeetsReference(stacks, fightEnd, cap);
    if fightEnd <= 0 {
      assert ActiveTimes(stacks, 0, fightEnd) == {};
    } else {
      StartsAreStarts(stacks, 0);
      ActiveTimesByStart(stacks, 0, fightEnd);
      ReferenceVersusTimes(Starts(stacks, 0), stacks, fightEnd, 0);
    }
  }

  /** Without overlap, before zero or after it, the total is at most what is left of the fight after the
      first start. */
  lemma BoundedWithoutOverlap(stacks: seq<Stack>, fightEnd: int, cap: nat)
    requires SortedByStart(stacks) && cap >= 3 && |Starts(stacks, 0)| < FUEL
    requires stacks != [] && fightEnd > 0 && Clear(Starts(stacks, 0), stacks, fightEnd, stacks[0].start)
    ensures Simulated(stacks, fightEnd, cap) <= Max(0, fightEnd - stacks[0].start)
  {
    var first := stacks[0].start;
    SimulatorMeetsReference(stacks, fightEnd, cap);
    StartsAreStarts(stacks, 0);
    ActiveTimesByStart(stacks, first, fightEnd);
    ReferenceVersusTimes(Starts(stacks, 0), stacks, fightEnd, first);
    IntervalSize(first, fightEnd);
    Subset(ActiveTimes(stacks, first, fightEnd), Interval(first, fightEnd));
  }

  lemma Subset(a: set<int>, b: set<int>)
    requires a <= b
    ensures |a| <= |b|
  {
    assert b == a + (b - a);
  }

  /** Applications that overlap are each counted in full, because the clock jumps back to the next
      start: the total can even exceed the length of the fight. */
  lemma OverlapIsCountedTwice()
    ensures var stacks := [Stack(0, 10), Stack(5, 10)];
            Simulated(stacks, 12, 15) == 17 > 12 && !IsClear(stacks, 12)
  {
    var stacks := [Stack(0, 10), Stack(5, 10)];
    assert stacks[0..1] == [Stack(0, 10)] && stacks[1..2] == [Stack(5, 10)];
    LongestUnique([Stack(0, 10)], 10);
    LongestUnique([Stack(5, 10)], 10);
    assert GroupEnd(stacks, 0) == 1 && GroupEnd(stacks, 1) == 2;
    assert Uptime(stacks, 1, 12, 15, FUEL - 2) == 7;
    ActiveTimeIffClear(stacks, 12, 15);
    IntervalSize(0, 12);
    Subset(ActiveTimes(stacks, 0, 12), Interval(0, 12));
  }

  /** What runs before the fight begins is counted too. */
  lemma NegativeStartIsCounted()
    ensures var stacks := [Stack(-5, 10)];
            Simulated(stacks, 12, 15) == 10 && |ActiveTimes(stacks, 0, 12)| == 5 && !IsClear(stacks, 12)
  {
    var stacks := [Stack(-5, 10)];
    assert GroupEnd(stacks, 0) == 1 && stacks[0..1] == stacks && stacks[0].duration == 10;
    assert Uptime(stacks, 1, 12, 15, FUEL - 2) == 0;
    LongestUnique(stacks, 10);
    forall t | 0 <= t < 12 ensures IsActive(stacks, t) <==> t < 5 {
      assert t < 5 ==> stacks[0].start <= t < stacks[0].start + stacks[0].duration;
    }
    IntervalSize(0, 5);
    assert ActiveTimes(stacks, 0, 12) == Interval(0, 5);
    ActiveTimeIffClear(stacks, 12, 15);
  }
}
