/**
  The parity report: bucketing of difference keys, the known-delta rules, and the per-status and
  per-bucket counters.
*/
module DeltaReport {
  import opened Options
  import StableSort

  // ----- Buckets -------------------------------------------------------------------------------

  /** The position of the first closing bracket, or the length when there is none. */
  function FirstClose(s: string): (i: nat)
    ensures i <= |s| && ']' !in s[..i] && (i < |s| ==> s[i] == ']')
  {
    if s == [] || s[0] == ']' then 0 else 1 + FirstClose(s[1..])
  }

  /** Delete every leftmost bracketed group, up to its first closing bracket. */
  function Bucket(key: string): string
    decreases |key|
  {
    if key == [] then []
    else if key[0] == '[' && FirstClose(key) < |key| then Bucket(key[FirstClose(key) + 1..])
    else [key[0]] + Bucket(key[1..])
  }

  ghost predicate HasGroup(s: string) {
    exists i, j :: 0 <= i < j < |s| && s[i] == '[' && s[j] == ']'
  }

  lemma {:induction false} BucketCharacters(key: string)
    ensures forall c :: c in Bucket(key) ==> c in key
    decreases |key|
  {
    if key == [] {
    } else {
      if key[0] == '[' && FirstClose(key) < |key| {
        BucketCharacters(key[FirstClose(key) + 1..]);
      } else {
        BucketCharacters(key[1..]);
      }
    }
  }

  lemma StillGroupless(c: char, rest: string)
    requires !HasGroup(rest) && (c == '[' ==> ']' !in rest)
    ensures !HasGroup([c] + rest)
  {
    var s := [c] + rest;
    forall i, j | 0 <= i < j < |s|
      ensures !(s[i] == '[' && s[j] == ']')
    {
      assert s[j] == rest[j - 1] && rest[j - 1] in rest;
      assert i > 0 ==> s[i] == rest[i - 1];
    }
  }

  lemma {:induction false} BucketHasNoGroup(key: string)
    ensures !HasGroup(Bucket(key))
    decreases |key|
  {
    if key == [] {
    } else {
      if key[0] == '[' && FirstClose(key) < |key| {
        BucketHasNoGroup(key[FirstClose(key) + 1..]);
      } else {
        BucketHasNoGroup(key[1..]);
        BucketCharacters(key[1..]);
        if key[0] == '[' {
          assert key[..FirstClose(key)] == key;
          assert ']' !in key[1..];
        }
        StillGroupless(key[0], Bucket(key[1..]));
      }
    }
  }

  /** A key is its own bucket exactly when it has no bracketed group, so bucketing is idempotent. */
  lemma {:induction false} BucketFixesGroupless(key: string)
    ensures Bucket(key) == key <==> !HasGroup(key)
    ensures Bucket(Bucket(key)) == Bucket(key)
    decreases |key|
  {
    BucketHasNoGroup(key);
    if !HasGroup(key) {
      GrouplessIsFixed(key);
    }
    GrouplessIsFixed(Bucket(key));
  }

  lemma {:induction false} GrouplessIsFixed(key: string)
    requires !HasGroup(key)
    ensures Bucket(key) == key
    decreases |key|
  {
    if key == [] {
    } else {
      assert !(key[0] == '[' && FirstClose(key) < |key|);
      forall i, j | 0 <= i < j < |key[1..]|
        ensures !(key[1..][i] == '[' && key[1..][j] == ']')
      {
        assert key[1..][i] == key[i + 1] && key[1..][j] == key[j + 1];
      }
      GrouplessIsFixed(key[1..]);
    }
  }

  lemma {:induction false} FirstCloseIs(a: string, b: string)
    requires ']' !in a
    ensures FirstClose(a + "]" + b) == |a|
  {
    if a == [] {
      assert (a + "]" + b)[0] == ']';
    } else {
      assert (a + "]" + b)[1..] == a[1..] + "]" + b;
      FirstCloseIs(a[1..], b);
    }
  }

  /** The leftmost bracketed group is cut out and the rest is bucketed likewise; with the keys that have no
      group, this says what the bucket of every key is. */
  lemma {:induction false} BucketCutsGroup(before: string, inside: string, after: string)
    requires '[' !in before && ']' !in inside
    ensures Bucket(before + "[" + inside + "]" + after) == before + Bucket(after)
    decreases |before|
  {
    var key := before + "[" + inside + "]" + after;
    if before == [] {
      assert key == ("[" + inside) + "]" + after;
      FirstCloseIs("[" + inside, after);
      assert key[FirstClose(key) + 1..] == after;
    } else {
      assert key[1..] == before[1..] + "[" + inside + "]" + after;
      assert key[0] == before[0] && before[0] in before;
      BucketCutsGroup(before[1..], inside, after);
    }
  }

  // ----- Rules ---------------------------------------------------------------------------------

  /** The JSON values that selectors, keys and deltas are compared by. */
  datatype Value = Null | Text(text: string) | Number(number: real)

  datatype Dimension = Stem | Account | Slice | BucketName | SkillId | BuffId | Key

  datatype Status = Pass | Fail | KnownDelta

  datatype Result = Result(key: string, status: Value, delta: Value,
                           account: Value, slice: Value, skillId: Value, buffId: Value)

  datatype Rule = Rule(id: string, reason: string, removeWhen: string, selector: map<Dimension, Value>, bound: Value)

  /** What a row says about the rule that explains it. */
  datatype Known = Known(ruleId: string, reason: string, removeWhen: string)

  function Exact(stem: string, r: Result, d: Dimension): Value {
    match d
    case Stem => Text(stem)
    case Account => r.account
    case Slice => r.slice
    case BucketName => Text(Bucket(r.key))
    case SkillId => r.skillId
    case BuffId => r.buffId
    case Key => Text(r.key)
  }

  predicate SelectorMatches(selector: map<Dimension, Value>, stem: string, r: Result) {
    forall d :: d in selector ==> selector[d] == Exact(stem, r, d)
  }

  function Abs(x: real): real {
    if x < 0.0 then -x else x
  }

  predicate ConstraintMatches(bound: Value, r: Result) {
    bound == Null || (r.delta.Number? && bound.Number? && Abs(r.delta.number) <= Abs(bound.number))
  }

  predicate Applies(rule: Rule, stem: string, r: Result) {
    SelectorMatches(rule.selector, stem, r) && ConstraintMatches(rule.bound, r)
  }

  /** A rule applies exactly when each dimension it selects has the value the result has there, and its
      bound, if any, is a number not below the size of a numeric delta. */
  lemma AppliesExactly(rule: Rule, stem: string, r: Result)
    ensures Applies(rule, stem, r) <==>
            (Stem in rule.selector ==> rule.selector[Stem] == Text(stem)) &&
            (Account in rule.selector ==> rule.selector[Account] == r.account) &&
            (Slice in rule.selector ==> rule.selector[Slice] == r.slice) &&
            (BucketName in rule.selector ==> rule.selector[BucketName] == Text(Bucket(r.key))) &&
            (SkillId in rule.selector ==> rule.selector[SkillId] == r.skillId) &&
            (BuffId in rule.selector ==> rule.selector[BuffId] == r.buffId) &&
            (Key in rule.selector ==> rule.selector[Key] == Text(r.key)) &&
            (rule.bound == Null ||
             (rule.bound.Number? && r.delta.Number? &&
              (-rule.bound.number <= r.delta.number <= rule.bound.number ||
               rule.bound.number <= r.delta.number <= -rule.bound.number)))
  {
    forall d | d in rule.selector
      ensures d == Stem || d == Account || d == Slice || d == BucketName || d == SkillId || d == BuffId || d == Key
    {
    }
  }

  datatype Row = Row(stem: string, result: Result, bucket: string, status: Status, known: Option<Known>)

  datatype Run = Run(stem: string, results: seq<Result>)

  /** `known` cites the first rule of the list that applies. */
  ghost predicate CitesFirst(rules: seq<Rule>, stem: string, r: Result, known: Known) {
    exists i :: 0 <= i < |rules| && IsFirst(rules, stem, r, i) && known == Cite(rules[i])
  }

  function Cite(rule: Rule): Known {
    Known(rule.id, rule.reason, rule.removeWhen)
  }

  ghost predicate IsFirst(rules: seq<Rule>, stem: string, r: Result, i: nat)
    requires i < |rules|
  {
    Applies(rules[i], stem, r) && forall j :: 0 <= j < i ==> !Applies(rules[j], stem, r)
  }

  method FirstApplicable(rules: seq<Rule>, stem: string, r: Result) returns (known: Option<Known>)
    ensures known.None? <==> forall i :: 0 <= i < |rules| ==> !Applies(rules[i], stem, r)
    ensures known.Some? ==> CitesFirst(rules, stem, r, known.value)
  {
    for i := 0 to |rules|
      invariant forall j :: 0 <= j < i ==> !Applies(rules[j], stem, r)
    {
      if !SelectorMatches(rules[i].selector, stem, r) {
        continue;
      }
      if !ConstraintMatches(rules[i].bound, r) {
        continue;
      }
      assert IsFirst(rules, stem, r, i);
      return Some(Known(rules[i].id, rules[i].reason, rules[i].removeWhen));
    }
    return None;
  }

  // ----- Classification ------------------------------------------------------------------------

  ghost predicate SomeRuleApplies(rules: seq<Rule>, stem: string, r: Result) {
    exists i :: 0 <= i < |rules| && Applies(rules[i], stem, r)
  }

  predicate ValidStatus(r: Result) {
    r.status == Text("PASS") || r.status == Text("FAIL")
  }

  function StatusOf(r: Result, known: bool): Status {
    if r.status == Text("PASS") then Pass else if known then KnownDelta else Fail
  }

  /** What a row may say about its result. */
  ghost predicate IsRowFor(row: Row, rules: seq<Rule>, stem: string, r: Result) {
    row.stem == stem && row.result == r && row.bucket == Bucket(r.key) &&
    row.status == StatusOf(r, SomeRuleApplies(rules, stem, r)) &&
    (row.known.Some? <==> row.status == KnownDelta) &&
    (row.known.Some? ==> CitesFirst(rules, stem, r, row.known.value))
  }

  /** One result; an unexpected status aborts the report. */
  method ClassifyResult(rules: seq<Rule>, stem: string, r: Result) returns (row: Option<Row>)
    ensures row.Some? <==> ValidStatus(r)
    ensures row.Some? ==> IsRowFor(row.value, rules, stem, r)
  {
    if !ValidStatus(r) {
      return None;
    }
    var known := None;
    if r.status == Text("FAIL") {
      known := FirstApplicable(rules, stem, r);
    }
    row := Some(Row(stem, r, Bucket(r.key), StatusOf(r, known.Some?), known));
  }

  /** All results of all reports, each with its stem. */
  function Flatten(reports: seq<Run>): seq<(string, Result)> {
    if reports == [] then []
    else
      var last := reports[|reports| - 1];
      Flatten(reports[..|reports| - 1]) +
      seq(|last.results|, i requires 0 <= i < |last.results| => (last.stem, last.results[i]))
  }

  ghost predicate AreRowsFor(rows: seq<Row>, rules: seq<Rule>, items: seq<(string, Result)>) {
    |rows| == |items| && forall k :: 0 <= k < |rows| ==> IsRowFor(rows[k], rules, items[k].0, items[k].1)
  }

  method ClassifyReport(rules: seq<Rule>, report: Run) returns (rows: Option<seq<Row>>)
    ensures rows.Some? <==> forall i :: 0 <= i < |report.results| ==> ValidStatus(report.results[i])
    ensures rows.Some? ==> |rows.value| == |report.results|
    ensures rows.Some? ==>
              forall i :: 0 <= i < |report.results| ==> IsRowFor(rows.value[i], rules, report.stem, report.results[i])
  {
    var done: seq<Row> := [];
    for i := 0 to |report.results|
      invariant |done| == i && forall k :: 0 <= k < i ==> ValidStatus(report.results[k])
      invariant forall k :: 0 <= k < i ==> IsRowFor(done[k], rules, report.stem, report.results[k])
    {
      var row := ClassifyResult(rules, report.stem, report.results[i]);
      if row.None? {
        return None;
      }
      done := done + [row.value];
    }
    rows := Some(done);
  }

  method ClassifyResults(reports: seq<Run>, rules: seq<Rule>) returns (rows: Option<seq<Row>>)
    ensures rows.Some? <==> forall n :: 0 <= n < |Flatten(reports)| ==> ValidStatus(Flatten(reports)[n].1)
    ensures rows.Some? ==> AreRowsFor(rows.value, rules, Flatten(reports))
  {
    var done: seq<Row> := [];
    for n := 0 to |reports|
      invariant AreRowsFor(done, rules, Flatten(reports[..n]))
      invariant forall k :: 0 <= k < |Flatten(reports[..n])| ==> ValidStatus(Flatten(reports[..n])[k].1)
    {
      var more := ClassifyReport(rules, reports[n]);
      assert reports[..n + 1][..n] == reports[..n];
      if more.None? {
        InvalidSomewhere(reports, n);
        return None;
      }
      done := done + more.value;
    }
    assert reports[..|reports|] == reports;
    rows := Some(done);
  }

  lemma InvalidSomewhere(reports: seq<Run>, n: nat)
    requires n < |reports| && exists i :: 0 <= i < |reports[n].results| && !ValidStatus(reports[n].results[i])
    ensures exists k :: 0 <= k < |Flatten(reports)| && !ValidStatus(Flatten(reports)[k].1)
  {
    var i :| 0 <= i < |reports[n].results| && !ValidStatus(reports[n].results[i]);
    assert reports[..n + 1][..n] == reports[..n];
    FlattenPrefix(reports, n + 1);
    var k := |Flatten(reports[..n])| + i;
    assert Flatten(reports[..n + 1])[k] == (reports[n].stem, reports[n].results[i]);
    assert Flatten(reports)[k] == Flatten(reports[..n + 1])[k];
  }

  lemma {:induction false} FlattenPrefix(reports: seq<Run>, n: nat)
    requires n <= |reports|
    ensures Flatten(reports[..n]) <= Flatten(reports)
    decreases |reports|
  {
    if n < |reports| {
      var before := reports[..|reports| - 1];
      FlattenPrefix(before, n);
      assert before[..n] == reports[..n];
    } else {
      assert reports[..n] == reports;
    }
  }

  /** The status of a row in the report's own words. */
  lemma RowStatus(row: Row, rules: seq<Rule>, stem: string, r: Result)
    requires ValidStatus(r) && IsRowFor(row, rules, stem, r)
    ensures r.status == Text("PASS") || r.status == Text("FAIL")
    ensures row.status == Pass <==> r.status == Text("PASS")
    ensures row.status == KnownDelta <==>
              r.status == Text("FAIL") && exists rule :: rule in rules && Applies(rule, stem, r)
    ensures row.status == Fail <==>
              r.status == Text("FAIL") && forall rule :: rule in rules ==> !Applies(rule, stem, r)
  {
    if rule :| rule in rules && Applies(rule, stem, r) {
      var i :| 0 <= i < |rules| && rules[i] == rule;
    }
    if i :| 0 <= i < |rules| && Applies(rules[i], stem, r) {
      assert rules[i] in rules;
    }
  }

  /** Adding rules, in any order, never turns a known delta back into a failure and never touches a
      pass; with the same rules in another order only the cited rule can differ. */
  lemma MoreRulesLoseNothing(row: Row, row': Row, rules: seq<Rule>, rules': seq<Rule>, stem: string, r: Result)
    requires forall rule :: rule in rules ==> rule in rules'
    requires IsRowFor(row, rules, stem, r) && IsRowFor(row', rules', stem, r)
    ensures row.status == KnownDelta ==> row'.status == KnownDelta
    ensures row.status == Pass <==> row'.status == Pass
    ensures (forall rule :: rule in rules' ==> rule in rules) ==> row'.(known := row.known) == row
  {
    AppliesInSuperset(rules, rules', stem, r);
    if forall rule :: rule in rules' ==> rule in rules {
      AppliesInSuperset(rules', rules, stem, r);
    }
  }

  lemma AppliesInSuperset(rules: seq<Rule>, rules': seq<Rule>, stem: string, r: Result)
    requires forall rule :: rule in rules ==> rule in rules'
    ensures SomeRuleApplies(rules, stem, r) ==> SomeRuleApplies(rules', stem, r)
  {
    if SomeRuleApplies(rules, stem, r) {
      var i :| 0 <= i < |rules| && Applies(rules[i], stem, r);
      assert rules[i] in rules';
    }
  }

  // ----- Counters ------------------------------------------------------------------------------

  function Statuses(rows: seq<Row>): multiset<Status> {
    if rows == [] then multiset{} else Statuses(rows[..|rows| - 1]) + multiset{rows[|rows| - 1].status}
  }

  function Buckets(rows: seq<Row>, status: Status): multiset<string> {
    if rows == [] then multiset{}
    else
      var last := rows[|rows| - 1];
      Buckets(rows[..|rows| - 1], status) + if last.status == status then multiset{last.bucket} else multiset{}
  }

  function Get(byBucket: map<Status, multiset<string>>, status: Status): multiset<string> {
    if status in byBucket then byBucket[status] else multiset{}
  }

  function Summary(rows: seq<Row>): map<Status, multiset<string>> {
    if rows == [] then map[]
    else
      var before, row := Summary(rows[..|rows| - 1]), rows[|rows| - 1];
      before[row.status := Get(before, row.status) + multiset{row.bucket}]
  }

  method Summarise(rows: seq<Row>) returns (byStatus: multiset<Status>, byBucket: map<Status, multiset<string>>)
    ensures byStatus == Statuses(rows) && byBucket == Summary(rows)
  {
    byStatus, byBucket := multiset{}, map[];
    for n := 0 to |rows|
      invariant byStatus == Statuses(rows[..n]) && byBucket == Summary(rows[..n])
    {
      var row := rows[n];
      assert rows[..n + 1][..n] == rows[..n];
      byStatus := byStatus + multiset{row.status};
      byBucket := byBucket[row.status := Get(byBucket, row.status) + multiset{row.bucket}];
    }
    assert rows[..|rows|] == rows;
  }

  /** A status has an entry exactly when it is counted at all. */
  lemma {:induction false} SummaryKeys(rows: seq<Row>, status: Status)
    ensures status in Summary(rows) <==> status in Statuses(rows)
    decreases |rows|
  {
    if rows == [] {
    } else {
      SummaryKeys(rows[..|rows| - 1], status);
    }
  }

  /** Its entry counts exactly the buckets of its rows. */
  lemma {:induction false} SummaryBuckets(rows: seq<Row>, status: Status)
    ensures Get(Summary(rows), status) == Buckets(rows, status)
    decreases |rows|
  {
    if rows == [] {
    } else {
      var before, row := rows[..|rows| - 1], rows[|rows| - 1];
      SummaryBuckets(before, status);
      if row.status == status {
        assert Get(Summary(rows), status) == Get(Summary(before), status) + multiset{row.bucket};
      } else {
        assert Get(Summary(rows), status) == Get(Summary(before), status);
      }
    }
  }

  lemma {:induction false} BucketsAddUp(rows: seq<Row>, status: Status)
    ensures |Buckets(rows, status)| == Statuses(rows)[status]
    decreases |rows|
  {
    if rows == [] {
    } else {
      BucketsAddUp(rows[..|rows| - 1], status);
    }
  }

  lemma {:induction false} StatusesAddUp(rows: seq<Row>)
    ensures Statuses(rows)[Pass] + Statuses(rows)[Fail] + Statuses(rows)[KnownDelta] == |rows|
    decreases |rows|
  {
    if rows == [] {
    } else {
      var before, s := rows[..|rows| - 1], rows[|rows| - 1].status;
      StatusesAddUp(before);
      assert Statuses(rows)[Pass] == Statuses(before)[Pass] + if s == Pass then 1 else 0;
      assert Statuses(rows)[Fail] == Statuses(before)[Fail] + if s == Fail then 1 else 0;
      assert Statuses(rows)[KnownDelta] == Statuses(before)[KnownDelta] + if s == KnownDelta then 1 else 0;
    }
  }

  /** Every row is counted once: under one status, and once among the buckets of that status. */
  lemma CountsAddUp(rows: seq<Row>)
    ensures Statuses(rows)[Pass] + Statuses(rows)[Fail] + Statuses(rows)[KnownDelta] == |rows|
    ensures forall status :: |Get(Summary(rows), status)| == Statuses(rows)[status]
  {
    StatusesAddUp(rows);
    forall status
      ensures |Get(Summary(rows), status)| == Statuses(rows)[status]
    {
      SummaryBuckets(rows, status);
      BucketsAddUp(rows, status);
    }
  }

  // ----- The report ----------------------------------------------------------------------------

  /** Code point order of strings. */
  predicate StringAtMost(a: string, b: string) {
    a == [] || (b != [] && (a[0] < b[0] || (a[0] == b[0] && StringAtMost(a[1..], b[1..]))))
  }

  lemma {:induction false} StringOrder(a: string, b: string, c: string)
    ensures StringAtMost(a, b) || StringAtMost(b, a)
    ensures StringAtMost(a, b) && StringAtMost(b, a) ==> a == b
    ensures StringAtMost(a, b) && StringAtMost(b, c) ==> StringAtMost(a, c)
    decreases |a|
  {
    if a == [] || b == [] {
    } else {
      assert a == [a[0]] + a[1..] && b == [b[0]] + b[1..];
      StringOrder(a[1..], b[1..], if c == [] then [] else c[1..]);
    }
  }

  /** The strings first differ at `k`, where `a` has the smaller character. */
  ghost predicate SmallerAt(a: string, b: string, k: nat) {
    k < |a| && k < |b| && (forall i :: 0 <= i < k ==> a[i] == b[i]) && a[k] < b[k]
  }

  /** One string comes before another exactly when it is a prefix of it, or has the smaller character where
      they first differ. */
  lemma {:induction false} StringOrderIsByFirstDifference(a: string, b: string)
    ensures StringAtMost(a, b) <==> a <= b || exists k: nat :: SmallerAt(a, b, k)
    decreases |a|
  {
    if a == [] || b == [] {
    } else {
      var x, y := a[1..], b[1..];
      assert a == [a[0]] + x && b == [b[0]] + y;
      if a[0] < b[0] {
        assert SmallerAt(a, b, 0);
      } else if a[0] == b[0] {
        StringOrderIsByFirstDifference(x, y);
        if k: nat :| SmallerAt(x, y, k) {
          assert SmallerAt(a, b, k + 1);
        }
        if k: nat :| SmallerAt(a, b, k) {
          assert k > 0 && SmallerAt(x, y, k - 1);
        }
      }
    }
  }

  predicate RowAtMost(a: Row, b: Row) {
    if a.stem == b.stem then StringAtMost(a.result.key, b.result.key) else StringAtMost(a.stem, b.stem)
  }

  lemma RowOrder()
    ensures StableSort.IsOrder(RowAtMost)
  {
    forall a, b, c
      ensures RowAtMost(a, b) || RowAtMost(b, a)
      ensures RowAtMost(a, b) && RowAtMost(b, c) ==> RowAtMost(a, c)
    {
      StringOrder(a.stem, b.stem, c.stem);
      StringOrder(b.stem, c.stem, a.stem);
      StringOrder(a.result.key, b.result.key, c.result.key);
    }
  }

  function StatusIf(row: Row): multiset<Status> {
    multiset{row.status}
  }

  function BucketIf(row: Row, status: Status): multiset<string> {
    if row.status == status then multiset{row.bucket} else multiset{}
  }

  lemma AppendedRow(rows: seq<Row>, row: Row, status: Status)
    ensures Statuses(rows + [row]) == Statuses(rows) + StatusIf(row)
    ensures Buckets(rows + [row], status) == Buckets(rows, status) + BucketIf(row, status)
  {
    assert (rows + [row])[..|rows|] == rows;
  }

  lemma Exchange<T>(a: multiset<T>, b: multiset<T>, c: multiset<T>)
    ensures a + b + c == a + c + b
  {
  }

  lemma {:induction false} InsertedRow(rows: seq<Row>, row: Row, status: Status, le: (Row, Row) -> bool)
    ensures Statuses(StableSort.Insert(rows, row, le)) == Statuses(rows) + StatusIf(row)
    ensures Buckets(StableSort.Insert(rows, row, le), status) == Buckets(rows, status) + BucketIf(row, status)
    decreases |rows|
  {
    if rows == [] || le(rows[|rows| - 1], row) {
      AppendedRow(rows, row, status);
    } else {
      var before, last := rows[..|rows| - 1], rows[|rows| - 1];
      assert rows == before + [last];
      InsertedRow(before, row, status, le);
      AppendedRow(before, last, status);
      AppendedRow(StableSort.Insert(before, row, le), last, status);
      Exchange(Statuses(before), StatusIf(row), StatusIf(last));
      Exchange(Buckets(before, status), BucketIf(row, status), BucketIf(last, status));
    }
  }

  /** Sorting the rows changes no counter. */
  lemma {:induction false} CountsIgnoreOrder(rows: seq<Row>, status: Status, le: (Row, Row) -> bool)
    ensures Statuses(StableSort.Sort(rows, le)) == Statuses(rows)
    ensures Buckets(StableSort.Sort(rows, le), status) == Buckets(rows, status)
    decreases |rows|
  {
    if rows == [] {
    } else {
      var before, last := rows[..|rows| - 1], rows[|rows| - 1];
      assert rows == before + [last];
      CountsIgnoreOrder(before, status, le);
      InsertedRow(StableSort.Sort(before, le), last, status, le);
      AppendedRow(before, last, status);
    }
  }

  datatype Report = Report(logCount: nat, byStatus: multiset<Status>, byBucket: map<Status, multiset<string>>,
                           rows: seq<Row>)

  /** By stem, and by key within one stem. */
  ghost predicate InOrder(rows: seq<Row>) {
    forall i, j :: 0 <= i < j < |rows| ==>
      StringAtMost(rows[i].stem, rows[j].stem) &&
      (rows[i].stem == rows[j].stem ==> StringAtMost(rows[i].result.key, rows[j].result.key))
  }

  /** One row per result, in order of stem and key with ties as they came; the counters count them. */
  ghost predicate IsReportFor(report: Report, rules: seq<Rule>, runs: seq<Run>, classified: seq<Row>) {
    && AreRowsFor(classified, rules, Flatten(runs))
    && multiset(report.rows) == multiset(classified) && InOrder(report.rows)
    && StableSort.IsSorted(report.rows, RowAtMost)
    && (forall row :: StableSort.Alike(report.rows, row, RowAtMost) == StableSort.Alike(classified, row, RowAtMost))
    && report.logCount == |runs| && report.byStatus == Statuses(classified)
    && (forall s :: s in report.byBucket <==> s in report.byStatus)
    && (forall s :: Get(report.byBucket, s) == Buckets(classified, s))
  }

  lemma SortedReport(rules: seq<Rule>, runs: seq<Run>, classified: seq<Row>, report: Report)
    requires AreRowsFor(classified, rules, Flatten(runs))
    requires report.rows == StableSort.Sort(classified, RowAtMost) && report.logCount == |runs|
    requires report.byStatus == Statuses(report.rows) && report.byBucket == Summary(report.rows)
    ensures IsReportFor(report, rules, runs, classified)
  {
    RowOrder();
    StableSort.SortSorts(classified, RowAtMost);
    forall i, j | 0 <= i < j < |report.rows|
      ensures StringAtMost(report.rows[i].stem, report.rows[j].stem)
      ensures report.rows[i].stem == report.rows[j].stem ==>
                StringAtMost(report.rows[i].result.key, report.rows[j].result.key)
    {
      assert RowAtMost(report.rows[i], report.rows[j]);
      StringOrder(report.rows[i].stem, report.rows[j].stem, "");
    }
    forall row ensures StableSort.Alike(report.rows, row, RowAtMost) == StableSort.Alike(classified, row, RowAtMost) {
      StableSort.SortIsStable(classified, row, RowAtMost);
    }
    CountsIgnoreOrder(classified, Pass, RowAtMost);
    forall s
      ensures s in report.byBucket <==> s in report.byStatus
      ensures Get(report.byBucket, s) == Buckets(classified, s)
    {
      CountsIgnoreOrder(classified, s, RowAtMost);
      SummaryKeys(report.rows, s);
      SummaryBuckets(report.rows, s);
    }
  }

  /** The report fails exactly when some result has an unexpected status. */
  method BuildReport(runs: seq<Run>, rules: seq<Rule>) returns (report: Option<Report>)
    ensures report.Some? <==> forall k :: 0 <= k < |Flatten(runs)| ==> ValidStatus(Flatten(runs)[k].1)
    ensures report.Some? ==> exists classified :: IsReportFor(report.value, rules, runs, classified)
  {
    var rows := ClassifyResults(runs, rules);
    if rows.None? {
      return None;
    }
    var sorted := StableSort.Sort(rows.value, RowAtMost);
    var byStatus, byBucket := Summarise(sorted);
    report := Some(Report(|runs|, byStatus, byBucket, sorted));
    SortedReport(rules, runs, rows.value, report.value);
  }
}
