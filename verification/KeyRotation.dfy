/**
  Key rotation under a live application.

  `Database.RotateKek` is one uninterrupted run of the rotation script.  `System` interleaves any
  number of runs, row by row, with the application inserting new subscriptions, failed commits,
  crashes and restarts.  The application reads with the new key first and the old key among its
  fallbacks, which is the configuration the rotation procedure prescribes.
*/
module KeyRotation {
  import opened Envelope
  import opened Options

  type Id = string
  type Rows = map<Id, Ciphertext>

  // ----- One run of the script -----------------------------------------------------------------

  datatype AuditLine = AuditLine(id: Id, rotated: bool)

  function CountRotated(audit: seq<AuditLine>): nat {
    if audit == [] then 0
    else CountRotated(audit[..|audit| - 1]) + if audit[|audit| - 1].rotated then 1 else 0
  }

  /** The rows a `SELECT` lists: every row once, in whatever order the database returns them. */
  ghost predicate Lists(ids: seq<Id>, rows: Rows) {
    (forall id :: id in rows <==> id in ids) &&
    (forall i, j :: 0 <= i < j < |ids| ==> ids[i] != ids[j])
  }

  /** The script rotates a row it can read under the old key, if the commit goes through. */
  predicate Rotates(row: Ciphertext, oldKey: Key, commit: bool) {
    Open(oldKey, row).Opened? && commit
  }

  function RowAfter(row: Ciphertext, oldKey: Key, newKey: Key, commit: bool, nonce: nat): Ciphertext {
    if Rotates(row, oldKey, commit) then Seal(newKey, Open(oldKey, row).text, nonce) else row
  }

  /** What a run over the first `n` rows leaves behind; `commits[i]` says whether commit `i` goes through. */
  ghost predicate RotatedUpTo(n: nat, before: Rows, after: Rows, ids: seq<Id>, oldKey: Key, newKey: Key,
                              commits: seq<bool>, nonces: seq<nat>, audit: seq<AuditLine>)
    requires n <= |ids| == |commits| == |nonces|
    requires Lists(ids, before)
  {
    after.Keys == before.Keys && |audit| == n &&
    (forall i :: 0 <= i < n ==> audit[i] == AuditLine(ids[i], Rotates(before[ids[i]], oldKey, commits[i]))) &&
    (forall i :: 0 <= i < n ==> after[ids[i]] == RowAfter(before[ids[i]], oldKey, newKey, commits[i], nonces[i])) &&
    (forall i :: n <= i < |ids| ==> after[ids[i]] == before[ids[i]])
  }

  lemma RotateNext(i: nat, before: Rows, rows: Rows, ids: seq<Id>, oldKey: Key, newKey: Key,
                   commits: seq<bool>, nonces: seq<nat>, audit: seq<AuditLine>)
    requires i < |ids| == |commits| == |nonces| && Lists(ids, before)
    requires RotatedUpTo(i, before, rows, ids, oldKey, newKey, commits, nonces, audit)
    ensures ids[i] in rows && rows[ids[i]] == before[ids[i]]
    ensures var done := Rotates(rows[ids[i]], oldKey, commits[i]);
            var rows' := rows[ids[i] := RowAfter(rows[ids[i]], oldKey, newKey, commits[i], nonces[i])];
            var audit' := audit + [AuditLine(ids[i], done)];
            RotatedUpTo(i + 1, before, rows', ids, oldKey, newKey, commits, nonces, audit') &&
            CountRotated(audit') == CountRotated(audit) + (if done then 1 else 0)
  {
    assert ids[i] in ids;
    var done := Rotates(rows[ids[i]], oldKey, commits[i]);
    var after := RowAfter(rows[ids[i]], oldKey, newKey, commits[i], nonces[i]);
    var rows' := rows[ids[i] := after];
    var audit' := audit + [AuditLine(ids[i], done)];
    assert audit'[..|audit'| - 1] == audit && audit'[|audit'| - 1] == AuditLine(ids[i], done);
    assert rows'.Keys == rows.Keys;
    forall k | 0 <= k < |ids| && k != i
      ensures ids[k] in rows && rows'[ids[k]] == rows[ids[k]]
    {
      assert ids[k] in ids && (if k < i then ids[k] != ids[i] else ids[i] != ids[k]);
    }
    assert forall k :: 0 <= k < i ==> audit'[k] == audit[k];
  }

  /** What a run may do to the table, said of each row and of its line in the audit: a failed row is byte
      for byte what it was, a rotated one has its text under the new key, and a row is rotated exactly
      when the old key opens it and its commit goes through. */
  ghost predicate KeptOrRotated(before: Rows, after: Rows, ids: seq<Id>, oldKey: Key, newKey: Key,
                                commits: seq<bool>, nonces: seq<nat>, audit: seq<AuditLine>)
    requires |ids| == |commits| == |nonces| && Lists(ids, before)
  {
    after.Keys == before.Keys && |audit| == |ids| &&
    forall i :: 0 <= i < |ids| ==>
      IsKeptOrRotated(before, after, ids[i], oldKey, newKey, commits[i], nonces[i], audit[i])
  }

  ghost predicate IsKeptOrRotated(before: Rows, after: Rows, id: Id, oldKey: Key, newKey: Key,
                                  commit: bool, nonce: nat, line: AuditLine)
  {
    id in before && id in after && line.id == id &&
    (line.rotated <==> Open(oldKey, before[id]).Opened? && commit) &&
    (!line.rotated ==> after[id] == before[id]) &&
    (line.rotated ==> after[id] == Sealed(newKey, Text(Open(oldKey, before[id]).text), nonce))
  }

  /** What the application reads with the new key first and the old key behind it. */
  ghost predicate StaysReadable(before: Rows, after: Rows, oldKey: Key, newKey: Key) {
    forall id, text :: id in before && Decrypt(newKey, [oldKey], before[id]) == Opened(text) ==>
      id in after && Decrypt(newKey, [oldKey], after[id]) == Opened(text)
  }

  lemma RotatedMeans(before: Rows, after: Rows, ids: seq<Id>, oldKey: Key, newKey: Key,
                     commits: seq<bool>, nonces: seq<nat>, audit: seq<AuditLine>)
    requires |ids| == |commits| == |nonces| && Lists(ids, before)
    requires RotatedUpTo(|ids|, before, after, ids, oldKey, newKey, commits, nonces, audit)
    ensures KeptOrRotated(before, after, ids, oldKey, newKey, commits, nonces, audit)
  {
    forall i | 0 <= i < |ids|
      ensures IsKeptOrRotated(before, after, ids[i], oldKey, newKey, commits[i], nonces[i], audit[i])
    {
      assert ids[i] in ids;
    }
  }

  /** A run, successful or not, takes no secret from an application that has both keys. */
  lemma RunKeepsReadable(before: Rows, after: Rows, ids: seq<Id>, oldKey: Key, newKey: Key,
                         commits: seq<bool>, nonces: seq<nat>, audit: seq<AuditLine>)
    requires |ids| == |commits| == |nonces| && Lists(ids, before)
    requires KeptOrRotated(before, after, ids, oldKey, newKey, commits, nonces, audit)
    ensures StaysReadable(before, after, oldKey, newKey)
  {
    forall id, text | id in before && Decrypt(newKey, [oldKey], before[id]) == Opened(text)
      ensures id in after && Decrypt(newKey, [oldKey], after[id]) == Opened(text)
    {
      var i :| 0 <= i < |ids| && ids[i] == id;
      assert IsKeptOrRotated(before, after, ids[i], oldKey, newKey, commits[i], nonces[i], audit[i]);
      DecryptNeedsOnlyTheKey(newKey, [oldKey], before[id], text);
      DecryptNeedsOnlyTheKey(newKey, [oldKey], after[id], text);
    }
  }

  class Database {
    var rows: Rows

    /** One round of the loop: decrypt, re-encrypt and commit, or roll back. */
    method RotateRow(oldKey: Key, newKey: Key, id: Id, commit: bool, nonce: nat) returns (done: bool)
      requires id in rows
      modifies this
      ensures done <==> Open(oldKey, old(rows)[id]).Opened? && commit
      ensures !done ==> rows == old(rows)
      ensures done ==> rows == old(rows)[id := Seal(newKey, Open(oldKey, old(rows)[id]).text, nonce)]
    {
      var stored := rows[id];
      var clear := Open(oldKey, stored);
      if clear.Opened? {
        rows := rows[id := Seal(newKey, clear.text, nonce)];
      }
      done := clear.Opened? && commit;
      if !done {
        rows := rows[id := stored];
        assert rows == old(rows);
      }
    }

    method RotateKek(oldKey: Key, newKey: Key, ids: seq<Id>, commits: seq<bool>, nonces: seq<nat>)
      returns (code: int, rotated: nat, failed: nat, audit: seq<AuditLine>)
      requires Lists(ids, rows) && |commits| == |ids| && |nonces| == |ids|
      modifies this
      ensures oldKey == newKey ==> code == 1 && rows == old(rows) && audit == []
      ensures oldKey != newKey ==>
                RotatedUpTo(|ids|, old(rows), rows, ids, oldKey, newKey, commits, nonces, audit) &&
                rotated == CountRotated(audit) && rotated + failed == |ids| &&
                (code == 0 <==> failed == 0) && (code == 1 <==> failed > 0)
      ensures oldKey != newKey ==> KeptOrRotated(old(rows), rows, ids, oldKey, newKey, commits, nonces, audit)
      ensures StaysReadable(old(rows), rows, oldKey, newKey)
    {
      rotated, failed, audit := 0, 0, [];
      if oldKey == newKey {
        return 1, 0, 0, [];
      }
      ghost var before := rows;
      for i := 0 to |ids|
        invariant RotatedUpTo(i, before, rows, ids, oldKey, newKey, commits, nonces, audit)
        invariant rotated == CountRotated(audit) && rotated + failed == i
      {
        RotateNext(i, before, rows, ids, oldKey, newKey, commits, nonces, audit);
        var done := RotateRow(oldKey, newKey, ids[i], commits[i], nonces[i]);
        audit := audit + [AuditLine(ids[i], done)];
        if done {
          rotated := rotated + 1;
        } else {
          failed := failed + 1;
        }
      }
      RotatedMeans(before, rows, ids, oldKey, newKey, commits, nonces, audit);
      RunKeepsReadable(before, rows, ids, oldKey, newKey, commits, nonces, audit);
      code := if failed == 0 then 0 else 1;
    }
  }

  lemma {:induction false} AllRotated(audit: seq<AuditLine>)
    ensures CountRotated(audit) <= |audit|
    ensures CountRotated(audit) == |audit| <==> forall i :: 0 <= i < |audit| ==> audit[i].rotated
  {
    if audit == [] {
    } else {
      AllRotated(audit[..|audit| - 1]);
      assert forall i :: 0 <= i < |audit| - 1 ==> audit[..|audit| - 1][i] == audit[i];
    }
  }

  /** A run succeeds exactly when every row is readable text under the old key and every commit
      goes through; the rows are then all readable under the new key alone. */
  lemma ExitZero(before: Rows, after: Rows, ids: seq<Id>, oldKey: Key, newKey: Key,
                 commits: seq<bool>, nonces: seq<nat>, audit: seq<AuditLine>)
    requires oldKey != newKey && |commits| == |ids| && |nonces| == |ids| && Lists(ids, before)
    requires RotatedUpTo(|ids|, before, after, ids, oldKey, newKey, commits, nonces, audit)
    ensures CountRotated(audit) == |ids| <==>
            forall i :: 0 <= i < |ids| ==> Rotates(before[ids[i]], oldKey, commits[i])
    ensures CountRotated(audit) == |ids| ==>
              forall id :: id in after ==> Open(newKey, after[id]) == Open(oldKey, before[id])
  {
    AllRotated(audit);
    forall i | 0 <= i < |ids|
      ensures audit[i].rotated <==> Rotates(before[ids[i]], oldKey, commits[i])
    {
    }
    if CountRotated(audit) == |ids| {
      forall id | id in after
        ensures Open(newKey, after[id]) == Open(oldKey, before[id])
      {
        var i :| 0 <= i < |ids| && ids[i] == id;
        assert audit[i].rotated;
      }
    }
  }

  /** Rows already under the new key are left byte for byte as they are, and counted as failures: when
      all rows are, nothing changes and no row is rotated. */
  lemma RerunChangesNothing(before: Rows, after: Rows, ids: seq<Id>, oldKey: Key, newKey: Key,
                            commits: seq<bool>, nonces: seq<nat>, audit: seq<AuditLine>)
    requires oldKey != newKey && |commits| == |ids| && |nonces| == |ids| && Lists(ids, before)
    requires RotatedUpTo(|ids|, before, after, ids, oldKey, newKey, commits, nonces, audit)
    ensures forall id :: id in before && Open(newKey, before[id]).Opened? ==> after[id] == before[id]
    ensures (forall id :: id in before ==> Open(newKey, before[id]).Opened?) ==>
              after == before && CountRotated(audit) == 0
  {
    forall id | id in before && Open(newKey, before[id]).Opened?
      ensures after[id] == before[id]
    {
      var i :| 0 <= i < |ids| && ids[i] == id;
      assert Open(oldKey, before[id]) == InvalidToken;
    }
    if forall id :: id in before ==> Open(newKey, before[id]).Opened? {
      forall i | 0 <= i < |ids|
        ensures !audit[i].rotated
      {
        assert Open(oldKey, before[ids[i]]) == InvalidToken;
      }
      NoneRotated(audit);
    }
  }

  /** Running the script again after a success changes nothing, and its exit code is 0 again if and only
      if the table is empty. */
  method RotateAgain(db: Database, oldKey: Key, newKey: Key, ids: seq<Id>, commits: seq<bool>, nonces: seq<nat>,
                     ids': seq<Id>, commits': seq<bool>, nonces': seq<nat>)
    returns (code: int, code': int, ghost between: Rows)
    requires oldKey != newKey && Lists(ids, db.rows) && |commits| == |ids| && |nonces| == |ids|
    requires Lists(ids', db.rows) && |commits'| == |ids'| && |nonces'| == |ids'|
    modifies db
    ensures code == 0 ==> db.rows == between && (code' == 0 <==> between == map[])
    ensures code == 0 ==>
              forall id :: id in between ==>
                id in old(db.rows) && Open(newKey, between[id]) == Open(oldKey, old(db.rows)[id])
  {
    ghost var before := db.rows;
    var rotated, failed, audit;
    code, rotated, failed, audit := db.RotateKek(oldKey, newKey, ids, commits, nonces);
    between := db.rows;
    ExitZero(before, between, ids, oldKey, newKey, commits, nonces, audit);
    if code == 0 {
      AllReadable(before, between, ids, oldKey, newKey, commits, nonces, audit);
    }
    assert between.Keys == before.Keys;
    var rotated', failed', audit';
    code', rotated', failed', audit' := db.RotateKek(oldKey, newKey, ids', commits', nonces');
    if code == 0 {
      RerunChangesNothing(between, db.rows, ids', oldKey, newKey, commits', nonces', audit');
      EmptyTable(ids', between);
    }
  }

  lemma AllReadable(before: Rows, after: Rows, ids: seq<Id>, oldKey: Key, newKey: Key,
                    commits: seq<bool>, nonces: seq<nat>, audit: seq<AuditLine>)
    requires oldKey != newKey && |commits| == |ids| && |nonces| == |ids| && Lists(ids, before)
    requires RotatedUpTo(|ids|, before, after, ids, oldKey, newKey, commits, nonces, audit)
    requires CountRotated(audit) == |ids|
    ensures forall id :: id in after ==> Open(newKey, after[id]).Opened?
  {
    ExitZero(before, after, ids, oldKey, newKey, commits, nonces, audit);
    forall id | id in after ensures Open(newKey, after[id]).Opened? {
      var i :| 0 <= i < |ids| && ids[i] == id;
      assert Rotates(before[ids[i]], oldKey, commits[i]);
    }
  }

  lemma EmptyTable(ids: seq<Id>, rows: Rows)
    requires Lists(ids, rows)
    ensures |ids| == 0 <==> rows == map[]
  {
    if ids != [] {
      assert ids[0] in ids && ids[0] in rows;
    }
  }

  lemma {:induction false} NoneRotated(audit: seq<AuditLine>)
    requires forall i :: 0 <= i < |audit| ==> !audit[i].rotated
    ensures CountRotated(audit) == 0
  {
    if audit == [] {
    } else {
      NoneRotated(audit[..|audit| - 1]);
    }
  }

  // ----- Interleavings -------------------------------------------------------------------------

  datatype Config = Config(oldKey: Key, newKey: Key, fallbacks: seq<Key>)

  /** A row rewritten in a session and not committed yet. */
  datatype Write = Write(id: Id, ciphertext: Ciphertext)

  /** `loaded` is the first row as the SELECT read it; the first commit or rollback expires what was
      loaded, so every later row is read again when its turn comes. */
  datatype Run = Run(snapshot: seq<Id>, loaded: Option<Ciphertext>, next: nat, rotated: nat, failed: nat,
                     write: Option<Write>)

  function ReadRow(rows: Rows, r: Run): Ciphertext
    requires r.next < |r.snapshot| && r.snapshot[r.next] in rows
  {
    if r.next == 0 && r.loaded.Some? then r.loaded.value else rows[r.snapshot[r.next]]
  }

  datatype System = System(rows: Rows, runs: map<nat, Run>)

  datatype Step =
    | Insert(id: Id, secret: string, nonce: nat)
    | Begin(run: nat, ids: seq<Id>)
    | Reencrypt(run: nat, nonce: nat)
    | Commit(run: nat)
    | CommitFails(run: nat)
    | Crash(run: nat)

  /** What the application gets for a row. */
  function Secret(c: Config, ciphertext: Ciphertext): Opened {
    Decrypt(c.newKey, c.fallbacks, ciphertext)
  }

  ghost predicate Enabled(s: System, step: Step) {
    match step
    case Insert(id, _, _) => id !in s.rows
    case Begin(run, ids) => run !in s.runs && Lists(ids, s.rows)
    case Reencrypt(run, _) => run in s.runs && s.runs[run].write.None? && s.runs[run].next < |s.runs[run].snapshot| &&
                              s.runs[run].snapshot[s.runs[run].next] in s.rows
    case Commit(run) => run in s.runs && s.runs[run].write.Some?
    case CommitFails(run) => run in s.runs && s.runs[run].write.Some?
    case Crash(run) => run in s.runs
  }

  ghost function Take(c: Config, s: System, step: Step): System
    requires Enabled(s, step)
  {
    match step
    case Insert(id, secret, nonce) => s.(rows := s.rows[id := Seal(c.newKey, secret, nonce)])
    case Begin(run, ids) =>
      assert ids != [] ==> ids[0] in ids;
      var loaded := if ids == [] then None else Some(s.rows[ids[0]]);
      s.(runs := s.runs[run := Run(ids, loaded, 0, 0, 0, None)])
    case Reencrypt(run, nonce) =>
      var r := s.runs[run];
      var id := r.snapshot[r.next];
      var clear := Open(c.oldKey, ReadRow(s.rows, r));
      var r' := if clear.Opened? then r.(write := Some(Write(id, Seal(c.newKey, clear.text, nonce))))
                else r.(next := r.next + 1, failed := r.failed + 1);
      s.(runs := s.runs[run := r'])
    case Commit(run) =>
      var r := s.runs[run];
      System(s.rows[r.write.value.id := r.write.value.ciphertext],
             s.runs[run := r.(next := r.next + 1, rotated := r.rotated + 1, write := None)])
    case CommitFails(run) =>
      var r := s.runs[run];
      s.(runs := s.runs[run := r.(next := r.next + 1, failed := r.failed + 1, write := None)])
    case Crash(run) => s.(runs := s.runs - {run})
  }

  /** Every pending write carries the text its row still has, under the new key, and what was loaded
      for the first row still has its text. */
  ghost predicate WritesAreFaithful(c: Config, s: System) {
    forall run :: run in s.runs ==> RunIsFaithful(c, s.rows, s.runs[run])
  }

  ghost predicate RunIsFaithful(c: Config, rows: Rows, r: Run) {
    (r.write.Some? ==> IsFaithful(c, rows, r.write.value)) &&
    (r.loaded.Some? && r.next == 0 ==>
       r.snapshot != [] && r.snapshot[0] in rows &&
       (rows[r.snapshot[0]] == r.loaded.value || Rekeyed(c, r.loaded.value, rows[r.snapshot[0]])))
  }

  ghost predicate IsFaithful(c: Config, rows: Rows, w: Write) {
    w.id in rows && Rekeyed(c, rows[w.id], w.ciphertext)
  }

  /** The same text moved from the old or the new key to the new key. */
  ghost predicate Rekeyed(c: Config, before: Ciphertext, after: Ciphertext) {
    before.Sealed? && after.Sealed? && after.plain == before.plain && before.plain.Text? &&
    (before.key == c.oldKey || before.key == c.newKey) && after.key == c.newKey
  }

  /** A row only ever changes to the new key, from the old one or, when runs overlap, from the new key
      itself, and keeps its text. */
  ghost predicate Refines(c: Config, before: Rows, after: Rows) {
    forall id :: id in before ==> id in after && (after[id] == before[id] || Rekeyed(c, before[id], after[id]))
  }

  lemma StepRefines(c: Config, s: System, step: Step)
    requires Enabled(s, step) && WritesAreFaithful(c, s)
    ensures WritesAreFaithful(c, Take(c, s, step))
    ensures Refines(c, s.rows, Take(c, s, step).rows)
  {
  }

  ghost predicate Execution(c: Config, s: System, steps: seq<Step>)
    decreases |steps|
  {
    steps == [] || (Enabled(s, steps[0]) && Execution(c, Take(c, s, steps[0]), steps[1..]))
  }

  ghost function After(c: Config, s: System, steps: seq<Step>): System
    requires Execution(c, s, steps)
    decreases |steps|
  {
    if steps == [] then s else After(c, Take(c, s, steps[0]), steps[1..])
  }

  lemma {:induction false} ExecutionRefines(c: Config, s: System, steps: seq<Step>)
    requires Execution(c, s, steps) && WritesAreFaithful(c, s)
    ensures WritesAreFaithful(c, After(c, s, steps))
    ensures Refines(c, s.rows, After(c, s, steps).rows)
    decreases |steps|
  {
    if steps == [] {
    } else {
      StepRefines(c, s, steps[0]);
      ExecutionRefines(c, Take(c, s, steps[0]), steps[1..]);
    }
  }

  lemma {:induction false} ExecutionSplit(c: Config, s: System, steps: seq<Step>, n: nat)
    requires Execution(c, s, steps) && n <= |steps|
    ensures Execution(c, s, steps[..n]) && Execution(c, After(c, s, steps[..n]), steps[n..])
    ensures After(c, After(c, s, steps[..n]), steps[n..]) == After(c, s, steps)
    decreases n
  {
    if n > 0 {
      ExecutionSplit(c, Take(c, s, steps[0]), steps[1..], n - 1);
      assert steps[..n][1..] == steps[1..][..n - 1] && steps[1..][n - 1..] == steps[n..];
    } else {
      assert steps[..0] == [] && steps[0..] == steps;
    }
  }

  /** Whatever is interleaved, a secret the application can read at one moment, be it an original row
      or one inserted on the way, it can read unchanged at every later moment. */
  lemma NoSecretIsLost(c: Config, s: System, steps: seq<Step>, n: nat, id: Id, secret: string)
    requires s.runs == map[] && Execution(c, s, steps) && n <= |steps|
    requires Execution(c, s, steps[..n]) && id in After(c, s, steps[..n]).rows
    requires Secret(c, After(c, s, steps[..n]).rows[id]) == Opened(secret)
    ensures id in After(c, s, steps).rows && Secret(c, After(c, s, steps).rows[id]) == Opened(secret)
  {
    ExecutionSplit(c, s, steps, n);
    var middle := After(c, s, steps[..n]);
    ExecutionRefines(c, s, steps[..n]);
    ExecutionRefines(c, middle, steps[n..]);
    DecryptNeedsOnlyTheKey(c.newKey, c.fallbacks, middle.rows[id], secret);
    DecryptNeedsOnlyTheKey(c.newKey, c.fallbacks, After(c, s, steps).rows[id], secret);
  }

  /** Which rows the rotation keeps readable: from no run in progress, a row that holds a text under the
      old or the new key is readable at every moment of every execution if and only if its key is the
      new one or the old key is among the fallbacks. */
  lemma ReadableThroughout(c: Config, s: System, id: Id)
    requires s.runs == map[] && id in s.rows && s.rows[id].Sealed? && s.rows[id].plain.Text?
    requires s.rows[id].key == c.oldKey || s.rows[id].key == c.newKey
    ensures (forall steps :: Execution(c, s, steps) ==> ReadsAfter(c, s, steps, id, s.rows[id].plain.text))
            <==> s.rows[id].key == c.newKey || c.oldKey in c.fallbacks
  {
    var row := s.rows[id];
    DecryptNeedsOnlyTheKey(c.newKey, c.fallbacks, row, row.plain.text);
    assert Execution(c, s, []) && After(c, s, []) == s;
    if row.key == c.newKey || c.oldKey in c.fallbacks {
      forall steps | Execution(c, s, steps) ensures ReadsAfter(c, s, steps, id, row.plain.text) {
        assert steps[..0] == [];
        NoSecretIsLost(c, s, steps, 0, id, row.plain.text);
      }
    } else {
      assert !ReadsAfter(c, s, [], id, row.plain.text);
    }
  }

  ghost predicate ReadsAfter(c: Config, s: System, steps: seq<Step>, id: Id, secret: string)
    requires Execution(c, s, steps)
  {
    id in After(c, s, steps).rows && Secret(c, After(c, s, steps).rows[id]) == Opened(secret)
  }

  // ----- What a run's exit code means ----------------------------------------------------------

  predicate UnderNewKey(c: Config, row: Ciphertext) {
    Open(c.newKey, row).Opened?
  }

  /** A run has accounted for the rows behind it; with no failure, every row of the table is under the
      new key except those it has yet to visit. */
  ghost predicate RunIsSound(c: Config, rows: Rows, r: Run) {
    r.next <= |r.snapshot| && r.rotated + r.failed == r.next &&
    (forall i :: 0 <= i < |r.snapshot| ==> r.snapshot[i] in rows) &&
    (r.write.Some? ==> r.next < |r.snapshot| && r.write.value.id == r.snapshot[r.next]) &&
    (r.failed == 0 ==> forall id :: id in rows ==> UnderNewKey(c, rows[id]) || id in r.snapshot[r.next..])
  }

  ghost predicate RunsAreSound(c: Config, s: System) {
    WritesAreFaithful(c, s) && forall run :: run in s.runs ==> RunIsSound(c, s.rows, s.runs[run])
  }

  lemma SoundAfterVisit(c: Config, rows: Rows, r: Run, rows': Rows, r': Run)
    requires RunIsSound(c, rows, r) && r.next < |r.snapshot|
    requires rows'.Keys == rows.Keys && Refines(c, rows, rows')
    requires r'.snapshot == r.snapshot && r'.next == r.next + 1 && r'.rotated + r'.failed == r'.next && r'.write.None?
    requires r'.failed == 0 ==> r.failed == 0 && UnderNewKey(c, rows'[r.snapshot[r.next]])
    ensures RunIsSound(c, rows', r')
  {
    if r'.failed == 0 {
      forall id | id in rows'
        ensures UnderNewKey(c, rows'[id]) || id in r.snapshot[r'.next..]
      {
        assert r.snapshot[r.next..] == [r.snapshot[r.next]] + r.snapshot[r'.next..];
      }
    }
  }

  /** Rows moving to the new key, and new rows under the new key, disturb no run. */
  lemma SoundAfterChange(c: Config, rows: Rows, rows': Rows, r: Run)
    requires RunIsSound(c, rows, r) && Refines(c, rows, rows')
    requires forall id :: id in rows' && id !in rows ==> UnderNewKey(c, rows'[id])
    ensures RunIsSound(c, rows', r)
  {
  }

  lemma StepKeepsRunsSound(c: Config, s: System, step: Step)
    requires Enabled(s, step) && RunsAreSound(c, s)
    ensures RunsAreSound(c, Take(c, s, step))
  {
    StepRefines(c, s, step);
    var s' := Take(c, s, step);
    forall run | run in s'.runs
      ensures RunIsSound(c, s'.rows, s'.runs[run])
    {
      if run in s.runs && s'.runs[run] == s.runs[run] {
        SoundAfterChange(c, s.rows, s'.rows, s.runs[run]);
      } else if !step.Begin? && s'.runs[run].next != s.runs[run].next {
        SoundAfterVisit(c, s.rows, s.runs[run], s'.rows, s'.runs[run]);
      }
    }
  }

  lemma {:induction false} RunsStaySound(c: Config, s: System, steps: seq<Step>)
    requires Execution(c, s, steps) && RunsAreSound(c, s)
    ensures RunsAreSound(c, After(c, s, steps))
    decreases |steps|
  {
    if steps == [] {
    } else {
      StepKeepsRunsSound(c, s, steps[0]);
      RunsStaySound(c, Take(c, s, steps[0]), steps[1..]);
    }
  }

  /** A run that ends has counted every row of its snapshot once; if it reports no failure, the new
      key alone opens every row of the table, those inserted meanwhile included. */
  lemma FinishedRun(c: Config, s: System, steps: seq<Step>, run: nat)
    requires s.runs == map[] && Execution(c, s, steps) && run in After(c, s, steps).runs
    requires After(c, s, steps).runs[run].next == |After(c, s, steps).runs[run].snapshot|
    ensures var r := After(c, s, steps).runs[run]; r.rotated + r.failed == |r.snapshot|
    ensures After(c, s, steps).runs[run].failed == 0 ==>
              forall id :: id in After(c, s, steps).rows ==> UnderNewKey(c, After(c, s, steps).rows[id])
  {
    RunsStaySound(c, s, steps);
  }

  // ----- When a rotated row is final -----------------------------------------------------------

  /** The run can still write row `id`: its write is pending, or it is about to visit the row as its
      first one and loaded it while it was under the old key. */
  predicate IsStaleOn(c: Config, r: Run, id: Id) {
    if r.write.Some? then r.write.value.id == id
    else r.next == 0 && r.snapshot != [] && r.snapshot[0] == id &&
         r.loaded.Some? && Open(c.oldKey, r.loaded.value).Opened?
  }

  ghost predicate NoneIsStale(c: Config, s: System, id: Id) {
    forall run :: run in s.runs ==> !IsStaleOn(c, s.runs[run], id)
  }

  /** A row under the new key of which no run is stale. */
  ghost predicate IsSettled(c: Config, s: System, id: Id) {
    id in s.rows && UnderNewKey(c, s.rows[id]) && NoneIsStale(c, s, id)
  }

  lemma StepKeepsSettled(c: Config, s: System, step: Step, id: Id)
    requires c.oldKey != c.newKey && Enabled(s, step) && IsSettled(c, s, id)
    ensures IsSettled(c, Take(c, s, step), id) && Take(c, s, step).rows[id] == s.rows[id]
  {
    var s' := Take(c, s, step);
    forall run | run in s'.runs ensures !IsStaleOn(c, s'.runs[run], id) {
      if run in s.runs {
        assert !IsStaleOn(c, s.runs[run], id);
      }
    }
  }

  lemma {:induction false} SettledStays(c: Config, s: System, steps: seq<Step>, id: Id)
    requires c.oldKey != c.newKey && Execution(c, s, steps) && IsSettled(c, s, id)
    ensures IsSettled(c, After(c, s, steps), id) && After(c, s, steps).rows[id] == s.rows[id]
    decreases |steps|
  {
    if steps == [] {
    } else {
      StepKeepsSettled(c, s, steps[0], id);
      SettledStays(c, Take(c, s, steps[0]), steps[1..], id);
    }
  }

  lemma Prepend(c: Config, s: System, step: Step, rest: seq<Step>)
    requires Enabled(s, step) && Execution(c, Take(c, s, step), rest)
    ensures Execution(c, s, [step] + rest)
    ensures After(c, s, [step] + rest) == After(c, Take(c, s, step), rest)
  {
    assert ([step] + rest)[1..] == rest;
  }

  /** The pending writes of a row are none of the ciphertexts it has, as every sealing has its own nonce. */
  ghost predicate WritesDiffer(s: System, id: Id)
    requires id in s.rows
  {
    forall run :: run in s.runs && s.runs[run].write.Some? && s.runs[run].write.value.id == id ==>
      s.runs[run].write.value.ciphertext != s.rows[id]
  }

  ghost predicate Keeps(c: Config, s: System, steps: seq<Step>, id: Id)
    requires Execution(c, s, steps) && id in s.rows
  {
    id in After(c, s, steps).rows && After(c, s, steps).rows[id] == s.rows[id]
  }

  /** A stale run can write the row again, under a nonce of its own. */
  lemma StaleRunRewrites(c: Config, s: System, run: nat, id: Id) returns (steps: seq<Step>)
    requires id in s.rows && UnderNewKey(c, s.rows[id]) && WritesDiffer(s, id)
    requires run in s.runs && IsStaleOn(c, s.runs[run], id)
    ensures Execution(c, s, steps) && !Keeps(c, s, steps, id)
  {
    if s.runs[run].write.Some? {
      steps := [Commit(run)] + [];
      Prepend(c, s, Commit(run), []);
    } else {
      var write := Reencrypt(run, s.rows[id].nonce + 1);
      Prepend(c, Take(c, s, write), Commit(run), []);
      Prepend(c, s, write, [Commit(run)] + []);
      steps := [write] + ([Commit(run)] + []);
    }
  }

  /** A row under the new key is never written again, whatever runs overlap, crash and restart, if and
      only if no run is stale on it. */
  lemma RotatedRowsAreFinal(c: Config, s: System, id: Id)
    requires c.oldKey != c.newKey && id in s.rows && UnderNewKey(c, s.rows[id]) && WritesDiffer(s, id)
    ensures (forall steps :: Execution(c, s, steps) ==> Keeps(c, s, steps, id)) <==> NoneIsStale(c, s, id)
  {
    if NoneIsStale(c, s, id) {
      forall steps | Execution(c, s, steps) ensures Keeps(c, s, steps, id) {
        SettledStays(c, s, steps, id);
      }
    } else {
      var run :| run in s.runs && IsStaleOn(c, s.runs[run], id);
      var steps := StaleRunRewrites(c, s, run, id);
    }
  }

  // ----- One run at a time ---------------------------------------------------------------------

  ghost predicate OneRun(s: System) {
    forall a, b :: a in s.runs && b in s.runs ==> a == b
  }

  ghost predicate ExclusiveExecution(c: Config, s: System, steps: seq<Step>)
    decreases |steps|
  {
    OneRun(s) && (steps == [] || (Enabled(s, steps[0]) && ExclusiveExecution(c, Take(c, s, steps[0]), steps[1..])))
  }

  /** A pending write belongs to a row still under the old key, and the first row is as it was loaded. */
  ghost predicate WritesAreFresh(c: Config, s: System) {
    forall run :: run in s.runs ==> RunIsFresh(c, s.rows, s.runs[run])
  }

  ghost predicate RunIsFresh(c: Config, rows: Rows, r: Run) {
    (r.write.Some? ==> r.write.value.id in rows && !UnderNewKey(c, rows[r.write.value.id])) &&
    (r.loaded.Some? && r.next == 0 ==>
       r.snapshot != [] && r.snapshot[0] in rows && rows[r.snapshot[0]] == r.loaded.value)
  }

  lemma {:induction false} ExclusiveStaysFresh(c: Config, s: System, steps: seq<Step>)
    requires c.oldKey != c.newKey && ExclusiveExecution(c, s, steps) && WritesAreFresh(c, s)
    ensures Execution(c, s, steps) && WritesAreFresh(c, After(c, s, steps))
    decreases |steps|
  {
    if steps == [] {
    } else {
      var s' := Take(c, s, steps[0]);
      assert WritesAreFresh(c, s');
      ExclusiveStaysFresh(c, s', steps[1..]);
    }
  }

  /** While runs do not overlap, however they crash and restart, no run is ever stale on a row under the
      new key: from the moment it is rotated it is final, even if runs overlap later. */
  lemma RotatedAloneIsFinal(c: Config, s: System, before: seq<Step>, after: seq<Step>, id: Id)
    requires c.oldKey != c.newKey && ExclusiveExecution(c, s, before) && WritesAreFresh(c, s)
    ensures Execution(c, s, before)
    ensures var middle := After(c, s, before);
            (id in middle.rows && UnderNewKey(c, middle.rows[id]) && Execution(c, middle, after)) ==>
            Keeps(c, middle, after, id)
  {
    ExclusiveStaysFresh(c, s, before);
    var middle := After(c, s, before);
    if id in middle.rows && UnderNewKey(c, middle.rows[id]) && Execution(c, middle, after) {
      forall run | run in middle.runs ensures !IsStaleOn(c, middle.runs[run], id) {
        assert RunIsFresh(c, middle.rows, middle.runs[run]);
      }
      SettledStays(c, middle, after, id);
    }
  }

  // ----- A run by itself -----------------------------------------------------------------------

  /** Only an insert or a commit touches the table, and only one row of it. */
  lemma OnlyCommitsWrite(c: Config, s: System, step: Step, id: Id)
    requires Enabled(s, step) && id in s.rows
    ensures id in Take(c, s, step).rows
    ensures Take(c, s, step).rows[id] != s.rows[id] ==>
              step.Commit? && s.runs[step.run].write.value.id == id &&
              Take(c, s, step).rows[id] == s.runs[step.run].write.value.ciphertext
  {
  }

  /** Run 0, alone, has visited the first `i` rows as the script's loop does. */
  ghost predicate SoloUpTo(i: nat, before: Rows, s: System, c: Config, ids: seq<Id>,
                           commits: seq<bool>, nonces: seq<nat>, audit: seq<AuditLine>)
    requires i <= |ids| == |commits| == |nonces| && Lists(ids, before)
  {
    RotatedUpTo(i, before, s.rows, ids, c.oldKey, c.newKey, commits, nonces, audit) &&
    CountRotated(audit) <= i && 0 in s.runs &&
    (|ids| > 0 ==> ids[0] in ids) &&
    s.runs[0] == Run(ids, if ids == [] then None else Some(before[ids[0]]), i,
                     CountRotated(audit), i - CountRotated(audit), None)
  }

  function VisitSteps(c: Config, row: Ciphertext, commit: bool, nonce: nat): seq<Step> {
    [Reencrypt(0, nonce)] +
    if Open(c.oldKey, row).Opened? then [if commit then Commit(0) else CommitFails(0)] + [] else []
  }

  function Visited(c: Config, s: System, id: Id, commit: bool, nonce: nat): System
    requires 0 in s.runs && id in s.rows
  {
    var r := s.runs[0];
    var r' := if Rotates(s.rows[id], c.oldKey, commit) then r.(next := r.next + 1, rotated := r.rotated + 1)
              else r.(next := r.next + 1, failed := r.failed + 1);
    System(s.rows[id := RowAfter(s.rows[id], c.oldKey, c.newKey, commit, nonce)], s.runs[0 := r'])
  }

  lemma VisitRow(c: Config, s: System, id: Id, commit: bool, nonce: nat)
    requires 0 in s.runs && s.runs[0].write.None? && id in s.rows
    requires s.runs[0].next < |s.runs[0].snapshot| && s.runs[0].snapshot[s.runs[0].next] == id
    requires ReadRow(s.rows, s.runs[0]) == s.rows[id]
    ensures Execution(c, s, VisitSteps(c, s.rows[id], commit, nonce))
    ensures After(c, s, VisitSteps(c, s.rows[id], commit, nonce)) == Visited(c, s, id, commit, nonce)
  {
    var read := Take(c, s, Reencrypt(0, nonce));
    if Open(c.oldKey, s.rows[id]).Opened? {
      var last := if commit then Commit(0) else CommitFails(0);
      Prepend(c, read, last, []);
      Prepend(c, s, Reencrypt(0, nonce), [last] + []);
      assert Take(c, read, last).rows == Visited(c, s, id, commit, nonce).rows;
      assert Take(c, read, last).runs == Visited(c, s, id, commit, nonce).runs;
    } else {
      Prepend(c, s, Reencrypt(0, nonce), []);
      assert read.rows == Visited(c, s, id, commit, nonce).rows;
    }
  }

  lemma VisitNext(i: nat, before: Rows, s: System, c: Config, ids: seq<Id>,
                  commits: seq<bool>, nonces: seq<nat>, audit: seq<AuditLine>) returns (audit': seq<AuditLine>)
    requires i < |ids| == |commits| == |nonces| && Lists(ids, before)
    requires SoloUpTo(i, before, s, c, ids, commits, nonces, audit)
    ensures ids[i] in s.rows && ReadRow(s.rows, s.runs[0]) == s.rows[ids[i]]
    ensures SoloUpTo(i + 1, before, Visited(c, s, ids[i], commits[i], nonces[i]), c, ids, commits, nonces, audit')
  {
    RotateNext(i, before, s.rows, ids, c.oldKey, c.newKey, commits, nonces, audit);
    audit' := audit + [AuditLine(ids[i], Rotates(s.rows[ids[i]], c.oldKey, commits[i]))];
  }

  lemma {:induction false} JoinExecutions(c: Config, s: System, first: seq<Step>, rest: seq<Step>)
    requires Execution(c, s, first) && Execution(c, After(c, s, first), rest)
    ensures Execution(c, s, first + rest) && After(c, s, first + rest) == After(c, After(c, s, first), rest)
    decreases |first|
  {
    if first == [] {
      assert first + rest == rest;
    } else {
      assert (first + rest)[1..] == first[1..] + rest;
      JoinExecutions(c, Take(c, s, first[0]), first[1..], rest);
    }
  }

  lemma {:induction false} VisitRest(i: nat, before: Rows, s: System, c: Config, ids: seq<Id>,
                                     commits: seq<bool>, nonces: seq<nat>, audit: seq<AuditLine>)
    returns (steps: seq<Step>, audit': seq<AuditLine>)
    requires i <= |ids| == |commits| == |nonces| && Lists(ids, before)
    requires SoloUpTo(i, before, s, c, ids, commits, nonces, audit)
    ensures Execution(c, s, steps) && SoloUpTo(|ids|, before, After(c, s, steps), c, ids, commits, nonces, audit')
    decreases |ids| - i
  {
    if i == |ids| {
      steps, audit' := [], audit;
    } else {
      var more := VisitNext(i, before, s, c, ids, commits, nonces, audit);
      VisitRow(c, s, ids[i], commits[i], nonces[i]);
      var next := Visited(c, s, ids[i], commits[i], nonces[i]);
      var visit, rest := VisitSteps(c, s.rows[ids[i]], commits[i], nonces[i]), [];
      rest, audit' := VisitRest(i + 1, before, next, c, ids, commits, nonces, more);
      JoinExecutions(c, s, visit, rest);
      steps := visit + rest;
    }
  }

  /** A run that nothing interferes with does to the table, row by row and commit by commit, what the
      script's loop does to it, and ends with the same counts. */
  lemma SoloRunIsTheScript(c: Config, rows: Rows, ids: seq<Id>, commits: seq<bool>, nonces: seq<nat>)
    returns (steps: seq<Step>, audit: seq<AuditLine>)
    requires |ids| == |commits| == |nonces| && Lists(ids, rows)
    ensures Execution(c, System(rows, map[]), steps)
    ensures var s := After(c, System(rows, map[]), steps);
            KeptOrRotated(rows, s.rows, ids, c.oldKey, c.newKey, commits, nonces, audit) && 0 in s.runs &&
            s.runs[0].rotated == CountRotated(audit) && s.runs[0].rotated + s.runs[0].failed == |ids|
  {
    var s := System(rows, map[]);
    assert |ids| > 0 ==> ids[0] in ids;
    var begun := Take(c, s, Begin(0, ids));
    var rest;
    rest, audit := VisitRest(0, rows, begun, c, ids, commits, nonces, []);
    steps := [Begin(0, ids)] + rest;
    Prepend(c, s, Begin(0, ids), rest);
    RotatedMeans(rows, After(c, s, steps).rows, ids, c.oldKey, c.newKey, commits, nonces, audit);
  }

  // ----- Runs that overlap ---------------------------------------------------------------------

  /** The state after two runs have both read one row under the old key and re-encrypted it. */
  function BothPending(c: Config, id: Id, text: string): System {
    var row := Seal(c.oldKey, text, 0);
    System(map[id := row],
           map[0 := Run([id], Some(row), 0, 0, 0, Some(Write(id, Seal(c.newKey, text, 1)))),
               1 := Run([id], Some(row), 0, 0, 0, Some(Write(id, Seal(c.newKey, text, 2))))])
  }

  function Overlapping(id: Id): seq<Step> {
    [Begin(0, [id])] + ([Begin(1, [id])] + ([Reencrypt(0, 1)] + ([Reencrypt(1, 2)] + [])))
  }

  lemma OverlapIsReachable(c: Config, id: Id, text: string)
    requires c.oldKey != c.newKey
    ensures var s := System(map[id := Seal(c.oldKey, text, 0)], map[]);
            Execution(c, s, Overlapping(id)) && After(c, s, Overlapping(id)) == BothPending(c, id, text)
  {
    var s0 := System(map[id := Seal(c.oldKey, text, 0)], map[]);
    var s1 := Take(c, s0, Begin(0, [id]));
    var s2 := Take(c, s1, Begin(1, [id]));
    var s3 := Take(c, s2, Reencrypt(0, 1));
    assert Take(c, s3, Reencrypt(1, 2)) == BothPending(c, id, text);
    Prepend(c, s3, Reencrypt(1, 2), []);
    Prepend(c, s2, Reencrypt(0, 1), [Reencrypt(1, 2)] + []);
    Prepend(c, s1, Begin(1, [id]), [Reencrypt(0, 1)] + ([Reencrypt(1, 2)] + []));
    Prepend(c, s0, Begin(0, [id]), [Begin(1, [id])] + ([Reencrypt(0, 1)] + ([Reencrypt(1, 2)] + [])));
  }

  /** From there one commit puts the row under the new key, and the other writes it once more. */
  lemma OverlappingRunsRewrite(c: Config, id: Id, text: string)
    requires c.oldKey != c.newKey
    ensures var s := Take(c, BothPending(c, id, text), Commit(0));
            s.rows == map[id := Seal(c.newKey, text, 1)] && !NoneIsStale(c, s, id) && Enabled(s, Commit(1)) &&
            Take(c, s, Commit(1)).rows == map[id := Seal(c.newKey, text, 2)]
  {
    var s := Take(c, BothPending(c, id, text), Commit(0));
    assert 1 in s.runs && IsStaleOn(c, s.runs[1], id);
  }
}
