/**
  The migration that moves webhook secrets from a plaintext column to an encrypted one, and back.

  The table is mutated in place: a column is added, filled by one UPDATE per selected row, and the
  other column is dropped.  Both directions run in one transaction, so a downgrade that meets an
  envelope it cannot open leaves the table as it was.
*/
module SecretMigration {
  import opened Envelope
  import opened Options

  type Id = string

  /** A `bytea` value: empty, or an envelope. */
  datatype Blob = Empty | Token(envelope: Ciphertext)

  /** The two columns; `None` is a column the table does not have. */
  datatype Columns = Columns(secret: Option<map<Id, string>>, ciphertext: Option<map<Id, Blob>>)

  /** The rows a SELECT returns: every row whose value is not `skip`, once, in any order. */
  ghost predicate Selects<V>(ids: seq<Id>, column: map<Id, V>, skip: V) {
    (forall id :: id in ids <==> id in column && column[id] != skip) &&
    (forall i, j :: 0 <= i < j < |ids| ==> ids[i] != ids[j])
  }

  ghost predicate OpensTo(kek: Key, blob: Blob, text: string) {
    blob.Token? && Open(kek, blob.envelope) == Opened(text)
  }

  /** A full column where a row holds an envelope exactly when its secret was not empty. */
  ghost predicate EncryptedUnder(kek: Key, secrets: map<Id, string>, column: map<Id, Blob>) {
    column.Keys == secrets.Keys &&
    forall id :: id in secrets ==>
      if secrets[id] == "" then column[id] == Empty else OpensTo(kek, column[id], secrets[id])
  }

  ghost predicate CanDowngrade(kek: Key, column: map<Id, Blob>) {
    forall id :: id in column && column[id].Token? ==> Open(kek, column[id].envelope).Opened?
  }

  function Restored(kek: Key, column: map<Id, Blob>): map<Id, string> {
    map id | id in column :: if column[id].Token? && Open(kek, column[id].envelope).Opened?
                             then Open(kek, column[id].envelope).text else ""
  }

  /** The rows in `done` are converted, the others still hold the default of the added column. */
  ghost predicate EncryptedSoFar(kek: Key, done: seq<Id>, secrets: map<Id, string>, column: map<Id, Blob>) {
    column.Keys == secrets.Keys &&
    (forall id :: id in secrets && id !in done ==> column[id] == Empty) &&
    (forall id :: id in done ==> id in secrets && OpensTo(kek, column[id], secrets[id]))
  }

  ghost predicate RestoredSoFar(kek: Key, done: seq<Id>, column: map<Id, Blob>, secrets: map<Id, string>) {
    secrets.Keys == column.Keys &&
    (forall id :: id in column && id !in done ==> secrets[id] == "") &&
    (forall id :: id in done ==> id in column && OpensTo(kek, column[id], secrets[id]))
  }

  lemma AllRestored(kek: Key, ids: seq<Id>, column: map<Id, Blob>, secrets: map<Id, string>)
    requires Selects(ids, column, Empty) && RestoredSoFar(kek, ids, column, secrets)
    ensures CanDowngrade(kek, column) && secrets == Restored(kek, column)
  {
    forall id | id in column
      ensures secrets[id] == Restored(kek, column)[id] && (column[id].Token? ==> id in ids)
    {
    }
  }

  lemma AllEncrypted(kek: Key, ids: seq<Id>, secrets: map<Id, string>, column: map<Id, Blob>)
    requires Selects(ids, secrets, "") && EncryptedSoFar(kek, ids, secrets, column)
    ensures EncryptedUnder(kek, secrets, column)
  {
  }

  /** One UPDATE. */
  lemma EncryptNext(kek: Key, ids: seq<Id>, i: nat, secrets: map<Id, string>, column: map<Id, Blob>, token: Blob)
    requires i < |ids| && ids[i] in secrets && OpensTo(kek, token, secrets[ids[i]])
    requires EncryptedSoFar(kek, ids[..i], secrets, column)
    ensures EncryptedSoFar(kek, ids[..i + 1], secrets, column[ids[i] := token])
  {
    assert ids[..i + 1] == ids[..i] + [ids[i]];
  }

  lemma RestoreNext(kek: Key, ids: seq<Id>, i: nat, column: map<Id, Blob>, secrets: map<Id, string>, text: string)
    requires i < |ids| && ids[i] in column && OpensTo(kek, column[ids[i]], text)
    requires RestoredSoFar(kek, ids[..i], column, secrets)
    ensures RestoredSoFar(kek, ids[..i + 1], column, secrets[ids[i] := text])
  {
    assert ids[..i + 1] == ids[..i] + [ids[i]];
  }

  class Table {
    var columns: Columns

    method Upgrade(kek: Key, ids: seq<Id>, nonces: seq<nat>)
      requires columns.secret.Some? && columns.ciphertext.None?
      requires Selects(ids, columns.secret.value, "") && |nonces| == |ids|
      modifies this
      ensures columns.secret.None? && columns.ciphertext.Some?
      ensures EncryptedUnder(kek, old(columns).secret.value, columns.ciphertext.value)
    {
      var secrets := columns.secret.value;
      columns := columns.(ciphertext := Some(map id | id in secrets :: Empty));
      for i := 0 to |ids|
        invariant columns.secret == Some(secrets) && columns.ciphertext.Some?
        invariant EncryptedSoFar(kek, ids[..i], secrets, columns.ciphertext.value)
      {
        var id := ids[i];
        assert id in ids;
        var token := Token(Seal(kek, secrets[id], nonces[i]));
        EncryptNext(kek, ids, i, secrets, columns.ciphertext.value, token);
        columns := columns.(ciphertext := Some(columns.ciphertext.value[id := token]));
      }
      assert ids[..|ids|] == ids;
      AllEncrypted(kek, ids, secrets, columns.ciphertext.value);
      columns := columns.(secret := None);
    }

    /** Restores the plaintext column, or fails on an envelope `kek` does not open. */
    method Downgrade(kek: Key, ids: seq<Id>) returns (ok: bool)
      requires columns.secret.None? && columns.ciphertext.Some?
      requires Selects(ids, columns.ciphertext.value, Empty)
      modifies this
      ensures ok <==> CanDowngrade(kek, old(columns).ciphertext.value)
      ensures !ok ==> columns == old(columns)
      ensures ok ==> columns == Columns(Some(Restored(kek, old(columns).ciphertext.value)), None)
    {
      var before := columns;
      var column := columns.ciphertext.value;
      columns := columns.(secret := Some(map id | id in column :: ""));
      for i := 0 to |ids|
        invariant columns.ciphertext == Some(column) && columns.secret.Some?
        invariant RestoredSoFar(kek, ids[..i], column, columns.secret.value)
      {
        var id := ids[i];
        assert id in ids;
        var clear := Open(kek, column[id].envelope);
        if !clear.Opened? {
          columns := before;
          return false;
        }
        RestoreNext(kek, ids, i, column, columns.secret.value, clear.text);
        columns := columns.(secret := Some(columns.secret.value[id := clear.text]));
      }
      assert ids[..|ids|] == ids;
      AllRestored(kek, ids, column, columns.secret.value);
      columns := columns.(ciphertext := None);
      ok := true;
    }
  }

  /** Upgrade, then downgrade: it succeeds exactly under the same key, unless there was nothing to
      encrypt, and then every secret is back, empty ones included. */
  lemma RoundTrip(upKey: Key, downKey: Key, secrets: map<Id, string>, column: map<Id, Blob>)
    requires EncryptedUnder(upKey, secrets, column)
    ensures CanDowngrade(downKey, column) <==> downKey == upKey || forall id :: id in secrets ==> secrets[id] == ""
    ensures CanDowngrade(downKey, column) ==> Restored(downKey, column) == secrets
  {
    if CanDowngrade(downKey, column) {
      forall id | id in secrets
        ensures Restored(downKey, column)[id] == secrets[id]
      {
      }
    }
    if downKey != upKey && exists id :: id in secrets && secrets[id] != "" {
      var id :| id in secrets && secrets[id] != "";
      assert column[id].Token? && column[id].envelope.key == upKey;
    }
  }

  /** The whole round trip on the table itself. */
  method UpgradeThenDowngrade(table: Table, kek: Key, up: seq<Id>, nonces: seq<nat>, down: seq<Id>) returns (ok: bool)
    requires table.columns.secret.Some? && table.columns.ciphertext.None? && |nonces| == |up|
    requires Selects(up, table.columns.secret.value, "") && Selects(down, table.columns.secret.value, "")
    modifies table
    ensures ok && table.columns == old(table.columns)
  {
    ghost var secrets := table.columns.secret.value;
    table.Upgrade(kek, up, nonces);
    RoundTrip(kek, kek, secrets, table.columns.ciphertext.value);
    ok := table.Downgrade(kek, down);
  }
}
