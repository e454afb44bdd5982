/**
  The migration that brings the boon columns of the player summaries to their canonical names, from
  whatever columns the table happens to have.
*/
module BoonColumns {
  import opened Options

  type Name = string

  /** A column's contents: what the table held, or the NULLs of a column just added. */
  datatype Data = Stored(id: nat) | AllNull

  type Columns = map<Name, Data>

  function Legacy(boon: string): Name {
    "boon_" + boon + "_uptime"
  }

  function Canonical(boon: string): Name {
    boon + "_uptime"
  }

  function Outgoing(boon: string): Name {
    "outgoing_" + boon
  }

  /** No listed boon is another one with "boon_" in front. */
  ghost predicate NoClash(boons: seq<string>) {
    forall b, c :: b in boons && c in boons ==> c != "boon_" + b
  }

  lemma LegacyNames(b: string, c: string)
    ensures Legacy(b) == Legacy(c) ==> b == c
    ensures Legacy(b) == Canonical(c) <==> c == "boon_" + b
    ensures Canonical(b) == Canonical(c) ==> b == c
    ensures Legacy(b) != Outgoing(c)
  {
    var n := |"_uptime"|;
    assert Legacy(b)[..|Legacy(b)| - n] == "boon_" + b && Legacy(c)[..|Legacy(c)| - n] == "boon_" + c;
    assert Canonical(b)[..|Canonical(b)| - n] == b && Canonical(c)[..|Canonical(c)| - n] == c;
    assert ("boon_" + b)[5..] == b && ("boon_" + c)[5..] == c;
    assert Legacy(b)[0] == 'b' && Outgoing(c)[0] == 'o';
  }

  // ----- What it leaves under a name -----------------------------------------------------------

  function At(columns: Columns, n: Name): Option<Data> {
    if n in columns then Some(columns[n]) else None
  }

  ghost predicate IsLegacy(boons: seq<string>, n: Name) {
    exists b :: b in boons && n == Legacy(b)
  }

  ghost predicate IsCanonical(boons: seq<string>, n: Name) {
    exists b :: b in boons && n == Canonical(b)
  }

  ghost predicate IsTarget(boons: seq<string>, n: Name) {
    IsCanonical(boons, n) || exists b :: b in boons && n == Outgoing(b)
  }

  /** After the renames: legacy names are gone, a free canonical name has the data of its legacy
      column, and every other name is as it was. */
  ghost function RenamedAt(columns: Columns, boons: seq<string>, n: Name): Option<Data> {
    if IsLegacy(boons, n) then None
    else if n in columns then Some(columns[n])
    else if IsCanonical(boons, n) then At(columns, "boon_" + n)
    else None
  }

  ghost function AddedAt(columns: Columns, boons: seq<string>, n: Name): Option<Data> {
    if n in columns then Some(columns[n]) else if IsTarget(boons, n) then Some(AllNull) else None
  }

  /** The whole migration, name by name. */
  ghost function UpgradedAt(columns: Columns, boons: seq<string>, n: Name): Option<Data> {
    var renamed := RenamedAt(columns, boons, n);
    if renamed.None? && IsTarget(boons, n) then Some(AllNull) else renamed
  }

  lemma LegacyOfCanonical(b: string)
    ensures Legacy(b) == "boon_" + Canonical(b)
  {
  }

  lemma PrefixNoClash(boons: seq<string>, i: nat)
    requires NoClash(boons) && i < |boons|
    ensures NoClash(boons[..i] + [boons[i]])
  {
    var prefix := boons[..i] + [boons[i]];
    forall b, c | b in prefix && c in prefix
      ensures c != "boon_" + b
    {
      assert b in boons && c in boons;
    }
  }

  /** One round of the first loop. */
  function RenameOne(columns: Columns, b: string): Columns {
    if Legacy(b) !in columns then columns
    else if Canonical(b) in columns then columns - {Legacy(b)}
    else columns[Canonical(b) := columns[Legacy(b)]] - {Legacy(b)}
  }

  lemma KnownOneMore(done: seq<string>, b: string, n: Name)
    ensures IsLegacy(done + [b], n) <==> IsLegacy(done, n) || n == Legacy(b)
    ensures IsCanonical(done + [b], n) <==> IsCanonical(done, n) || n == Canonical(b)
    ensures IsTarget(done + [b], n) <==> IsTarget(done, n) || n == Canonical(b) || n == Outgoing(b)
  {
    assert forall c :: c in done + [b] <==> c in done || c == b;
  }

  lemma RenameNext(start: Columns, done: seq<string>, b: string, columns: Columns, n: Name)
    requires NoClash(done + [b]) && forall m :: At(columns, m) == RenamedAt(start, done, m)
    ensures At(RenameOne(columns, b), n) == RenamedAt(start, done + [b], n)
  {
    var legacy, canonical := Legacy(b), Canonical(b);
    KnownOneMore(done, b, n);
    assert At(columns, n) == RenamedAt(start, done, n);
    assert At(columns, legacy) == RenamedAt(start, done, legacy);
    LegacyOfCanonical(b);
    NamesAreApart(done, b);
  }

  /** The names a round touches mean nothing to the other boons. */
  lemma NamesAreApart(done: seq<string>, b: string)
    requires NoClash(done + [b])
    ensures !IsLegacy(done, Canonical(b)) && !IsCanonical(done, Legacy(b)) && Legacy(b) != Canonical(b)
    ensures IsLegacy(done, Legacy(b)) ==> b in done
    ensures b in done ==> IsLegacy(done, Legacy(b)) && IsCanonical(done, Canonical(b))
    ensures IsCanonical(done, Canonical(b)) ==> b in done
  {
    assert b in done + [b] && forall c :: c in done ==> c in done + [b];
    LegacyNames(b, b);
    forall c | c in done
      ensures Legacy(c) != Canonical(b) && Legacy(b) != Canonical(c)
      ensures (Legacy(b) == Legacy(c) ==> b == c) && (Canonical(b) == Canonical(c) ==> b == c)
    {
      LegacyNames(b, c);
      LegacyNames(c, b);
    }
  }

  // ----- The migration -------------------------------------------------------------------------

  class Table {
    var columns: Columns

    /** The first loop: rename a legacy column, or drop it when its canonical name is taken. */
    method RenameLegacy(boons: seq<string>)
      requires NoClash(boons)
      modifies this
      ensures forall n :: At(columns, n) == RenamedAt(old(columns), boons, n)
    {
      for i := 0 to |boons|
        invariant forall n :: At(columns, n) == RenamedAt(old(columns), boons[..i], n)
      {
        ghost var before := columns;
        var oldName, newName := Legacy(boons[i]), Canonical(boons[i]);
        if oldName in columns {
          if newName in columns {
            columns := columns - {oldName};
          } else {
            columns := columns[newName := columns[oldName]] - {oldName};
          }
        }
        assert columns == RenameOne(before, boons[i]);
        assert boons[..i + 1] == boons[..i] + [boons[i]];
        PrefixNoClash(boons, i);
        forall n
          ensures At(columns, n) == RenamedAt(old(columns), boons[..i + 1], n)
        {
          RenameNext(old(columns), boons[..i], boons[i], before, n);
        }
      }
      assert boons[..|boons|] == boons;
    }

    /** The second loop: add what is missing. */
    method AddMissing(boons: seq<string>)
      modifies this
      ensures forall n :: At(columns, n) == AddedAt(old(columns), boons, n)
    {
      for i := 0 to |boons|
        invariant forall n :: At(columns, n) == AddedAt(old(columns), boons[..i], n)
      {
        ghost var before := columns;
        if Canonical(boons[i]) !in columns {
          columns := columns[Canonical(boons[i]) := AllNull];
        }
        if Outgoing(boons[i]) !in columns {
          columns := columns[Outgoing(boons[i]) := AllNull];
        }
        assert boons[..i + 1] == boons[..i] + [boons[i]];
        forall n
          ensures At(columns, n) == AddedAt(old(columns), boons[..i + 1], n)
        {
          KnownOneMore(boons[..i], boons[i], n);
          assert At(before, n) == AddedAt(old(columns), boons[..i], n);
        }
      }
      assert boons[..|boons|] == boons;
    }

    method Upgrade(boons: seq<string>)
      requires NoClash(boons)
      modifies this
      ensures forall n :: At(columns, n) == UpgradedAt(old(columns), boons, n)
    {
      ghost var before := columns;
      RenameLegacy(boons);
      ghost var renamed := columns;
      AddMissing(boons);
      forall n
        ensures At(columns, n) == UpgradedAt(before, boons, n)
      {
        assert At(renamed, n) == RenamedAt(before, boons, n);
        assert At(columns, n) == AddedAt(renamed, boons, n);
      }
    }
  }

  // ----- What the migration promises -----------------------------------------------------------

  ghost predicate IsUpgrade(before: Columns, after: Columns, boons: seq<string>) {
    forall n :: At(after, n) == UpgradedAt(before, boons, n)
  }

  /** Every canonical column is there and no legacy one. */
  ghost predicate IsAligned(columns: Columns, boons: seq<string>) {
    forall b :: b in boons ==> Legacy(b) !in columns && Canonical(b) in columns
  }

  /** From any starting columns: no legacy column is left, every canonical and outgoing column is
      there, all others are untouched; data under a canonical name stays, and legacy data is found
      under the canonical name whenever that name was free. */
  lemma UpgradeAligns(before: Columns, after: Columns, boons: seq<string>)
    requires NoClash(boons) && IsUpgrade(before, after, boons)
    ensures IsAligned(after, boons) && forall b :: b in boons ==> Outgoing(b) in after
    ensures forall n :: !IsLegacy(boons, n) && !IsTarget(boons, n) ==> At(after, n) == At(before, n)
    ensures forall b :: b in boons && Canonical(b) in before ==> after[Canonical(b)] == before[Canonical(b)]
    ensures forall b :: b in boons && Canonical(b) !in before && Legacy(b) in before ==>
                        after[Canonical(b)] == before[Legacy(b)]
  {
    forall b | b in boons
      ensures Legacy(b) !in after && Canonical(b) in after && Outgoing(b) in after
      ensures Canonical(b) in before ==> after[Canonical(b)] == before[Canonical(b)]
      ensures Canonical(b) !in before && Legacy(b) in before ==> after[Canonical(b)] == before[Legacy(b)]
    {
      TargetIsNotLegacy(boons, b);
      assert IsLegacy(boons, Legacy(b)) && IsCanonical(boons, Canonical(b)) && IsTarget(boons, Outgoing(b));
      assert At(after, Legacy(b)) == UpgradedAt(before, boons, Legacy(b));
      assert At(after, Canonical(b)) == UpgradedAt(before, boons, Canonical(b));
      assert At(after, Outgoing(b)) == UpgradedAt(before, boons, Outgoing(b));
      LegacyOfCanonical(b);
    }
    forall n | !IsLegacy(boons, n) && !IsTarget(boons, n)
      ensures At(after, n) == At(before, n)
    {
      assert At(after, n) == UpgradedAt(before, boons, n);
    }
  }

  /** The same for one boon, with the names written out. */
  lemma UpgradeOfBoon(before: Columns, after: Columns, boons: seq<string>, boon: string)
    requires NoClash(boons) && IsUpgrade(before, after, boons) && boon in boons
    ensures var legacy, canonical := "boon_" + boon + "_uptime", boon + "_uptime";
            legacy !in after && canonical in after && "outgoing_" + boon in after &&
            after[canonical] == (if canonical in before then before[canonical]
                                 else if legacy in before then before[legacy] else AllNull)
    ensures (forall b :: b in boons ==> b + "_uptime" != "outgoing_" + boon) ==>
              after["outgoing_" + boon] == if "outgoing_" + boon in before then before["outgoing_" + boon] else AllNull
  {
    UpgradeAligns(before, after, boons);
    TargetIsNotLegacy(boons, boon);
    LegacyOfCanonical(boon);
    assert IsCanonical(boons, Canonical(boon)) && IsTarget(boons, Outgoing(boon));
    assert At(after, Canonical(boon)) == UpgradedAt(before, boons, Canonical(boon));
    assert At(after, Outgoing(boon)) == UpgradedAt(before, boons, Outgoing(boon));
  }

  lemma TargetIsNotLegacy(boons: seq<string>, b: string)
    requires NoClash(boons) && b in boons
    ensures !IsLegacy(boons, Canonical(b)) && !IsLegacy(boons, Outgoing(b)) && !IsTarget(boons, Legacy(b))
  {
    forall c | c in boons
      ensures Legacy(c) != Canonical(b) && Legacy(c) != Outgoing(b)
      ensures Legacy(b) != Canonical(c) && Legacy(b) != Outgoing(c)
    {
      LegacyNames(c, b);
      LegacyNames(b, c);
    }
  }

  /** Running the migration twice is running it once. */
  lemma UpgradeIsIdempotent(before: Columns, after: Columns, again: Columns, boons: seq<string>)
    requires NoClash(boons) && IsUpgrade(before, after, boons) && IsUpgrade(after, again, boons)
    ensures again == after
  {
    UpgradeAligns(before, after, boons);
    forall n
      ensures At(again, n) == At(after, n)
    {
      assert At(again, n) == UpgradedAt(after, boons, n);
      if IsLegacy(boons, n) {
        var b :| b in boons && n == Legacy(b);
        TargetIsNotLegacy(boons, b);
      }
    }
    assert forall n :: n in again <==> At(again, n).Some?;
    assert forall n :: n in after <==> At(after, n).Some?;
    assert forall n :: n in again ==> At(again, n) == Some(again[n]) && At(after, n) == Some(after[n]);
  }

  /** The condition on the names is exactly what the promise needs: with a clash no table at all has
      every canonical column and no legacy one. */
  lemma ClashIsFatal(boons: seq<string>)
    ensures NoClash(boons) <==> exists after: Columns :: IsAligned(after, boons)
  {
    if NoClash(boons) {
      var after: Columns := map n | n in CanonicalNames(boons) :: AllNull;
      forall b | b in boons
        ensures Legacy(b) !in after && Canonical(b) in after
      {
        TargetIsNotLegacy(boons, b);
      }
      assert IsAligned(after, boons);
    } else {
      var b, c :| b in boons && c in boons && c == "boon_" + b;
      LegacyNames(b, c);
    }
  }

  function CanonicalNames(boons: seq<string>): set<Name> {
    set b | b in boons :: Canonical(b)
  }

  /** The boons the migration is run with. */
  const BOONS: seq<string> :=
    ["might", "fury", "quickness", "alacrity", "protection", "regeneration", "vigor",
     "aegis", "stability", "swiftness", "resistance", "resolution", "superspeed", "stealth"]

  lemma BoonsDoNotClash()
    ensures NoClash(BOONS)
  {
    forall b, c | b in BOONS && c in BOONS
      ensures c != "boon_" + b
    {
      assert ("boon_" + b)[0] == 'b';
      assert forall i :: 0 <= i < |BOONS| ==> BOONS[i][0] != 'b';
    }
  }
}
