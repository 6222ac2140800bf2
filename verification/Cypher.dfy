/** The key rotation as it is run: loops over settings and properties that overwrite documents in place. */
module Cypher {
  import opened Options
  import opened JsonDocument
  import opened CipherFraming
  import opened SensitiveData
  import opened KeyRotation
  import opened RotationBackups
  import opened RotationReruns

  /** A setting read from the database, to be modified in memory and saved back. */
  class Document {
    var id: string
    var data: Json
    var sensitive: seq<Path>
    var backup: Option<map<Path, string>>

    constructor (s: Setting)
      ensures Value() == s
    {
      id, data, sensitive, backup := s.id, s.data, s.sensitive, s.backup;
    }

    function Value(): Setting reads this {
      Setting(id, data, sensitive, backup)
    }

    method PrepareBackup()
      modifies `backup
      ensures backup == Some(Backup(old(Value())))
      ensures HoldsTexts(backup.value, data, sensitive)
    {
      var values: map<Path, string> := map[];
      for i := 0 to |sensitive|
        invariant backup == old(backup)
        invariant values == map p | p in sensitive[..i] && TextAt(data, p).Some? :: TextAt(data, p).value
      {
        assert sensitive[..i + 1] == sensitive[..i] + [sensitive[i]];
        var value := TextAt(data, sensitive[i]);
        if value.Some? {
          values := values[sensitive[i] := value.value];
        }
      }
      assert sensitive[..|sensitive|] == sensitive;
      backup := Some(values);
    }

    /** False stands for the exception of the cipher. */
    method DecryptSensitiveData(c: Cipher, k: CryptoKey) returns (ok: bool)
      modifies `data
      ensures ok <==> Plain(c, k, old(Value())).Some?
      ensures ok ==> Some(data) == Plain(c, k, old(Value()))
    {
      for i := 0 to |sensitive|
        invariant Decrypted(c, k, old(data), sensitive, i) == Some(data)
      {
        var value := TextAt(data, sensitive[i]);
        if value.Some? {
          var plain := Decrypt(c, k, value.value);
          if plain.None? {
            DecryptedFails(c, k, old(data), sensitive, i + 1, |sensitive|);
            return false;
          }
          data := Set(data, sensitive[i], Str(plain.value));
        }
      }
      return true;
    }

    method EncryptSensitiveData(c: Cipher, k: CryptoKey, ivs: Vectors)
      modifies `data
      ensures data == Encrypted(c, k, ivs, old(data), sensitive, |sensitive|)
    {
      for i := 0 to |sensitive|
        invariant data == Encrypted(c, k, ivs, old(data), sensitive, i)
      {
        var value := TextAt(data, sensitive[i]);
        if value.Some? {
          data := Set(data, sensitive[i], Str(Encrypt(c, k, ivs(i), value.value)));
        }
      }
    }
  }

  /** A failed decryption fails the properties after it. */
  lemma {:induction false} DecryptedFails(c: Cipher, k: CryptoKey, d: Json, paths: seq<Path>, n: nat, m: nat)
    requires n <= m <= |paths| && Decrypted(c, k, d, paths, n).None?
    ensures Decrypted(c, k, d, paths, m).None?
  {
    if n < m {
      DecryptedFails(c, k, d, paths, n, m - 1);
    }
  }

  datatype Outcome = Done | Failed | Busy | CutOff

  class Cypher {
    var settings: seq<Setting>
    var migrationToBeDone: bool
    const c: Cipher
    const former: CryptoKey
    const key: CryptoKey

    constructor (settings: seq<Setting>, c: Cipher, former: CryptoKey, key: CryptoKey)
      ensures this.settings == settings && this.c == c && this.former == former && this.key == key && migrationToBeDone
    {
      this.settings, this.c, this.former, this.key, migrationToBeDone := settings, c, former, key, true;
    }

    /** Migrates and saves one setting, unless it already is; false when its decryption throws. */
    method MigrateSetting(i: nat, ivs: Vectors) returns (ok: bool)
      requires i < |settings|
      modifies `settings
      ensures ok <==> Migrated(c, former, key, ivs, old(settings)[i]).Some?
      ensures settings
        == if ok then old(settings)[i := Migrated(c, former, key, ivs, old(settings)[i]).value] else old(settings)
      ensures var s := old(settings)[i];
        s.sensitive == [] || (s.backup.Some? && s.backup.value != map[]) ==> ok && settings == old(settings)
    {
      if settings[i].sensitive == [] || Marked(settings[i]) {
        return true;
      }
      var setting := new Document(settings[i]);
      setting.PrepareBackup();
      ok := setting.DecryptSensitiveData(c, former);
      if ok {
        setting.EncryptSensitiveData(c, key, ivs);
        settings := settings[i := setting.Value()];
      }
    }

    /** Migrates the settings one by one, until all are done, one throws, or the process is cut off. */
    method MigrateSettings(ivs: nat -> Vectors, cut: nat) returns (outcome: Outcome, ghost works: seq<Work>)
      modifies `settings
      ensures MigrateRun(c, former, key, old(settings), works) == Some(settings)
      ensures AllFresh(old(settings)) ==> AllRecoverable(old(settings), settings)
      ensures |works| <= |settings| == |old(settings)| && forall j :: 0 <= j < |works| ==> works[j] == Work(j, ivs(j))
      ensures outcome.Done? ==> |works| == |settings|
      ensures outcome.CutOff? ==> |works| == cut < |settings|
      ensures outcome.Failed? ==>
        |works| < |settings| && Migrated(c, former, key, ivs(|works|), settings[|works|]).None?
      ensures !outcome.Busy?
    {
      outcome, works := MigrateEach(ivs, cut);
      if AllFresh(old(settings)) {
        RunIsRecoverable(c, former, key, old(settings), works);
      }
    }

    /** The loop. */
    method MigrateEach(ivs: nat -> Vectors, cut: nat) returns (outcome: Outcome, ghost works: seq<Work>)
      modifies `settings
      ensures MigrateRun(c, former, key, old(settings), works) == Some(settings)
      ensures |works| <= |settings| == |old(settings)| && forall j :: 0 <= j < |works| ==> works[j] == Work(j, ivs(j))
      ensures outcome.Done? ==> |works| == |settings|
      ensures outcome.CutOff? ==> |works| == cut < |settings|
      ensures outcome.Failed? ==>
        |works| < |settings| && Migrated(c, former, key, ivs(|works|), settings[|works|]).None?
      ensures !outcome.Busy?
    {
      works := [];
      for i := 0 to |settings|
        invariant MigrateRun(c, former, key, old(settings), works) == Some(settings)
        invariant |settings| == |old(settings)| && |works| == i
        invariant forall j :: 0 <= j < i ==> works[j] == Work(j, ivs(j))
      {
        if i == cut {
          return CutOff, works;
        }
        var ok := MigrateSetting(i, ivs(i));
        if !ok {
          return Failed, works;
        }
        ghost var before := works;
        works := before + [Work(i, ivs(i))];
        assert works[..i] == before;
      }
      return Done, works;
    }

    method CleanupBackupSensitiveData()
      modifies `settings
      ensures settings == CleanAll(old(settings))
      ensures |settings| == |old(settings)| && forall i :: 0 <= i < |settings| ==>
        && settings[i].id == old(settings)[i].id && settings[i].data == old(settings)[i].data
        && settings[i].sensitive == old(settings)[i].sensitive
        && settings[i].backup == if settings[i].sensitive == [] then old(settings)[i].backup else None
    {
      for i := 0 to |settings|
        invariant |settings| == |old(settings)|
        invariant forall j :: 0 <= j < |settings| ==>
          settings[j] == if j < i then Cleaned(old(settings)[j]) else old(settings)[j]
      {
        if settings[i].sensitive != [] && settings[i].backup.Some? {
          settings := settings[i := settings[i].(backup := None)];
        }
      }
    }

    /** The whole rotation, on settings in any state. Without the lock it changes nothing. Otherwise it is a migration
        run and, when that throws nowhere, the cleanup and the clearing of the flag.
        On settings that any interrupted migrations of originals have left, it completes their rotation.
        For any cipher it throws exactly when the former key cannot read some unmarked setting, and otherwise leaves in
        each unmarked setting what the former key reads there. So on settings that are under the new key, some of them
        cleaned up already, it succeeds and leaves all documents as they are if and only if the former key reads every
        unmarked one as the new key does; when the former key refuses what the new one can read, that is, if and only
        if none with a sensitive text has lost its backup. */
    method HandleCryptoSettingsChange(lockFree: bool, ivs: nat -> Vectors)
      returns (outcome: Outcome, ghost works: seq<Work>)
      requires forall i :: Fit(ivs(i), key)
      modifies this
      ensures if lockFree then outcome.Done? || outcome.Failed? else outcome.Busy?
      ensures !outcome.Done? ==> migrationToBeDone == old(migrationToBeDone)
      ensures outcome.Busy? ==> settings == old(settings)
      ensures outcome.Failed? ==> Ended(ivs, old(settings), works, settings, outcome)
      ensures outcome.Done? ==> |works| == |settings| && forall j :: 0 <= j < |works| ==> works[j] == Work(j, ivs(j))
      ensures outcome.Done? ==> MigrateRun(c, former, key, old(settings), works).Some?
      ensures outcome.Done? ==> !migrationToBeDone
      ensures outcome.Done? ==> settings == CleanAll(MigrateRun(c, former, key, old(settings), works).value)
      ensures forall originals :: lockFree && LeftBy(originals, old(settings)) ==>
        outcome.Done? && Rotated(c, former, key, originals, settings)
      ensures lockFree && Lawful(c) && AllDistinct(old(settings)) ==>
        && (outcome.Done? <==> NoneUnreadable(c, former, old(settings)))
        && (outcome.Done? ==> AllReread(c, former, key, old(settings), settings))
      ensures lockFree && Lawful(c) && AllUnderNewKey(old(settings)) ==>
        (outcome.Done? && SamePlains(c, key, old(settings), settings) <==> NoneMisread(c, former, key, old(settings)))
      ensures lockFree && Separate(c, former, key) && AllUnderNewKey(old(settings)) ==>
        && (outcome.Done? <==> NoTextUnmarked(old(settings)))
        && (outcome.Done? ==> SameData(old(settings), settings))
    {
      works := [];
      if !lockFree {
        return Busy, works;
      }
      outcome, works := MigrateSettings(ivs, |settings|);
      forall originals | LeftBy(originals, old(settings))
        ensures outcome.Done? && Rotated(c, former, key, originals, CleanAll(settings))
      {
        UnderwayIsDone(ivs, originals, old(settings), works, outcome);
      }
      if Lawful(c) && AllDistinct(old(settings)) {
        RerunIsReread(ivs, old(settings), works, outcome);
      }
      if Lawful(c) && AllUnderNewKey(old(settings)) {
        RerunKeepsDocumentsExactlyWhen(ivs, old(settings), works, outcome);
      }
      if Separate(c, former, key) && AllUnderNewKey(old(settings)) {
        RerunIsDoneExactlyWhen(ivs, old(settings), works, outcome);
      }
      if outcome.Done? {
        CleanupBackupSensitiveData();
        migrationToBeDone := false;
      }
    }

    /** What interrupted migrations of some original settings can leave. */
    ghost predicate LeftBy(originals: seq<Setting>, db: seq<Setting>) {
      Lawful(c) && AllOriginal(c, former, originals) && AllUnderway(c, former, key, originals, db)
    }

    ghost predicate AllUnderNewKey(db: seq<Setting>) {
      forall i :: 0 <= i < |db| ==> UnderNewKey(c, key, db[i])
    }

    ghost predicate NoTextUnmarked(db: seq<Setting>) {
      forall i :: 0 <= i < |db| ==> Marked(db[i]) || !HasText(db[i])
    }

    predicate SameData(before: seq<Setting>, after: seq<Setting>) {
      |after| == |before| && forall i :: 0 <= i < |before| ==> after[i].data == before[i].data
    }

    /** How the migration loop ended. */
    ghost predicate Ended(ivs: nat -> Vectors, before: seq<Setting>, works: seq<Work>, after: seq<Setting>,
        outcome: Outcome) {
      && MigrateRun(c, former, key, before, works) == Some(after) && |works| <= |after| == |before|
      && (forall j :: 0 <= j < |works| ==> works[j] == Work(j, ivs(j)))
      && (outcome.Done? ==> |works| == |after|)
      && (outcome.Failed? ==> |works| < |after| && Migrated(c, former, key, ivs(|works|), after[|works|]).None?)
      && (outcome.Done? || outcome.Failed?)
    }

    lemma UnderwayIsDone(ivs: nat -> Vectors, originals: seq<Setting>, before: seq<Setting>, works: seq<Work>,
        outcome: Outcome)
      requires LeftBy(originals, before) && forall i :: Fit(ivs(i), key)
      requires Ended(ivs, before, works, settings, outcome)
      ensures outcome.Done? && Rotated(c, former, key, originals, CleanAll(settings))
    {
      forall w | w in works ensures Fit(w.ivs, key) {
      }
      RunSwitches(c, former, key, originals, before, works);
      if outcome.Done? {
        forall i: nat | i < |settings| ensures Covers(works, i) {
          assert works[i] in works;
        }
      } else {
        MigratedSwitches(c, former, key, ivs(|works|), originals[|works|], settings[|works|]);
      }
    }

    /** What the loop and the cleanup make of settings in any state, for any cipher. */
    lemma RerunIsReread(ivs: nat -> Vectors, before: seq<Setting>, works: seq<Work>, outcome: Outcome)
      requires Lawful(c) && AllDistinct(before) && forall i :: Fit(ivs(i), key)
      requires Ended(ivs, before, works, settings, outcome)
      ensures outcome.Done? <==> NoneUnreadable(c, former, before)
      ensures outcome.Done? ==> AllReread(c, former, key, before, CleanAll(settings))
    {
      forall w | w in works ensures Fit(w.ivs, key) {
      }
      if outcome.Done? {
        forall i: nat | i < |before| ensures Covers(works, i) {
          assert works[i] in works;
        }
        RerunThrowsExactlyWhen(c, former, key, before, works);
        RerunRereads(c, former, key, before, works);
      } else {
        var k := |works|;
        RunRevisits(c, former, key, before, works);
        assert Revisited(c, former, key, before[k], settings[k]) && Distinct(before[k].sensitive);
        RevisitOnce(c, former, key, ivs(k), before[k], settings[k]);
      }
    }

    lemma RerunKeepsDocumentsExactlyWhen(ivs: nat -> Vectors, before: seq<Setting>, works: seq<Work>, outcome: Outcome)
      requires Lawful(c) && AllUnderNewKey(before) && forall i :: Fit(ivs(i), key)
      requires Ended(ivs, before, works, settings, outcome)
      ensures outcome.Done? && SamePlains(c, key, before, CleanAll(settings)) <==> NoneMisread(c, former, key, before)
    {
      assert AllDistinct(before) by {
        forall i | 0 <= i < |before| ensures Distinct(before[i].sensitive) {
          assert UnderNewKey(c, key, before[i]);
        }
      }
      RerunIsReread(ivs, before, works, outcome);
      forall i | 0 <= i < |before| ensures Plain(c, key, before[i]).Some? {
        assert UnderNewKey(c, key, before[i]);
      }
    }

    lemma RerunIsDoneExactlyWhen(ivs: nat -> Vectors, before: seq<Setting>, works: seq<Work>, outcome: Outcome)
      requires Separate(c, former, key) && AllUnderNewKey(before) && Ended(ivs, before, works, settings, outcome)
      ensures outcome.Done? <==> NoTextUnmarked(before)
      ensures outcome.Done? ==> SameData(before, CleanAll(settings))
    {
      if outcome.Done? {
        forall i: nat | i < |before| ensures Covers(works, i) {
          assert works[i] in works;
        }
        RerunSucceedsExactlyWhen(c, former, key, before, works);
      } else if NoTextUnmarked(before) {
        SafeNeverThrows(c, former, key, before, works, ivs(|works|), |works|);
      }
    }
  }
}
