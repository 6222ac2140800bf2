/**
 Rotation of a tenant's encryption key. Each setting is re-encrypted and saved on its own, with a copy of
 its former ciphertexts kept in it as a mark that it is done; when all are done the copies are removed.
 The batch may be cut off at any save and run again.
*/
module KeyRotation {
  import opened Options
  import opened JsonDocument
  import opened CipherFraming
  import opened SensitiveData

  /** A stored setting: its document, the sensitive paths in it, and the backup of their former values. */
  datatype Setting = Setting(id: string, data: Json, sensitive: seq<Path>, backup: Option<map<Path, string>>)

  /** A non-empty backup marks the setting as migrated. */
  predicate Marked(s: Setting) {
    s.backup.Some? && s.backup.value != map[]
  }

  function Backup(s: Setting): map<Path, string> {
    map p | p in s.sensitive && TextAt(s.data, p).Some? :: TextAt(s.data, p).value
  }

  /** What one setting becomes in a migration; None when its decryption throws. */
  function Migrated(c: Cipher, former: CryptoKey, key: CryptoKey, ivs: Vectors, s: Setting): Option<Setting> {
    if s.sensitive == [] || Marked(s) then Some(s)
    else
      match Decrypted(c, former, s.data, s.sensitive, |s.sensitive|)
      case None => None
      case Some(plain) =>
        Some(s.(backup := Some(Backup(s)), data := Encrypted(c, key, ivs, plain, s.sensitive, |s.sensitive|)))
  }

  /** What one setting becomes in the cleanup. */
  function Cleaned(s: Setting): Setting {
    if s.sensitive == [] then s else s.(backup := None)
  }

  /** The whole document with its sensitive values decrypted. */
  function Plain(c: Cipher, k: CryptoKey, s: Setting): Option<Json> {
    Decrypted(c, k, s.data, s.sensitive, |s.sensitive|)
  }

  /** A setting before the rotation: readable under the former key, and not marked. */
  ghost predicate Original(c: Cipher, former: CryptoKey, s: Setting) {
    && Plain(c, former, s).Some? && (s.backup.None? || s.backup.value == map[])
    && Distinct(s.sensitive) && (s.sensitive == [] ==> s.backup.None?)
  }

  /** A setting at any time during the migration of the original s0: still s0, or marked with its former
      values and readable under the new key as the same document. */
  ghost predicate Underway(c: Cipher, former: CryptoKey, key: CryptoKey, s0: Setting, s: Setting) {
    s == s0 || Switched(c, former, key, s0, s)
  }

  ghost predicate Switched(c: Cipher, former: CryptoKey, key: CryptoKey, s0: Setting, s: Setting) {
    && s.id == s0.id && s.sensitive == s0.sensitive
    && (s0.sensitive == [] ==> s == s0)
    && (s0.sensitive != [] ==> s.backup == Some(Backup(s0)))
    && Plain(c, key, s) == Plain(c, former, s0)
    && (!Marked(s) ==> s.data == s0.data)
  }

  lemma UnmarkedHasNoText(s: Setting, p: Path)
    requires Backup(s) == map[] && p in s.sensitive
    ensures TextAt(s.data, p).None?
  {
    assert TextAt(s.data, p).Some? ==> p in Backup(s);
  }

  /** Migrating a setting at any time makes it switched; it cannot fail. */
  lemma MigratedSwitches(c: Cipher, former: CryptoKey, key: CryptoKey, ivs: Vectors, s0: Setting, s: Setting)
    requires Lawful(c) && Fit(ivs, key) && Original(c, former, s0) && Underway(c, former, key, s0, s)
    ensures Migrated(c, former, key, ivs, s).Some?
    ensures Switched(c, former, key, s0, Migrated(c, former, key, ivs, s).value)
  {
    if s0.sensitive != [] && !Marked(s) {
      if Backup(s0) == map[] {
        forall p | p in s0.sensitive ensures TextAt(s0.data, p).None? {
          UnmarkedHasNoText(s0, p);
        }
        NothingToDo(c, former, ivs, s0.data, s0.sensitive, |s0.sensitive|);
        NothingToDo(c, key, ivs, s0.data, s0.sensitive, |s0.sensitive|);
      } else {
        assert s == s0;
        DecryptUndoesEncrypt(c, key, ivs, Plain(c, former, s0).value, s0.sensitive, |s0.sensitive|);
      }
    }
  }

  /** The migration of one setting, by position, with its random vectors. */
  datatype Work = Work(i: nat, ivs: Vectors)

  /** The stored settings after some pieces of work; None once one of them throws. */
  function MigrateRun(c: Cipher, former: CryptoKey, key: CryptoKey, db: seq<Setting>,
      works: seq<Work>): Option<seq<Setting>> {
    if works == [] then Some(db)
    else
      var w := works[|works| - 1];
      match MigrateRun(c, former, key, db, works[..|works| - 1])
      case None => None
      case Some(d) =>
        if w.i >= |d| then Some(d)
        else
          match Migrated(c, former, key, w.ivs, d[w.i])
          case None => None
          case Some(s) => Some(d[w.i := s])
  }

  function CleanAll(db: seq<Setting>): seq<Setting> {
    seq(|db|, i requires 0 <= i < |db| => Cleaned(db[i]))
  }

  ghost predicate AllOriginal(c: Cipher, former: CryptoKey, db: seq<Setting>) {
    forall i :: 0 <= i < |db| ==> Original(c, former, db[i])
  }

  ghost predicate AllUnderway(c: Cipher, former: CryptoKey, key: CryptoKey, db0: seq<Setting>, db: seq<Setting>) {
    |db| == |db0| && forall i :: 0 <= i < |db| ==> Underway(c, former, key, db0[i], db[i])
  }

  ghost predicate AllFit(works: seq<Work>, key: CryptoKey) {
    forall w :: w in works ==> Fit(w.ivs, key)
  }

  ghost predicate Covers(works: seq<Work>, i: nat) {
    exists w :: w in works && w.i == i
  }

  /** Work on settings under way never fails, keeps them under way, and switches every setting it covers. */
  lemma {:induction false} RunSwitches(c: Cipher, former: CryptoKey, key: CryptoKey, db0: seq<Setting>,
      db: seq<Setting>, works: seq<Work>)
    requires Lawful(c) && AllOriginal(c, former, db0) && AllUnderway(c, former, key, db0, db) && AllFit(works, key)
    ensures MigrateRun(c, former, key, db, works).Some?
    ensures AllUnderway(c, former, key, db0, MigrateRun(c, former, key, db, works).value)
    ensures forall i: nat :: i < |db0| && Covers(works, i) ==>
      Switched(c, former, key, db0[i], MigrateRun(c, former, key, db, works).value[i])
  {
    if works != [] {
      var front, w := works[..|works| - 1], works[|works| - 1];
      RunSwitches(c, former, key, db0, db, front);
      var d := MigrateRun(c, former, key, db, front).value;
      if w.i < |d| {
        MigratedSwitches(c, former, key, w.ivs, db0[w.i], d[w.i]);
      }
      forall i: nat | i < |db0| && Covers(works, i)
        ensures Switched(c, former, key, db0[i], MigrateRun(c, former, key, db, works).value[i])
      {
        if i != w.i {
          var v :| v in works && v.i == i;
          assert v in front;
        }
      }
    }
  }

  /** What the rotation is for: every setting's document, decrypted under the new key, is the very document
      it was under the former one, and no backup is left. */
  ghost predicate Rotated(c: Cipher, former: CryptoKey, key: CryptoKey, db0: seq<Setting>, db: seq<Setting>) {
    |db| == |db0| && forall i :: 0 <= i < |db| ==>
      && db[i].id == db0[i].id && db[i].sensitive == db0[i].sensitive && db[i].backup.None?
      && Plain(c, key, db[i]) == Plain(c, former, db0[i]) && Plain(c, key, db[i]).Some?
  }

  /** However often and wherever earlier runs were cut off while migrating, one complete run then succeeds
      and rotates every setting. */
  lemma ResumableRotation(c: Cipher, former: CryptoKey, key: CryptoKey, db0: seq<Setting>, interrupted: seq<Work>,
      complete: seq<Work>)
    requires Lawful(c) && AllOriginal(c, former, db0)
    requires AllFit(interrupted, key) && AllFit(complete, key) && forall i: nat :: i < |db0| ==> Covers(complete, i)
    ensures var before := MigrateRun(c, former, key, db0, interrupted);
      && before.Some?
      && var after := MigrateRun(c, former, key, before.value, complete);
         after.Some? && Rotated(c, former, key, db0, CleanAll(after.value))
  {
    RunSwitches(c, former, key, db0, db0, interrupted);
    var d := MigrateRun(c, former, key, db0, interrupted).value;
    RunSwitches(c, former, key, db0, d, complete);
  }
}
