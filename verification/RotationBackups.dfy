/**
 What the copies of former values that the key rotation keeps are good for: at any moment of the migration, putting
 them back in their places gives the original document.
*/
module RotationBackups {
  import opened Options
  import opened JsonDocument
  import opened CipherFraming
  import opened SensitiveData
  import opened KeyRotation

  /** The copies are those of the non-empty strings at the sensitive paths, and of nothing else. */
  ghost predicate HoldsTexts(backup: map<Path, string>, d: Json, paths: seq<Path>) {
    && (forall p :: p in backup <==> p in paths && StringAt(d, p).Some? && StringAt(d, p).value != "")
    && forall p :: p in backup ==> StringAt(d, p) == Some(backup[p])
  }

  /** A document with the copies put back at the first n paths. */
  function Restored(d: Json, paths: seq<Path>, backup: map<Path, string>, n: nat): Json
    requires n <= |paths|
  {
    if n == 0 then d
    else
      var e := Restored(d, paths, backup, n - 1);
      if paths[n - 1] in backup then Set(e, paths[n - 1], Str(backup[paths[n - 1]])) else e
  }

  ghost predicate AllStrings(backup: map<Path, string>, d: Json) {
    forall p :: p in backup ==> StringAt(d, p).Some?
  }

  lemma StringStays(d: Json, p: Path, v: string, q: Path)
    requires StringAt(d, p).Some?
    ensures StringAt(Set(d, p, Str(v)), q).Some? <==> StringAt(d, q).Some?
  {
    if p == q {
      GetSet(d, p, Str(v));
    } else {
      StringElsewhere(d, p, v, q);
    }
  }

  lemma {:induction false} RestoredHasString(d: Json, paths: seq<Path>, backup: map<Path, string>, n: nat, q: Path)
    requires n <= |paths| && AllStrings(backup, d)
    ensures StringAt(Restored(d, paths, backup, n), q).Some? <==> StringAt(d, q).Some?
  {
    if n > 0 {
      RestoredHasString(d, paths, backup, n - 1, q);
      if paths[n - 1] in backup {
        RestoredHasString(d, paths, backup, n - 1, paths[n - 1]);
        StringStays(Restored(d, paths, backup, n - 1), paths[n - 1], backup[paths[n - 1]], q);
      }
    }
  }

  /** A string at a path that is not put back can as well be replaced afterwards. */
  lemma {:induction false} RestoredPassesBy(d: Json, p: Path, v: string, paths: seq<Path>, backup: map<Path, string>,
      n: nat)
    requires n <= |paths| && p !in paths[..n] && StringAt(d, p).Some? && AllStrings(backup, d)
    ensures Restored(Set(d, p, Str(v)), paths, backup, n) == Set(Restored(d, paths, backup, n), p, Str(v))
  {
    if n > 0 {
      var q, e := paths[n - 1], Restored(d, paths, backup, n - 1);
      assert q == paths[..n][n - 1] && forall x :: x in paths[..n - 1] ==> x in paths[..n];
      RestoredPassesBy(d, p, v, paths, backup, n - 1);
      if q in backup {
        RestoredHasString(d, paths, backup, n - 1, p);
        RestoredHasString(d, paths, backup, n - 1, q);
        SetsCommute(e, p, v, q, backup[q]);
      }
    }
  }

  /** What was written over a string of which there is a copy makes no difference. */
  lemma {:induction false} RestoredForgets(d: Json, p: Path, v: string, paths: seq<Path>, backup: map<Path, string>,
      n: nat)
    requires n <= |paths| && Distinct(paths) && p in paths[..n] && p in backup && AllStrings(backup, d)
    ensures Restored(Set(d, p, Str(v)), paths, backup, n) == Restored(d, paths, backup, n)
  {
    var q := paths[n - 1];
    if p == q {
      assert p !in paths[..n - 1];
      RestoredPassesBy(d, p, v, paths, backup, n - 1);
      RestoredHasString(d, paths, backup, n - 1, p);
      SetSet(Restored(d, paths, backup, n - 1), p, Str(v), Str(backup[p]));
    } else {
      assert p in paths[..n - 1];
      RestoredForgets(d, p, v, paths, backup, n - 1);
    }
  }

  /** What has been done to a document can be undone with the copies, and has made no text where there was none. */
  ghost predicate Undoable(d: Json, e: Json, paths: seq<Path>, backup: map<Path, string>) {
    && Restored(e, paths, backup, |paths|) == Restored(d, paths, backup, |paths|) && AllStrings(backup, e)
    && forall p :: p in paths && TextAt(e, p).Some? ==> p in backup
  }

  /** Replacing one listed text of which there is a copy. */
  lemma SetIsUndoable(d: Json, e: Json, p: Path, v: string, paths: seq<Path>, backup: map<Path, string>)
    requires Distinct(paths) && Undoable(d, e, paths, backup) && p in paths && TextAt(e, p).Some?
    ensures Undoable(d, Set(e, p, Str(v)), paths, backup)
  {
    assert paths[..|paths|] == paths;
    RestoredForgets(e, p, v, paths, backup, |paths|);
    forall q | q in backup ensures StringAt(Set(e, p, Str(v)), q).Some? {
      StringStays(e, p, v, q);
    }
    forall q | q in paths && TextAt(Set(e, p, Str(v)), q).Some? ensures q in backup {
      if q != p {
        TextElsewhere(e, p, v, q);
      }
    }
  }

  lemma {:induction false} DecryptedIsUndoable(c: Cipher, k: CryptoKey, d: Json, paths: seq<Path>,
      backup: map<Path, string>, n: nat)
    requires Distinct(paths) && Undoable(d, d, paths, backup) && n <= |paths| && Decrypted(c, k, d, paths, n).Some?
    ensures Undoable(d, Decrypted(c, k, d, paths, n).value, paths, backup)
  {
    if n > 0 {
      DecryptedIsUndoable(c, k, d, paths, backup, n - 1);
      var e := Decrypted(c, k, d, paths, n - 1).value;
      if TextAt(e, paths[n - 1]).Some? {
        SetIsUndoable(d, e, paths[n - 1], Decrypt(c, k, TextAt(e, paths[n - 1]).value).value, paths, backup);
      }
    }
  }

  lemma {:induction false} EncryptedIsUndoable(c: Cipher, k: CryptoKey, ivs: Vectors, d: Json, e: Json,
      paths: seq<Path>, backup: map<Path, string>, n: nat)
    requires Distinct(paths) && Undoable(d, e, paths, backup) && n <= |paths|
    ensures Undoable(d, Encrypted(c, k, ivs, e, paths, n), paths, backup)
  {
    if n > 0 {
      EncryptedIsUndoable(c, k, ivs, d, e, paths, backup, n - 1);
      var f := Encrypted(c, k, ivs, e, paths, n - 1);
      if TextAt(f, paths[n - 1]).Some? {
        SetIsUndoable(d, f, paths[n - 1], Encrypt(c, k, ivs(n - 1), TextAt(f, paths[n - 1]).value), paths, backup);
      }
    }
  }

  /** Putting back what is there already changes nothing. */
  lemma {:induction false} RestoredSame(d: Json, paths: seq<Path>, backup: map<Path, string>, n: nat)
    requires n <= |paths| && forall p :: p in backup ==> StringAt(d, p) == Some(backup[p])
    ensures Restored(d, paths, backup, n) == d
  {
    if n > 0 {
      RestoredSame(d, paths, backup, n - 1);
      if paths[n - 1] in backup {
        SetGet(d, paths[n - 1]);
      }
    }
  }

  /** A setting from which the original can be had: it is still that, or its copies are those of the original's texts,
      and putting them back gives the original document. */
  ghost predicate Recoverable(s0: Setting, s: Setting) {
    || s == s0
    || (&& s.id == s0.id && s.sensitive == s0.sensitive && s.backup.Some?
        && HoldsTexts(s.backup.value, s0.data, s0.sensitive)
        && Restored(s.data, s.sensitive, s.backup.value, |s.sensitive|) == s0.data)
  }

  /** What a migration makes of an unmarked setting: its backup holds exactly the former texts, and putting them back
      gives the former document, whatever the cipher made of it. */
  lemma MigratedIsRecoverable(c: Cipher, former: CryptoKey, key: CryptoKey, ivs: Vectors, s0: Setting)
    requires Distinct(s0.sensitive) && s0.sensitive != [] && (s0.backup.None? || s0.backup.value == map[])
    requires Migrated(c, former, key, ivs, s0).Some?
    ensures var s := Migrated(c, former, key, ivs, s0).value;
      && s.id == s0.id && s.sensitive == s0.sensitive && s.backup.Some?
      && HoldsTexts(s.backup.value, s0.data, s0.sensitive)
      && Restored(s.data, s.sensitive, s.backup.value, |s.sensitive|) == s0.data
  {
    var s := Migrated(c, former, key, ivs, s0).value;
    var n, backup := |s0.sensitive|, s.backup.value;
    DecryptedIsUndoable(c, former, s0.data, s0.sensitive, backup, n);
    EncryptedIsUndoable(c, key, ivs, s0.data, Plain(c, former, s0).value, s0.sensitive, backup, n);
    RestoredSame(s0.data, s0.sensitive, backup, n);
  }

  /** With no copies, there is nothing to put back. */
  lemma {:induction false} RestoredNothing(d: Json, paths: seq<Path>, n: nat)
    requires n <= |paths|
    ensures Restored(d, paths, map[], n) == d
  {
    if n > 0 {
      RestoredNothing(d, paths, n - 1);
    }
  }

  lemma MigratedStaysRecoverable(c: Cipher, former: CryptoKey, key: CryptoKey, ivs: Vectors, s0: Setting, s: Setting)
    requires Distinct(s0.sensitive) && (s0.backup.None? || s0.backup.value == map[]) && Recoverable(s0, s)
    requires Migrated(c, former, key, ivs, s).Some?
    ensures Recoverable(s0, Migrated(c, former, key, ivs, s).value)
  {
    if s.sensitive != [] && !Marked(s) {
      if s != s0 {
        RestoredNothing(s.data, s.sensitive, |s.sensitive|);
        assert s.data == s0.data;
      }
      MigratedIsRecoverable(c, former, key, ivs, s);
    }
  }

  ghost predicate AllFresh(db: seq<Setting>) {
    forall i :: 0 <= i < |db| ==> Distinct(db[i].sensitive) && (db[i].backup.None? || db[i].backup.value == map[])
  }

  ghost predicate AllRecoverable(db0: seq<Setting>, db: seq<Setting>) {
    |db| == |db0| && forall i :: 0 <= i < |db| ==> Recoverable(db0[i], db[i])
  }

  /** From settings without backups, wherever migration work is cut off, and whatever the cipher: the original of every
      setting can be had from what is stored. */
  lemma {:induction false} RunIsRecoverable(c: Cipher, former: CryptoKey, key: CryptoKey, db0: seq<Setting>,
      works: seq<Work>)
    requires AllFresh(db0) && MigrateRun(c, former, key, db0, works).Some?
    ensures AllRecoverable(db0, MigrateRun(c, former, key, db0, works).value)
  {
    if works != [] {
      var w := works[|works| - 1];
      RunIsRecoverable(c, former, key, db0, works[..|works| - 1]);
      var d := MigrateRun(c, former, key, db0, works[..|works| - 1]).value;
      if w.i < |d| {
        MigratedStaysRecoverable(c, former, key, w.ivs, db0[w.i], d[w.i]);
      }
    }
  }
}
