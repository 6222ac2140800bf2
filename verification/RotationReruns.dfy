/**
 Running the key rotation again once its cleanup has begun: some settings under the new key have lost the mark that
 they are done. What a rerun then does, for any cipher; and what becomes of that when the former key refuses what
 the new key has written.
*/
module RotationReruns {
  import opened Options
  import opened JsonDocument
  import opened CipherFraming
  import opened SensitiveData
  import opened KeyRotation

  /** A setting after the migration, whether or not the cleanup has been at it. */
  ghost predicate UnderNewKey(c: Cipher, key: CryptoKey, s: Setting) {
    Distinct(s.sensitive) && Plain(c, key, s).Some?
  }

  /** A setting that a migration will work on. */
  predicate Unmarked(s: Setting) {
    s.sensitive != [] && !Marked(s)
  }

  /** The document that a rerun leaves in a setting under the new key: a marked one is left alone, an unmarked one is
      read under the former key. */
  function Reread(c: Cipher, former: CryptoKey, key: CryptoKey, s: Setting): Option<Json> {
    if Unmarked(s) then Plain(c, former, s) else Plain(c, key, s)
  }

  /** The migration of an unmarked setting succeeds exactly when the former key reads it, and leaves the document that
      the former key reads, be it the right one or not. */
  lemma UnmarkedIsReread(c: Cipher, former: CryptoKey, key: CryptoKey, ivs: Vectors, s: Setting)
    requires Lawful(c) && Fit(ivs, key) && Distinct(s.sensitive) && Unmarked(s)
    ensures Migrated(c, former, key, ivs, s).Some? <==> Plain(c, former, s).Some?
    ensures Migrated(c, former, key, ivs, s).Some? ==>
      var t := Migrated(c, former, key, ivs, s).value;
      && t.id == s.id && t.sensitive == s.sensitive && Plain(c, key, t) == Plain(c, former, s)
      && (Marked(t) || (Backup(s) == map[] && t.data == s.data))
  {
    if Plain(c, former, s).Some? {
      DecryptUndoesEncrypt(c, key, ivs, Plain(c, former, s).value, s.sensitive, |s.sensitive|);
      if Backup(s) == map[] {
        forall p | p in s.sensitive ensures TextAt(s.data, p).None? {
          UnmarkedHasNoText(s, p);
        }
        NothingToDo(c, former, ivs, s.data, s.sensitive, |s.sensitive|);
        NothingToDo(c, key, ivs, s.data, s.sensitive, |s.sensitive|);
      }
    }
  }

  /** A setting in the course of a rerun: as it was, or reread. */
  ghost predicate Revisited(c: Cipher, former: CryptoKey, key: CryptoKey, s0: Setting, s: Setting) {
    s == s0 || RereadFrom(c, former, key, s0, s)
  }

  ghost predicate RereadFrom(c: Cipher, former: CryptoKey, key: CryptoKey, s0: Setting, s: Setting) {
    && Unmarked(s0) && s.id == s0.id && s.sensitive == s0.sensitive
    && Plain(c, key, s) == Plain(c, former, s0) && Plain(c, former, s0).Some?
    && (Marked(s) || (Backup(s0) == map[] && s.data == s0.data))
  }

  /** Migrating it once more throws exactly when it is as it was, unmarked, and unreadable under the former key. */
  lemma RevisitOnce(c: Cipher, former: CryptoKey, key: CryptoKey, ivs: Vectors, s0: Setting, s: Setting)
    requires Lawful(c) && Fit(ivs, key) && Distinct(s0.sensitive) && Revisited(c, former, key, s0, s)
    ensures Migrated(c, former, key, ivs, s).None? ==> Unmarked(s0) && Plain(c, former, s0).None?
    ensures Migrated(c, former, key, ivs, s).Some? ==>
      var t := Migrated(c, former, key, ivs, s).value;
      if Unmarked(s0) then RereadFrom(c, former, key, s0, t) else t == s0
  {
    if Unmarked(s) {
      UnmarkedIsReread(c, former, key, ivs, s);
      assert Plain(c, former, s) == Plain(c, former, s0) && Backup(s) == Backup(s0);
    }
  }

  ghost predicate AllDistinct(db: seq<Setting>) {
    forall i :: 0 <= i < |db| ==> Distinct(db[i].sensitive)
  }

  /** What migration work makes of settings, whatever their state and whatever the cipher: as long as it does not
      throw, each is as it was or reread, and those worked on are reread; and it throws only on an unmarked one that
      the former key cannot read. */
  lemma {:induction false} RunRevisits(c: Cipher, former: CryptoKey, key: CryptoKey, db: seq<Setting>, works: seq<Work>)
    requires Lawful(c) && AllDistinct(db) && AllFit(works, key)
    ensures var d := MigrateRun(c, former, key, db, works);
      d.Some? ==> |d.value| == |db| && forall i: nat :: i < |db| ==>
        && Revisited(c, former, key, db[i], d.value[i])
        && (Covers(works, i) && Unmarked(db[i]) ==> RereadFrom(c, former, key, db[i], d.value[i]))
    ensures MigrateRun(c, former, key, db, works).None? ==>
      exists i: nat :: i < |db| && Unmarked(db[i]) && Plain(c, former, db[i]).None?
  {
    if works != [] {
      var front, w := works[..|works| - 1], works[|works| - 1];
      RunRevisits(c, former, key, db, front);
      var before := MigrateRun(c, former, key, db, front);
      if before.Some? {
        if w.i < |db| {
          RevisitOnce(c, former, key, w.ivs, db[w.i], before.value[w.i]);
        }
        forall i: nat | i < |db| && i != w.i && Covers(works, i) ensures Covers(front, i) {
          var v :| v in works && v.i == i;
          assert v in front;
        }
      }
    }
  }

  ghost predicate NoneUnreadable(c: Cipher, former: CryptoKey, db: seq<Setting>) {
    forall i :: 0 <= i < |db| && Unmarked(db[i]) ==> Plain(c, former, db[i]).Some?
  }

  /** A complete rerun throws exactly when the former key cannot read some unmarked setting. */
  lemma RerunThrowsExactlyWhen(c: Cipher, former: CryptoKey, key: CryptoKey, db: seq<Setting>, complete: seq<Work>)
    requires Lawful(c) && AllDistinct(db) && AllFit(complete, key) && forall i: nat :: i < |db| ==> Covers(complete, i)
    ensures MigrateRun(c, former, key, db, complete).Some? <==> NoneUnreadable(c, former, db)
  {
    RunRevisits(c, former, key, db, complete);
  }

  ghost predicate AllReread(c: Cipher, former: CryptoKey, key: CryptoKey, before: seq<Setting>, after: seq<Setting>) {
    |after| == |before| && forall i :: 0 <= i < |before| ==>
      && after[i].id == before[i].id && after[i].sensitive == before[i].sensitive
      && Plain(c, key, after[i]) == Reread(c, former, key, before[i])
  }

  /** When it does not throw, every document is what Reread says: nothing tells the settings that were read right from
      those that were not. */
  lemma RerunRereads(c: Cipher, former: CryptoKey, key: CryptoKey, db: seq<Setting>, complete: seq<Work>)
    requires Lawful(c) && AllDistinct(db) && AllFit(complete, key) && forall i: nat :: i < |db| ==> Covers(complete, i)
    requires MigrateRun(c, former, key, db, complete).Some?
    ensures AllReread(c, former, key, db, MigrateRun(c, former, key, db, complete).value)
  {
    RunRevisits(c, former, key, db, complete);
    var d := MigrateRun(c, former, key, db, complete).value;
    forall i | 0 <= i < |db|
      ensures d[i].id == db[i].id && d[i].sensitive == db[i].sensitive
      ensures Plain(c, key, d[i]) == Reread(c, former, key, db[i])
    {
      assert Revisited(c, former, key, db[i], d[i]);
    }
  }

  ghost predicate SamePlains(c: Cipher, key: CryptoKey, before: seq<Setting>, after: seq<Setting>) {
    |after| == |before| && forall i :: 0 <= i < |before| ==> Plain(c, key, after[i]) == Plain(c, key, before[i])
  }

  ghost predicate NoneMisread(c: Cipher, former: CryptoKey, key: CryptoKey, db: seq<Setting>) {
    forall i :: 0 <= i < |db| && Unmarked(db[i]) ==> Plain(c, former, db[i]) == Plain(c, key, db[i])
  }

  /** The boundary of resumption, for any cipher: after the migration, with the cleanup cut off anywhere, a complete
      rerun succeeds and leaves every document as it is if and only if the former key reads every unmarked setting as
      the new key does. */
  lemma RerunKeepsExactlyWhen(c: Cipher, former: CryptoKey, key: CryptoKey, db: seq<Setting>, complete: seq<Work>)
    requires Lawful(c) && AllFit(complete, key) && forall i: nat :: i < |db| ==> Covers(complete, i)
    requires forall i :: 0 <= i < |db| ==> UnderNewKey(c, key, db[i])
    ensures var d := MigrateRun(c, former, key, db, complete);
      d.Some? && SamePlains(c, key, db, d.value) <==> NoneMisread(c, former, key, db)
  {
    assert AllDistinct(db) by {
      forall i | 0 <= i < |db| ensures Distinct(db[i].sensitive) {
        assert UnderNewKey(c, key, db[i]);
      }
    }
    RerunThrowsExactlyWhen(c, former, key, db, complete);
    if MigrateRun(c, former, key, db, complete).Some? {
      RerunRereads(c, former, key, db, complete);
    }
  }

  // An unmarked setting can indeed be misread: a lawful cipher that, like a stream cipher, never refuses.

  function EncodeChar(x: char): (r: seq<Byte>)
    ensures |r| == 3
  {
    var n := x as int;
    [n / 65536, n / 256 % 256, n % 256]
  }

  function DecodeChar(a: Byte, b: Byte, d: Byte): char {
    var n := a * 65536 + b * 256 + d;
    if n < 0xD800 || 0xE000 <= n < 0x11_0000 then n as char else ' '
  }

  function Encode(s: string): seq<Byte> {
    if s == "" then [] else EncodeChar(s[0]) + Encode(s[1..])
  }

  function Decode(bytes: seq<Byte>): string {
    if |bytes| < 3 then "" else [DecodeChar(bytes[0], bytes[1], bytes[2])] + Decode(bytes[3..])
  }

  lemma {:induction false} DecodeEncode(s: string)
    ensures Decode(Encode(s)) == s
  {
    if s != "" {
      DecodeEncode(s[1..]);
      assert Encode(s)[3..] == Encode(s[1..]);
    }
  }

  /** A cipher that writes the secret in front of the text, and reads by dropping as much as the secret is long. */
  function Prefixing(): Cipher {
    Cipher(
      (k: CryptoKey, iv: seq<Byte>, x: string) => (Encode(k.secret + x), []),
      (k: CryptoKey, sealed: Sealed) =>
        var t := Decode(sealed.data);
        if |k.secret| <= |t| then Some(t[|k.secret|..]) else Some(""))
  }

  lemma PrefixingIsLawful()
    ensures Lawful(Prefixing())
  {
    forall k: CryptoKey, iv: seq<Byte>, x: string
      ensures Prefixing().unseal(k, Sealed(iv, Prefixing().seal(k, iv, x).0,
        if IsAuthenticated(k.algo) then Some(Prefixing().seal(k, iv, x).1) else None)) == Some(x)
    {
      DecodeEncode(k.secret + x);
      assert (k.secret + x)[|k.secret|..] == x;
    }
  }

  /** With it, a former key that is shorter than the new one reads more than was written. */
  lemma PrefixingMisreads(algo: string, iv: seq<Byte>, x: string)
    requires |iv| == IVLength(algo)
    ensures var c, former, key := Prefixing(), CryptoKey("", algo), CryptoKey("k", algo);
      Decrypt(c, former, Encrypt(c, key, iv, x)) == Some("k" + x)
  {
    var c, key := Prefixing(), CryptoKey("k", algo);
    var (data, tag) := c.seal(key, iv, x);
    ParsePrint(Sealed(iv, data, if IsAuthenticated(algo) then Some(tag) else None));
    DecodeEncode("k" + x);
  }

  /** Silent loss: for every text there is a setting under the new key that has lost its mark, and whose migration
      throws nothing and leaves another text under the new key. */
  lemma TextCanBeLost(algo: string, iv: seq<Byte>, ivs: Vectors, x: string)
    returns (c: Cipher, former: CryptoKey, key: CryptoKey, s: Setting)
    requires |iv| == IVLength(algo) && x != "" && Fit(ivs, CryptoKey("k", algo))
    ensures Lawful(c) && UnderNewKey(c, key, s) && Unmarked(s) && Fit(ivs, key)
    ensures Plain(c, key, s) == Some(Obj(map[Name("p") := Str(x)]))
    ensures Migrated(c, former, key, ivs, s).Some?
    ensures Plain(c, key, Migrated(c, former, key, ivs, s).value) == Some(Obj(map[Name("p") := Str("k" + x)]))
  {
    c, former, key := Prefixing(), CryptoKey("", algo), CryptoKey("k", algo);
    PrefixingIsLawful();
    var path := [Name("p")];
    var y := Encrypt(c, key, iv, x);
    DecryptEncrypt(c, key, iv, x);
    PrefixingMisreads(algo, iv, x);
    s := Setting("s", Obj(map[Name("p") := Str(y)]), [path], None);
    OnePropertyPlain(c, key, y, x);
    OnePropertyPlain(c, former, y, "k" + x);
    UnmarkedIsReread(c, former, key, ivs, s);
  }

  lemma OnePropertyPlain(c: Cipher, k: CryptoKey, y: string, x: string)
    requires y != "" && Decrypt(c, k, y) == Some(x)
    ensures Decrypted(c, k, Obj(map[Name("p") := Str(y)]), [[Name("p")]], 1) == Some(Obj(map[Name("p") := Str(x)]))
  {
    var d, path := Obj(map[Name("p") := Str(y)]), [Name("p")];
    assert path[1..] == [];
    assert Get(d, path) == Get(Str(y), []) == Some(Str(y));
    assert Decrypted(c, k, d, [path], 0) == Some(d);
    assert d.fields[Name("p") := Str(x)] == map[Name("p") := Str(x)];
  }

  // The modes in which it cannot be misread, because the former key refuses.

  ghost predicate HasText(s: Setting) {
    exists p :: p in s.sensitive && TextAt(s.data, p).Some?
  }

  /** The former key refuses whatever the new key can read, as authenticated ciphers do. */
  ghost predicate Separate(c: Cipher, former: CryptoKey, key: CryptoKey) {
    forall x: string :: Decrypt(c, key, x).Some? ==> Decrypt(c, former, x).None?
  }

  lemma {:induction false} TextsReadable(c: Cipher, k: CryptoKey, d: Json, paths: seq<Path>, n: nat, p: Path)
    requires n <= |paths| && Distinct(paths) && p in paths[..n]
    requires Decrypted(c, k, d, paths, n).Some? && TextAt(d, p).Some?
    ensures Decrypt(c, k, TextAt(d, p).value).Some?
  {
    if p == paths[n - 1] {
      DecryptedElsewhere(c, k, d, paths, n - 1, p);
    } else {
      TextsReadable(c, k, d, paths, n - 1, p);
    }
  }

  lemma {:induction false} UnreadableFails(c: Cipher, k: CryptoKey, d: Json, paths: seq<Path>, n: nat, p: Path)
    requires n <= |paths| && p in paths[..n] && TextAt(d, p).Some?
    requires forall q :: q in paths && TextAt(d, q).Some? ==> Decrypt(c, k, TextAt(d, q).value).None?
    ensures Decrypted(c, k, d, paths, n).None?
  {
    if exists q :: q in paths[..n - 1] && TextAt(d, q).Some? {
      var q :| q in paths[..n - 1] && TextAt(d, q).Some?;
      UnreadableFails(c, k, d, paths, n - 1, q);
    } else {
      var none: Vectors := i => [];
      NothingToDo(c, k, none, d, paths[..n - 1], n - 1);
      DecryptedPrefix(c, k, d, paths, n - 1);
    }
  }

  lemma {:induction false} DecryptedPrefix(c: Cipher, k: CryptoKey, d: Json, paths: seq<Path>, n: nat)
    requires n <= |paths|
    ensures Decrypted(c, k, d, paths[..n], n) == Decrypted(c, k, d, paths, n)
    decreases n
  {
    if n > 0 {
      assert paths[..n][..n - 1] == paths[..n - 1];
      DecryptedPrefix(c, k, d, paths, n - 1);
      DecryptedPrefix(c, k, d, paths[..n], n - 1);
    }
  }

  /** A setting that is already under the new key but has lost its mark: the migration throws on it exactly
      when it holds a sensitive text; otherwise its document stays as it is. */
  lemma RerunOnUnmarked(c: Cipher, former: CryptoKey, key: CryptoKey, ivs: Vectors, s: Setting)
    requires Separate(c, former, key) && Distinct(s.sensitive) && !Marked(s) && Plain(c, key, s).Some?
    ensures Migrated(c, former, key, ivs, s).None? <==> HasText(s)
    ensures !HasText(s) ==> Migrated(c, former, key, ivs, s).value.data == s.data
    ensures !HasText(s) ==> !HasText(Migrated(c, former, key, ivs, s).value)
  {
    var n := |s.sensitive|;
    assert s.sensitive[..n] == s.sensitive;
    if HasText(s) {
      forall q | q in s.sensitive && TextAt(s.data, q).Some? ensures Decrypt(c, former, TextAt(s.data, q).value).None? {
        TextsReadable(c, key, s.data, s.sensitive, n, q);
      }
      var p :| p in s.sensitive && TextAt(s.data, p).Some?;
      UnreadableFails(c, former, s.data, s.sensitive, n, p);
    } else {
      NothingToDo(c, former, ivs, s.data, s.sensitive, n);
      NothingToDo(c, key, ivs, s.data, s.sensitive, n);
    }
  }

  lemma {:induction false} RunOnSafe(c: Cipher, former: CryptoKey, key: CryptoKey, db: seq<Setting>, works: seq<Work>)
    requires Separate(c, former, key) && forall i :: 0 <= i < |db| ==> UnderNewKey(c, key, db[i])
    requires forall i :: 0 <= i < |db| ==> Marked(db[i]) || !HasText(db[i])
    ensures MigrateRun(c, former, key, db, works).Some?
    ensures var d := MigrateRun(c, former, key, db, works).value;
      && |d| == |db|
      && forall i :: 0 <= i < |db| ==>
           && d[i].data == db[i].data && d[i].sensitive == db[i].sensitive && (Marked(d[i]) || !HasText(d[i]))
  {
    if works != [] {
      var w := works[|works| - 1];
      RunOnSafe(c, former, key, db, works[..|works| - 1]);
      var d := MigrateRun(c, former, key, db, works[..|works| - 1]).value;
      if w.i < |d| && !Marked(d[w.i]) {
        RerunOnUnmarked(c, former, key, w.ivs, d[w.i]);
      }
    }
  }

  lemma {:induction false} RunStuckAt(c: Cipher, former: CryptoKey, key: CryptoKey, db: seq<Setting>,
      works: seq<Work>, i: nat)
    requires Separate(c, former, key) && i < |db| && UnderNewKey(c, key, db[i]) && !Marked(db[i]) && HasText(db[i])
    ensures var d := MigrateRun(c, former, key, db, works);
      d.Some? ==> !Covers(works, i) && |d.value| == |db| && d.value[i] == db[i]
  {
    if works != [] {
      var front, w := works[..|works| - 1], works[|works| - 1];
      RunStuckAt(c, former, key, db, front, i);
      if MigrateRun(c, former, key, db, front).Some? && w.i == i {
        RerunOnUnmarked(c, former, key, w.ivs, db[i]);
      }
      forall v | v in works && v != w ensures v in front {
      }
    }
  }

  /** The boundary of resumption: after the migration, with the cleanup cut off anywhere, a complete rerun
      succeeds if and only if no setting with a sensitive text has lost its mark; and then it leaves every
      document as it is. */
  lemma RerunSucceedsExactlyWhen(c: Cipher, former: CryptoKey, key: CryptoKey, db: seq<Setting>, complete: seq<Work>)
    requires Separate(c, former, key) && forall i :: 0 <= i < |db| ==> UnderNewKey(c, key, db[i])
    requires forall i: nat :: i < |db| ==> Covers(complete, i)
    ensures MigrateRun(c, former, key, db, complete).Some?
      <==> forall i :: 0 <= i < |db| ==> Marked(db[i]) || !HasText(db[i])
    ensures MigrateRun(c, former, key, db, complete).Some? ==>
      var d := MigrateRun(c, former, key, db, complete).value;
      |d| == |db| && forall i :: 0 <= i < |db| ==> d[i].data == db[i].data
  {
    if forall i :: 0 <= i < |db| ==> Marked(db[i]) || !HasText(db[i]) {
      RunOnSafe(c, former, key, db, complete);
    } else {
      var i: nat :| i < |db| && !Marked(db[i]) && HasText(db[i]);
      RunStuckAt(c, former, key, db, complete, i);
    }
  }

  /** On settings of which none with a text has lost its mark, the migration of a setting does not throw at any
      point of a rerun. */
  lemma SafeNeverThrows(c: Cipher, former: CryptoKey, key: CryptoKey, db: seq<Setting>, works: seq<Work>,
      ivs: Vectors, i: nat)
    requires Separate(c, former, key) && forall j :: 0 <= j < |db| ==> UnderNewKey(c, key, db[j])
    requires forall j :: 0 <= j < |db| ==> Marked(db[j]) || !HasText(db[j])
    requires MigrateRun(c, former, key, db, works).Some? && i < |MigrateRun(c, former, key, db, works).value|
    ensures Migrated(c, former, key, ivs, MigrateRun(c, former, key, db, works).value[i]).Some?
  {
    RunOnSafe(c, former, key, db, works);
    var s := MigrateRun(c, former, key, db, works).value[i];
    if s.sensitive != [] && !Marked(s) {
      RerunOnUnmarked(c, former, key, ivs, s);
    }
  }
}
