/** Encryption and decryption of the sensitive properties of a document, in place and property by property. */
module SensitiveData {
  import opened Options
  import opened JsonDocument
  import opened CipherFraming

  /** The initialisation vectors drawn at random, one per property. */
  type Vectors = nat -> seq<Byte>

  ghost predicate Fit(ivs: Vectors, k: CryptoKey) {
    forall i: nat :: |ivs(i)| == IVLength(k.algo)
  }

  /** Encrypts one property; anything but a non-empty string is skipped. */
  function EncryptAt(c: Cipher, k: CryptoKey, iv: seq<Byte>, d: Json, p: Path): Json {
    match TextAt(d, p)
    case Some(x) => Set(d, p, Str(Encrypt(c, k, iv, x)))
    case None => d
  }

  /** Decrypts one property; None when the cipher throws. */
  function DecryptAt(c: Cipher, k: CryptoKey, d: Json, p: Path): Option<Json> {
    match TextAt(d, p)
    case None => Some(d)
    case Some(x) =>
      match Decrypt(c, k, x)
      case None => None
      case Some(y) => Some(Set(d, p, Str(y)))
  }

  /** The document after the first n properties, in order. */
  function Encrypted(c: Cipher, k: CryptoKey, ivs: Vectors, d: Json, paths: seq<Path>, n: nat): Json
    requires n <= |paths|
  {
    if n == 0 then d
    else EncryptAt(c, k, ivs(n - 1), Encrypted(c, k, ivs, d, paths, n - 1), paths[n - 1])
  }

  function Decrypted(c: Cipher, k: CryptoKey, d: Json, paths: seq<Path>, n: nat): Option<Json>
    requires n <= |paths|
  {
    if n == 0 then Some(d)
    else
      match Decrypted(c, k, d, paths, n - 1)
      case None => None
      case Some(e) => DecryptAt(c, k, e, paths[n - 1])
  }

  ghost predicate Distinct(paths: seq<Path>) {
    forall i, j :: 0 <= i < j < |paths| ==> paths[i] != paths[j]
  }

  lemma {:induction false} EncryptedElsewhere(c: Cipher, k: CryptoKey, ivs: Vectors, d: Json, paths: seq<Path>,
      n: nat, q: Path)
    requires n <= |paths| && q !in paths[..n]
    ensures TextAt(Encrypted(c, k, ivs, d, paths, n), q) == TextAt(d, q)
  {
    if n > 0 {
      assert paths[n - 1] == paths[..n][n - 1] && forall x :: x in paths[..n - 1] ==> x in paths[..n];
      EncryptedElsewhere(c, k, ivs, d, paths, n - 1, q);
      var e := Encrypted(c, k, ivs, d, paths, n - 1);
      if TextAt(e, paths[n - 1]).Some? {
        TextElsewhere(e, paths[n - 1], Encrypt(c, k, ivs(n - 1), TextAt(e, paths[n - 1]).value), q);
      }
    }
  }

  lemma {:induction false} DecryptedElsewhere(c: Cipher, k: CryptoKey, d: Json, paths: seq<Path>, n: nat, q: Path)
    requires n <= |paths| && q !in paths[..n] && Decrypted(c, k, d, paths, n).Some?
    ensures TextAt(Decrypted(c, k, d, paths, n).value, q) == TextAt(d, q)
  {
    if n > 0 {
      assert paths[n - 1] == paths[..n][n - 1] && forall x :: x in paths[..n - 1] ==> x in paths[..n];
      DecryptedElsewhere(c, k, d, paths, n - 1, q);
      var e := Decrypted(c, k, d, paths, n - 1).value;
      if TextAt(e, paths[n - 1]).Some? {
        TextElsewhere(e, paths[n - 1], Decrypt(c, k, TextAt(e, paths[n - 1]).value).value, q);
      }
    }
  }

  lemma {:induction false} StringsBefore(c: Cipher, k: CryptoKey, ivs: Vectors, d: Json, paths: seq<Path>, n: nat,
      q: Path)
    requires n <= |paths| && q !in paths[..n]
    ensures StringAt(Encrypted(c, k, ivs, d, paths, n), q) == StringAt(d, q)
    ensures Decrypted(c, k, d, paths, n).Some? ==> StringAt(Decrypted(c, k, d, paths, n).value, q) == StringAt(d, q)
  {
    if n > 0 {
      var p := paths[n - 1];
      assert p == paths[..n][n - 1] && forall x :: x in paths[..n - 1] ==> x in paths[..n];
      StringsBefore(c, k, ivs, d, paths, n - 1, q);
      var e := Encrypted(c, k, ivs, d, paths, n - 1);
      if TextAt(e, p).Some? {
        StringElsewhere(e, p, Encrypt(c, k, ivs(n - 1), TextAt(e, p).value), q);
      }
      if Decrypted(c, k, d, paths, n).Some? {
        var g := Decrypted(c, k, d, paths, n - 1).value;
        if TextAt(g, p).Some? {
          StringElsewhere(g, p, Decrypt(c, k, TextAt(g, p).value).value, q);
        }
      }
    }
  }

  lemma EncryptAtIs(c: Cipher, k: CryptoKey, iv: seq<Byte>, d: Json, p: Path, q: Path)
    ensures StringAt(EncryptAt(c, k, iv, d, p), p)
      == match StringAt(d, p)
         case None => None
         case Some(x) => Some(if x == "" then "" else Encrypt(c, k, iv, x))
    ensures p != q ==> StringAt(EncryptAt(c, k, iv, d, p), q) == StringAt(d, q)
  {
    if TextAt(d, p).Some? {
      var y := Encrypt(c, k, iv, TextAt(d, p).value);
      GetSet(d, p, Str(y));
      if p != q {
        StringElsewhere(d, p, y, q);
      }
    }
  }

  /** Each non-empty string at a listed path is encrypted under the key, with the vector of its own, and anything else
      there is left as it is. */
  lemma {:induction false} EncryptedIs(c: Cipher, k: CryptoKey, ivs: Vectors, d: Json, paths: seq<Path>, n: nat, i: nat)
    requires Distinct(paths) && i < n <= |paths|
    ensures StringAt(Encrypted(c, k, ivs, d, paths, n), paths[i])
      == match StringAt(d, paths[i])
         case None => None
         case Some(x) => Some(if x == "" then "" else Encrypt(c, k, ivs(i), x))
  {
    EncryptAtIs(c, k, ivs(n - 1), Encrypted(c, k, ivs, d, paths, n - 1), paths[n - 1], paths[i]);
    if i < n - 1 {
      EncryptedIs(c, k, ivs, d, paths, n - 1, i);
    } else {
      StringsBefore(c, k, ivs, d, paths, i, paths[i]);
    }
  }

  /** Each non-empty string at a listed path is decrypted under the key, and anything else there is left as it is. */
  lemma {:induction false} DecryptedIs(c: Cipher, k: CryptoKey, d: Json, paths: seq<Path>, n: nat, i: nat)
    requires Distinct(paths) && i < n <= |paths| && Decrypted(c, k, d, paths, n).Some?
    ensures StringAt(Decrypted(c, k, d, paths, n).value, paths[i])
      == match StringAt(d, paths[i])
         case None => None
         case Some(x) => if x == "" then Some("") else Decrypt(c, k, x)
  {
    var none: Vectors := i => [];
    var e := Decrypted(c, k, d, paths, n - 1).value;
    if i < n - 1 {
      DecryptedIs(c, k, d, paths, n - 1, i);
      if TextAt(e, paths[n - 1]).Some? {
        StringElsewhere(e, paths[n - 1], Decrypt(c, k, TextAt(e, paths[n - 1]).value).value, paths[i]);
      }
    } else {
      StringsBefore(c, k, none, d, paths, i, paths[i]);
      if TextAt(e, paths[i]).Some? {
        GetSet(e, paths[i], Str(Decrypt(c, k, TextAt(e, paths[i]).value).value));
      }
    }
  }

  /** Decrypting a document throws exactly when some non-empty string at a listed path cannot be decrypted. */
  lemma {:induction false} DecryptsExactlyWhen(c: Cipher, k: CryptoKey, d: Json, paths: seq<Path>, n: nat)
    requires Distinct(paths) && n <= |paths|
    ensures Decrypted(c, k, d, paths, n).Some? <==>
      forall i :: 0 <= i < n && StringAt(d, paths[i]).Some? && StringAt(d, paths[i]).value != "" ==>
        Decrypt(c, k, StringAt(d, paths[i]).value).Some?
  {
    if n > 0 {
      var none: Vectors := i => [];
      DecryptsExactlyWhen(c, k, d, paths, n - 1);
      StringsBefore(c, k, none, d, paths, n - 1, paths[n - 1]);
    }
  }

  /** Replacing the text at a path that is not decrypted can as well be done after decrypting. */
  lemma {:induction false} DecryptedPassesBy(c: Cipher, k: CryptoKey, d: Json, paths: seq<Path>, n: nat, p: Path,
      x: string)
    requires n <= |paths| && p !in paths[..n] && TextAt(d, p).Some? && x != ""
    requires Decrypted(c, k, d, paths, n).Some?
    ensures Decrypted(c, k, Set(d, p, Str(x)), paths, n) == Some(Set(Decrypted(c, k, d, paths, n).value, p, Str(x)))
  {
    if n > 0 {
      var q := paths[n - 1];
      assert q == paths[..n][n - 1] && forall y :: y in paths[..n - 1] ==> y in paths[..n];
      DecryptedPassesBy(c, k, d, paths, n - 1, p, x);
      DecryptedElsewhere(c, k, d, paths, n - 1, p);
      var e := Decrypted(c, k, d, paths, n - 1).value;
      TextElsewhere(e, p, x, q);
      if TextAt(e, q).Some? {
        SetsCommute(e, p, x, q, Decrypt(c, k, TextAt(e, q).value).value);
      }
    }
  }

  /** Decrypting one property undoes its encryption. */
  lemma DecryptAtUndoes(c: Cipher, k: CryptoKey, iv: seq<Byte>, d: Json, p: Path, x: string)
    requires Lawful(c) && |iv| == IVLength(k.algo) && TextAt(d, p) == Some(x)
    ensures DecryptAt(c, k, Set(d, p, Str(Encrypt(c, k, iv, x))), p) == Some(d)
  {
    var y := Encrypt(c, k, iv, x);
    DecryptEncrypt(c, k, iv, x);
    GetSet(d, p, Str(y));
    SetSet(d, p, Str(y), Str(x));
    SetGet(d, p);
  }

  /** Decrypting undoes encrypting on every document: nested, missing, empty and non-string properties
      included, and whether or not one sensitive path runs through another. */
  lemma {:induction false} DecryptUndoesEncrypt(c: Cipher, k: CryptoKey, ivs: Vectors, d: Json, paths: seq<Path>,
      n: nat)
    requires Lawful(c) && Fit(ivs, k) && Distinct(paths) && n <= |paths|
    ensures Decrypted(c, k, Encrypted(c, k, ivs, d, paths, n), paths, n) == Some(d)
  {
    if n > 0 {
      var p, e := paths[n - 1], Encrypted(c, k, ivs, d, paths, n - 1);
      DecryptUndoesEncrypt(c, k, ivs, d, paths, n - 1);
      EncryptedElsewhere(c, k, ivs, d, paths, n - 1, p);
      match TextAt(e, p) {
        case None =>
        case Some(x) =>
          var y := Encrypt(c, k, ivs(n - 1), x);
          DecryptEncrypt(c, k, ivs(n - 1), x);
          DecryptedPassesBy(c, k, e, paths, n - 1, p, y);
          DecryptAtUndoes(c, k, ivs(n - 1), d, p, x);
      }
    }
  }

  /** With no text to encrypt, neither operation changes anything. */
  lemma {:induction false} NothingToDo(c: Cipher, k: CryptoKey, ivs: Vectors, d: Json, paths: seq<Path>, n: nat)
    requires n <= |paths| && forall p :: p in paths ==> TextAt(d, p).None?
    ensures Encrypted(c, k, ivs, d, paths, n) == d && Decrypted(c, k, d, paths, n) == Some(d)
  {
    if n > 0 {
      NothingToDo(c, k, ivs, d, paths, n - 1);
    }
  }
}
