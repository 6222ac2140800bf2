/** How ciphertexts are printed and parsed: `iv:data[:tag]`, each part in hexadecimal. */
module CipherFraming {
  import opened Options
  import opened Strings

  type Byte = b: int | 0 <= b < 256

  function HexDigit(n: int): char
    requires 0 <= n < 16
  {
    if n < 10 then '0' + n as char else 'a' + (n - 10) as char
  }

  function DigitValue(c: char): (d: Option<int>)
    ensures d.Some? ==> 0 <= d.value < 16
  {
    if '0' <= c <= '9' then Some(c as int - '0' as int)
    else if 'a' <= c <= 'f' then Some(c as int - 'a' as int + 10)
    else if 'A' <= c <= 'F' then Some(c as int - 'A' as int + 10)
    else None
  }

  function ToHex(bytes: seq<Byte>): string {
    if bytes == [] then "" else [HexDigit(bytes[0] / 16), HexDigit(bytes[0] % 16)] + ToHex(bytes[1..])
  }

  /** Decodes pairs of digits up to the first thing that is not one. */
  function FromHex(s: string): seq<Byte> {
    if |s| < 2 || DigitValue(s[0]).None? || DigitValue(s[1]).None? then []
    else
      var high, low := DigitValue(s[0]).value, DigitValue(s[1]).value;
      [high * 16 + low] + FromHex(s[2..])
  }

  datatype Sealed = Sealed(iv: seq<Byte>, data: seq<Byte>, tag: Option<seq<Byte>>)

  function Print(c: Sealed): string {
    ToHex(c.iv) + ":" + ToHex(c.data) + (if c.tag.Some? then ":" + ToHex(c.tag.value) else "")
  }

  /** None stands for the exception raised when there is no second part. Parts beyond the third are ignored. */
  function Parse(s: string): Option<Sealed> {
    var parts := Split(s, ':');
    if |parts| < 2 then None
    else Some(Sealed(FromHex(parts[0]), FromHex(parts[1]), if |parts| > 2 then Some(FromHex(parts[2])) else None))
  }

  lemma {:induction false} HexRoundTrip(bytes: seq<Byte>)
    ensures FromHex(ToHex(bytes)) == bytes
    ensures ':' !in ToHex(bytes)
  {
    if bytes != [] {
      HexRoundTrip(bytes[1..]);
      assert ToHex(bytes)[2..] == ToHex(bytes[1..]);
    }
  }

  lemma SplitTwo(a: string, b: string)
    requires ':' !in a && ':' !in b
    ensures Split(a + ":" + b, ':') == [a, b]
  {
    SplitPlain(b, ':');
    SplitAt(a, ':', b);
  }

  lemma SplitThree(a: string, b: string, c: string)
    requires ':' !in a && ':' !in b && ':' !in c
    ensures Split(a + ":" + b + (":" + c), ':') == [a, b, c]
  {
    SplitTwo(b, c);
    SplitAt(a, ':', b + ":" + c);
    assert a + ":" + b + (":" + c) == a + ":" + (b + ":" + c);
  }

  /** Parsing undoes printing, for all byte strings, with a tag or without one. */
  lemma ParsePrint(c: Sealed)
    ensures Parse(Print(c)) == Some(c)
    ensures Print(c) != ""
  {
    var a, b := ToHex(c.iv), ToHex(c.data);
    HexRoundTrip(c.iv);
    HexRoundTrip(c.data);
    if c.tag.Some? {
      HexRoundTrip(c.tag.value);
      SplitThree(a, b, ToHex(c.tag.value));
    } else {
      SplitTwo(a, b);
      assert a + ":" + b + "" == a + ":" + b;
    }
  }

  /** A cipher key with the name of its algorithm. */
  datatype CryptoKey = CryptoKey(secret: string, algo: string)

  predicate IsAuthenticated(algo: string) {
    || Contains(algo, "gcm") || Contains(algo, "ccm")
    || Contains(algo, "GCM") || Contains(algo, "CCM") || Contains(algo, "ocb")
  }

  function IVLength(algo: string): nat {
    if Contains(algo, "ccm") || Contains(algo, "ocb") then 13 else 16
  }

  /** The crypto library: `seal` gives data and authentication tag, `unseal` is None where it throws. */
  datatype Cipher = Cipher(
    seal: (CryptoKey, seq<Byte>, string) -> (seq<Byte>, seq<Byte>),
    unseal: (CryptoKey, Sealed) -> Option<string>)

  /** The one law assumed of it: what was sealed under a key and an initialisation vector of the right
      length is unsealed under the same key. */
  ghost predicate Lawful(c: Cipher) {
    forall k: CryptoKey, iv: seq<Byte>, x: string :: |iv| == IVLength(k.algo) ==>
      var (data, tag) := c.seal(k, iv, x);
      c.unseal(k, Sealed(iv, data, if IsAuthenticated(k.algo) then Some(tag) else None)) == Some(x)
  }

  function Encrypt(c: Cipher, k: CryptoKey, iv: seq<Byte>, x: string): string {
    var (data, tag) := c.seal(k, iv, x);
    Print(Sealed(iv, data, if IsAuthenticated(k.algo) then Some(tag) else None))
  }

  function Decrypt(c: Cipher, k: CryptoKey, s: string): Option<string> {
    match Parse(s)
    case None => None
    case Some(sealed) => c.unseal(k, sealed.(tag := if IsAuthenticated(k.algo) then sealed.tag else None))
  }

  lemma DecryptEncrypt(c: Cipher, k: CryptoKey, iv: seq<Byte>, x: string)
    requires Lawful(c) && |iv| == IVLength(k.algo)
    ensures Decrypt(c, k, Encrypt(c, k, iv, x)) == Some(x)
    ensures Encrypt(c, k, iv, x) != ""
  {
    var (data, tag) := c.seal(k, iv, x);
    ParsePrint(Sealed(iv, data, if IsAuthenticated(k.algo) then Some(tag) else None));
  }

  lemma DigitIs(n: int)
    requires 0 <= n < 16
    ensures HexDigit(n) == "0123456789abcdef"[n]
    ensures DigitValue(HexDigit(n)) == Some(n) == DigitValue(UpperChar(HexDigit(n)))
  {
  }

  /** Each byte is printed as its two hexadecimal digits, the higher one first. */
  lemma {:induction false} HexIs(bytes: seq<Byte>, i: nat)
    requires i < |bytes|
    ensures |ToHex(bytes)| == 2 * |bytes|
    ensures ToHex(bytes)[2 * i] == "0123456789abcdef"[bytes[i] / 16]
    ensures ToHex(bytes)[2 * i + 1] == "0123456789abcdef"[bytes[i] % 16]
  {
    if i > 0 {
      HexIs(bytes[1..], i - 1);
    } else {
      DigitIs(bytes[0] / 16);
      DigitIs(bytes[0] % 16);
      if |bytes| > 1 {
        HexIs(bytes[1..], 0);
      }
    }
  }

  /** Reading goes pair by pair, and ends before the first that is not one of digits. */
  lemma {:induction false} HexReads(digits: string, rest: string)
    requires |digits| % 2 == 0 && forall i :: 0 <= i < |digits| ==> DigitValue(digits[i]).Some?
    ensures FromHex(digits + rest) == FromHex(digits) + FromHex(rest)
    ensures rest == "" || DigitValue(rest[0]).None? ==> FromHex(rest) == []
  {
    if digits == "" {
      assert digits + rest == rest;
    } else {
      HexReads(digits[2..], rest);
      ReadOne(digits[0], digits[1], digits[2..] + rest);
      assert digits + rest == [digits[0], digits[1]] + (digits[2..] + rest);
    }
  }

  lemma UpperPair(a: char, b: char, rest: string)
    ensures ToUpper([a, b] + rest) == [UpperChar(a), UpperChar(b)] + ToUpper(rest)
  {
  }

  /** What is read may be in capitals. */
  lemma {:induction false} HexReadsCapitals(bytes: seq<Byte>)
    ensures FromHex(ToUpper(ToHex(bytes))) == bytes
  {
    if bytes != [] {
      var a, b := HexDigit(bytes[0] / 16), HexDigit(bytes[0] % 16);
      DigitIs(bytes[0] / 16);
      DigitIs(bytes[0] % 16);
      HexReadsCapitals(bytes[1..]);
      UpperPair(a, b, ToHex(bytes[1..]));
      ReadOne(UpperChar(a), UpperChar(b), ToUpper(ToHex(bytes[1..])));
    }
  }

  lemma ReadOne(a: char, b: char, rest: string)
    requires DigitValue(a).Some? && DigitValue(b).Some?
    ensures FromHex([a, b] + rest) == [DigitValue(a).value * 16 + DigitValue(b).value] + FromHex(rest)
  {
    assert ([a, b] + rest)[2..] == rest;
  }

  /** The names of the algorithms that have an authentication tag, and of those with short vectors. */
  ghost predicate NamesTagMode(algo: string) {
    || Occurs(algo, "gcm") || Occurs(algo, "GCM") || Occurs(algo, "ccm") || Occurs(algo, "CCM") || Occurs(algo, "ocb")
  }

  ghost predicate NamesShortMode(algo: string) {
    Occurs(algo, "ccm") || Occurs(algo, "ocb")
  }

  lemma ModesTell(algo: string)
    ensures IsAuthenticated(algo) <==> NamesTagMode(algo)
    ensures IVLength(algo) == if NamesShortMode(algo) then 13 else 16
  {
    ContainsExactlyWhen(algo, "gcm");
    ContainsExactlyWhen(algo, "ccm");
    ContainsExactlyWhen(algo, "GCM");
    ContainsExactlyWhen(algo, "CCM");
    ContainsExactlyWhen(algo, "ocb");
  }

  /** A ciphertext is the vector, the data and, in authenticated modes, the tag, in hexadecimal and between colons. */
  lemma EncryptedParts(c: Cipher, k: CryptoKey, iv: seq<Byte>, x: string)
    ensures var (data, tag) := c.seal(k, iv, x);
      Split(Encrypt(c, k, iv, x), ':') == [ToHex(iv), ToHex(data)]
        + if NamesTagMode(k.algo) then [ToHex(tag)] else []
  {
    ModesTell(k.algo);
    var (data, tag) := c.seal(k, iv, x);
    HexRoundTrip(iv);
    HexRoundTrip(data);
    HexRoundTrip(tag);
    SplitTwo(ToHex(iv), ToHex(data));
    SplitThree(ToHex(iv), ToHex(data), ToHex(tag));
    assert ToHex(iv) + ":" + ToHex(data) + "" == ToHex(iv) + ":" + ToHex(data);
  }

  /** Reading one takes its first part as the vector, its second as the data and, in authenticated modes, its third, if
      there is one, as the tag; with one part only it throws. */
  lemma DecryptReads(c: Cipher, k: CryptoKey, iv: string, data: string, tag: string)
    requires ':' !in iv && ':' !in data && ':' !in tag
    ensures Decrypt(c, k, iv) == None
    ensures Decrypt(c, k, iv + ":" + data) == c.unseal(k, Sealed(FromHex(iv), FromHex(data), None))
    ensures Decrypt(c, k, iv + ":" + data + (":" + tag)) == c.unseal(k, Sealed(FromHex(iv), FromHex(data),
      if NamesTagMode(k.algo) then Some(FromHex(tag)) else None))
  {
    ModesTell(k.algo);
    SplitPlain(iv, ':');
    SplitTwo(iv, data);
    SplitThree(iv, data, tag);
  }
}
