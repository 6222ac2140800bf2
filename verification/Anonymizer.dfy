/**
 Taking sensitive data out of what is logged: values under sensitive keys, values of sensitive query parameters,
 and texts that mention a sensitive word.
*/
module Anonymizer {
  import opened Options
  import opened Strings

  /** What is logged: numbers, booleans and the like, texts, arrays, and objects with their keys in order. */
  datatype Message = Plain(value: int) | Text(text: string) | Array(items: seq<Message>) | Object(fields: seq<Field>)

  datatype Field = Field(key: string, value: Message)

  type Words = words: seq<string> | forall w :: w in words ==> w != "" && w[0] != '#'

  const ANONYMIZED_VALUE := "####"
  const EXCEPTION_KEYS := ["error", "stack"]

  function Together(a: Words, b: Words): Words {
    a + b
  }

  const PERSONAL_WORDS: Words := ["firstName", "name", "repeatPassword", "password", "plainPassword", "captcha",
    "email", "coordinates", "latitude", "longitude"]
  const CREDENTIAL_WORDS: Words := ["Authorization", "authorization", "client_id", "client_secret", "refresh_token",
    "localToken", "Bearer", "auth_token", "token"]
  const SENSITIVE_DATA: Words := Together(PERSONAL_WORDS, CREDENTIAL_WORDS)

  predicate Mentions(s: string, word: string)
    requires word != ""
  {
    Contains(ToLower(s), ToLower(word))
  }

  predicate StartsWith(s: string, word: string) {
    ToLower(word) <= ToLower(s)
  }

  /** Where a word occurs first. */
  function Position(s: string, word: string): (pos: nat)
    requires word != "" && Contains(s, word)
    ensures pos + |word| <= |s|
  {
    if s[..|word|] == word then 0 else 1 + Position(s[1..], word)
  }

  /** The name of the query parameter that a part of a query string sets. */
  function QueryParamKey(part: string): string {
    var keyParts := Split(Split(part, '=')[0], '?');
    if |keyParts| > 1 then keyParts[1] else keyParts[0]
  }

  function LastMatch(words: seq<string>, key: string): (r: Option<string>)
    ensures r.Some? ==> r.value in words && StartsWith(key, r.value)
    ensures r.Some? ==> exists j :: IsLastMatch(words, key, j, r.value)
    ensures r.None? ==> forall w :: w in words ==> !StartsWith(key, w)
  {
    if words == [] then None
    else if StartsWith(key, words[|words| - 1]) then
      assert IsLastMatch(words, key, |words| - 1, words[|words| - 1]);
      Some(words[|words| - 1])
    else
      var front := words[..|words| - 1];
      var r := LastMatch(front, key);
      assert r.Some? ==> exists j :: IsLastMatch(words, key, j, r.value) by {
        if r.Some? {
          var j :| IsLastMatch(front, key, j, r.value);
          assert IsLastMatch(words, key, j, r.value);
        }
      }
      r
  }

  /** The word at a position matches, and none after it does. */
  ghost predicate IsLastMatch(words: seq<string>, key: string, j: int, word: string) {
    0 <= j < |words| && words[j] == word && forall k :: j < k < |words| ==> !StartsWith(key, words[k])
  }

  /** The part up to one character after the first occurrence of the word, then the mark. */
  function Cut(part: string, word: string): string
    requires word != "" && Mentions(part, word)
  {
    var end := Position(ToLower(part), ToLower(word)) + |word| + 1;
    (if end <= |part| then part[..end] else part) + ANONYMIZED_VALUE
  }

  function AnonymizedPart(words: Words, part: string): string {
    var word := LastMatch(words, QueryParamKey(part));
    if word.None? then part else (KeyIsMentioned(part, word.value); Cut(part, word.value))
  }

  function AnonymizedText(words: Words, s: string): string {
    var parts := Split(s, '&');
    if |parts| > 1 then Join(seq(|parts|, i requires 0 <= i < |parts| => AnonymizedPart(words, parts[i])), '&')
    else if MentionsAny(words, s) then ANONYMIZED_VALUE
    else s
  }

  predicate MentionsAny(words: Words, s: string) {
    exists w :: w in words && Mentions(s, w)
  }

  predicate Sensitive(words: Words, key: string) {
    exists w :: w in words && ToLower(key) == ToLower(w)
  }

  function Anonymized(words: Words, m: Message): Message
    decreases m
  {
    match m
    case Plain(_) => m
    case Text(s) => Text(AnonymizedText(words, s))
    case Array(items) => Array(seq(|items|, i requires 0 <= i < |items| => Anonymized(words, items[i])))
    case Object(fields) => Object(seq(|fields|, i requires 0 <= i < |fields| => AnonymizedField(words, fields[i])))
  }

  function AnonymizedField(words: Words, f: Field): Field
    decreases f
  {
    if f.key in EXCEPTION_KEYS then f
    else if Sensitive(words, f.key) then Field(f.key, Text(ANONYMIZED_VALUE))
    else Field(f.key, Anonymized(words, f.value))
  }

  // Texts

  lemma {:induction false} ContainsAt(s: string, i: nat, word: string)
    requires word != "" && i + |word| <= |s| && s[i..i + |word|] == word
    ensures Contains(s, word) && Position(s, word) <= i
  {
    if s[..|word|] != word {
      assert s[1..][i - 1..i - 1 + |word|] == word;
      ContainsAt(s[1..], i - 1, word);
    }
  }

  lemma {:induction false} WordAtPosition(s: string, word: string)
    requires word != "" && Contains(s, word)
    ensures var pos := Position(s, word); s[pos..pos + |word|] == word
  {
    if s[..|word|] != word {
      WordAtPosition(s[1..], word);
      var rest := Position(s[1..], word);
      assert s[1..][rest..rest + |word|] == s[1 + rest..1 + rest + |word|];
    }
  }

  /** Where the first occurrence is inside a prefix, what follows the prefix does not matter. */
  lemma {:induction false} PositionInPrefix(s: string, t: string, word: string)
    requires word != "" && Contains(s, word)
    ensures Contains(s + t, word) && Position(s + t, word) == Position(s, word)
  {
    assert (s + t)[..|word|] == s[..|word|];
    if s[..|word|] != word {
      assert (s + t)[1..] == s[1..] + t;
      PositionInPrefix(s[1..], t, word);
    }
  }

  lemma ConsTake(s: string, n: nat)
    requires n < |s|
    ensures s[0..0 + (n + 1)] == [s[0]] + s[1..][0..0 + n]
  {
  }

  /** The part of a split string with a given number is a stretch of it. */
  lemma {:induction false} PartInside(s: string, c: char, i: nat) returns (at: nat)
    requires i < |Split(s, c)|
    ensures at + |Split(s, c)[i]| <= |s| && s[at..at + |Split(s, c)[i]|] == Split(s, c)[i]
    ensures i == 0 ==> at == 0
  {
    at := 0;
    if s != "" {
      var rest := Split(s[1..], c);
      if s[0] != c && i == 0 {
        var tail := PartInside(s[1..], c, 0);
        assert Split(s, c)[0] == [s[0]] + rest[0];
        ConsTake(s, |rest[0]|);
      } else if i > 0 {
        var j := if s[0] == c then i - 1 else i;
        var tail := PartInside(s[1..], c, j);
        assert Split(s, c)[i] == rest[j];
        assert s[1..][tail..tail + |rest[j]|] == s[tail + 1..tail + 1 + |rest[j]|];
        at := tail + 1;
      }
    }
  }

  /** A word that the parameter's name starts with occurs in what stands before the first equals sign. */
  lemma WordInKey(part: string, word: string)
    requires word != "" && StartsWith(QueryParamKey(part), word)
    ensures Mentions(Split(part, '=')[0], word)
  {
    var left := Split(part, '=')[0];
    var key := QueryParamKey(part);
    var at := PartInside(left, '?', if |Split(left, '?')| > 1 then 1 else 0);
    assert left[at..at + |key|] == key;
    assert ToLower(left)[at..at + |word|] == ToLower(key)[..|word|] == ToLower(word);
    ContainsAt(ToLower(left), at, ToLower(word));
  }

  /** So the search for the word finds it there. */
  lemma KeyIsMentioned(part: string, word: string)
    requires word != "" && StartsWith(QueryParamKey(part), word)
    ensures Mentions(part, word) && Mentions(Split(part, '=')[0], word)
    ensures Position(ToLower(part), ToLower(word)) == Position(ToLower(Split(part, '=')[0]), ToLower(word))
    ensures Split(part, '=')[0] <= part
  {
    var left := Split(part, '=')[0];
    WordInKey(part, word);
    var at := PartInside(part, '=', 0);
    assert part == left + part[|left|..];
    LowerConcat(left, part[|left|..]);
    PositionInPrefix(ToLower(left), ToLower(part[|left|..]), ToLower(word));
  }

  /** The value of a sensitive query parameter leaves no trace. */
  lemma ValueLeavesNoTrace(words: Words, left: string, value1: string, value2: string)
    requires '=' !in left && LastMatch(words, QueryParamKey(left + "=" + value1)).Some?
    ensures AnonymizedPart(words, left + "=" + value1) == AnonymizedPart(words, left + "=" + value2)
  {
    SplitAt(left, '=', value1);
    SplitAt(left, '=', value2);
    var word := LastMatch(words, QueryParamKey(left + "=" + value1)).value;
    CutInLeft(left, value1, word);
    CutInLeft(left, value2, word);
  }

  lemma CutInLeft(left: string, value: string, word: string)
    requires '=' !in left && word != "" && StartsWith(QueryParamKey(left + "=" + value), word)
    ensures Mentions(left + "=" + value, word) && Mentions(left, word)
    ensures Cut(left + "=" + value, word)
      == (left + "=")[..Position(ToLower(left), ToLower(word)) + |word| + 1] + ANONYMIZED_VALUE
  {
    SplitAt(left, '=', value);
    KeyIsMentioned(left + "=" + value, word);
    TakeFromLeft(left, value, Position(ToLower(left), ToLower(word)) + |word| + 1);
  }

  lemma TakeFromLeft(left: string, value: string, end: nat)
    requires end <= |left| + 1
    ensures (left + "=" + value)[..end] == (left + "=")[..end]
  {
  }

  // What the tests come to, letter by letter

  /** The word stands at a position of a text, up to case. */
  predicate StandsUpToCase(s: string, i: int, word: string) {
    0 <= i <= |s| - |word| && SameLetters(s[i..i + |word|], word)
  }

  lemma StandsLower(s: string, i: int, word: string)
    ensures StandsAt(ToLower(s), i, ToLower(word)) <==> StandsUpToCase(s, i, word)
  {
    if 0 <= i <= |s| - |word| {
      assert ToLower(s)[i..i + |word|] == ToLower(s[i..i + |word|]);
      LowerIs(s[i..i + |word|], word);
    }
  }

  /** A text mentions a word exactly when it holds the same letters somewhere, in either case. */
  lemma MentionsExactlyWhen(s: string, word: string)
    requires word != ""
    ensures Mentions(s, word) <==> exists i :: StandsUpToCase(s, i, word)
  {
    ContainsExactlyWhen(ToLower(s), ToLower(word));
    if i :| StandsAt(ToLower(s), i, ToLower(word)) {
      StandsLower(s, i, word);
    }
    if i :| StandsUpToCase(s, i, word) {
      StandsLower(s, i, word);
    }
  }

  lemma StartsExactlyWhen(s: string, word: string)
    ensures StartsWith(s, word) <==> StandsUpToCase(s, 0, word)
  {
    StandsLower(s, 0, word);
    assert StartsWith(s, word) <==> StandsAt(ToLower(s), 0, ToLower(word));
  }

  /** A key is sensitive exactly when it has the same letters as a word, in either case. */
  lemma SensitiveExactlyWhen(words: Words, key: string)
    ensures Sensitive(words, key) <==> exists w :: w in words && SameLetters(key, w)
  {
    forall w | w in words ensures ToLower(key) == ToLower(w) <==> SameLetters(key, w) {
      LowerIs(key, w);
    }
  }

  /** The server's words are these nineteen, */
  lemma PersonalWords()
    ensures PERSONAL_WORDS == ["firstName", "name", "repeatPassword", "password", "plainPassword", "captcha", "email",
      "coordinates", "latitude", "longitude"]
  {
  }

  lemma CredentialWords()
    ensures CREDENTIAL_WORDS == ["Authorization", "authorization", "client_id", "client_secret", "refresh_token",
      "localToken", "Bearer", "auth_token", "token"]
  {
  }

  /** and the keys whose values it leaves alone are these two. */
  lemma ServerWords()
    ensures SENSITIVE_DATA == PERSONAL_WORDS + CREDENTIAL_WORDS && EXCEPTION_KEYS == ["error", "stack"]
  {
  }

  /** The name of a query parameter is what stands before the equals sign, and after the first question mark if there is
      one: it ends before the second. */
  lemma ParamKeyIs(path: string, name: string, more: string, value: string)
    requires '=' !in path && '?' !in path && '=' !in name && '?' !in name && '=' !in more
    ensures QueryParamKey(name) == QueryParamKey(name + "=" + value) == name
    ensures QueryParamKey(path + "?" + name) == QueryParamKey(path + "?" + name + "=" + value) == name
    ensures QueryParamKey(path + "?" + (name + "?" + more)) == name
    ensures QueryParamKey(path + "?" + (name + "?" + more) + "=" + value) == name
  {
    SplitPlain(name, '?');
    KeyOfLeft(name, value);
    SplitAt(path, '?', name);
    KeyOfLeft(path + "?" + name, value);
    SplitAt(name, '?', more);
    SplitAt(path, '?', name + "?" + more);
    KeyOfLeft(path + "?" + (name + "?" + more), value);
  }

  lemma KeyOfLeft(left: string, value: string)
    requires '=' !in left
    ensures var parts := Split(left, '?');
      QueryParamKey(left) == QueryParamKey(left + "=" + value) == if |parts| > 1 then parts[1] else parts[0]
  {
    SplitPlain(left, '=');
    SplitAt(left, '=', value);
  }

  /** The first place where a word stands, up to case. */
  ghost predicate StandsFirst(s: string, i: int, word: string) {
    StandsUpToCase(s, i, word) && forall j :: 0 <= j < i ==> !StandsUpToCase(s, j, word)
  }

  /** What is kept of a cut part ends one character after the first place where the word stands. */
  lemma CutIs(part: string, word: string)
    requires word != "" && Mentions(part, word)
    ensures var i := Position(ToLower(part), ToLower(word)); var end := i + |word| + 1;
      && StandsFirst(part, i, word)
      && Cut(part, word) == (if end <= |part| then part[..end] else part) + "####"
  {
    var s, w := ToLower(part), ToLower(word);
    var i := Position(s, w);
    WordAtPosition(s, w);
    StandsLower(part, i, word);
    forall j | 0 <= j < i ensures !StandsUpToCase(part, j, word) {
      StandsLower(part, j, word);
      if StandsAt(s, j, w) {
        ContainsAt(s, j, w);
      }
    }
  }

  /** A parameter whose name is a word, in either case, keeps its name and its equals sign, and nothing of its value. */
  lemma NamedByWord(words: Words, name: string, value: string)
    requires '=' !in name && '?' !in name && LastMatch(words, name).Some?
    requires SameLetters(name, LastMatch(words, name).value)
    ensures AnonymizedPart(words, name + "=" + value) == name + "=" + "####"
  {
    var part, word := name + "=" + value, LastMatch(words, name).value;
    ParamKeyIs("", name, "", value);
    KeyIsMentioned(part, word);
    CutIs(part, word);
    assert part[0..0 + |word|] == name;
    assert StandsUpToCase(part, 0, word);
    assert part[..|name| + 1] == name + "=";
  }

  // Non-interference

  /** Two parts of a query string that may differ only in the value of a sensitive parameter. */
  ghost predicate AlikePart(words: Words, p: string, q: string) {
    p == q || exists left, value1, value2 ::
      && p == left + "=" + value1 && q == left + "=" + value2
      && '=' !in left && LastMatch(words, QueryParamKey(p)).Some?
  }

  /** Two texts that may differ in such values, or altogether if both mention a sensitive word. */
  ghost predicate AlikeText(words: Words, s: string, t: string) {
    var a, b := Split(s, '&'), Split(t, '&');
    && |a| == |b|
    && if |a| > 1 then forall i :: 0 <= i < |a| ==> AlikePart(words, a[i], b[i])
       else s == t || (MentionsAny(words, s) && MentionsAny(words, t))
  }

  /** Two messages of the same shape that may differ in such texts and in anything at all under sensitive keys. */
  ghost predicate Alike(words: Words, m: Message, n: Message) {
    match m
    case Plain(_) => m == n
    case Text(s) => n.Text? && AlikeText(words, s, n.text)
    case Array(items) =>
      n.Array? && |n.items| == |items| && forall i :: 0 <= i < |items| ==> Alike(words, items[i], n.items[i])
    case Object(fields) =>
      n.Object? && |n.fields| == |fields| && forall i :: 0 <= i < |fields| ==> AlikeField(words, fields[i], n.fields[i])
  }

  ghost predicate AlikeField(words: Words, f: Field, g: Field) {
    && f.key == g.key
    && if f.key in EXCEPTION_KEYS then f == g else Sensitive(words, f.key) || Alike(words, f.value, g.value)
  }

  lemma AlikePartsSame(words: Words, p: string, q: string)
    requires AlikePart(words, p, q)
    ensures AnonymizedPart(words, p) == AnonymizedPart(words, q)
  {
    if p != q {
      var left, value1, value2 :|
        && p == left + "=" + value1 && q == left + "=" + value2
        && '=' !in left && LastMatch(words, QueryParamKey(p)).Some?;
      ValueLeavesNoTrace(words, left, value1, value2);
    }
  }

  lemma AlikeTextsSame(words: Words, s: string, t: string)
    requires AlikeText(words, s, t)
    ensures AnonymizedText(words, s) == AnonymizedText(words, t)
  {
    var a, b := Split(s, '&'), Split(t, '&');
    if |a| > 1 {
      forall i | 0 <= i < |a| ensures AnonymizedPart(words, a[i]) == AnonymizedPart(words, b[i]) {
        AlikePartsSame(words, a[i], b[i]);
      }
      assert seq(|a|, i requires 0 <= i < |a| => AnonymizedPart(words, a[i]))
          == seq(|b|, i requires 0 <= i < |b| => AnonymizedPart(words, b[i]));
    }
  }

  /** Non-interference: such messages anonymize to the same message. */
  lemma {:induction false} AlikeSame(words: Words, m: Message, n: Message)
    requires Alike(words, m, n)
    ensures Anonymized(words, m) == Anonymized(words, n)
    decreases m
  {
    match m
    case Plain(_) =>
    case Text(s) => AlikeTextsSame(words, s, n.text);
    case Array(items) =>
      forall i | 0 <= i < |items| ensures Anonymized(words, items[i]) == Anonymized(words, n.items[i]) {
        AlikeSame(words, items[i], n.items[i]);
      }
      assert Anonymized(words, m).items == Anonymized(words, n).items;
    case Object(fields) =>
      forall i | 0 <= i < |fields| ensures Anonymized(words, m).fields[i] == Anonymized(words, n).fields[i] {
        assert AlikeField(words, fields[i], n.fields[i]);
        if Alike(words, fields[i].value, n.fields[i].value) {
          AlikeSame(words, fields[i].value, n.fields[i].value);
        }
      }
      assert Anonymized(words, m).fields == Anonymized(words, n).fields;
  }

  // What remains

  /** A part of a query string is kept, or cut with the mark at its end: then what is kept of it lies before the
      parameter's value. */
  ghost predicate PartKept(words: Words, p: string, q: string) {
    if LastMatch(words, QueryParamKey(p)).None? then q == p
    else exists k :: 0 <= k <= |p| && k <= |Split(p, '=')[0]| + 1 && q == p[..k] + ANONYMIZED_VALUE
  }

  /** A query string is kept part by part; another text altogether, unless it mentions a sensitive word. */
  ghost predicate TextKept(words: Words, s: string, r: string) {
    var a, b := Split(s, '&'), Split(r, '&');
    if |a| > 1 then |b| == |a| && forall i :: 0 <= i < |a| ==> PartKept(words, a[i], b[i])
    else r == if MentionsAny(words, s) then ANONYMIZED_VALUE else s
  }

  /** Same shape, same keys in the same order, what is under the exception keys untouched, and texts kept as above;
      what is under sensitive keys is the mark. */
  ghost predicate Kept(words: Words, m: Message, r: Message) {
    match m
    case Plain(_) => r == m
    case Text(s) => r.Text? && TextKept(words, s, r.text)
    case Array(items) =>
      r.Array? && |r.items| == |items| && forall i :: 0 <= i < |items| ==> Kept(words, items[i], r.items[i])
    case Object(fields) => r.Object? && |r.fields| == |fields| && forall i :: 0 <= i < |fields| ==>
      && r.fields[i].key == fields[i].key
      && if fields[i].key in EXCEPTION_KEYS then r.fields[i] == fields[i]
         else if Sensitive(words, fields[i].key) then r.fields[i].value == Text(ANONYMIZED_VALUE)
         else Kept(words, fields[i].value, r.fields[i].value)
  }

  predicate EndsInMark(s: string) {
    |s| >= |ANONYMIZED_VALUE| && s[|s| - |ANONYMIZED_VALUE|..] == ANONYMIZED_VALUE
  }

  /** No sensitive text: each part of a query string whose name starts with a sensitive word ends in the mark, and no
      other text mentions one. */
  ghost predicate CleanText(words: Words, s: string) {
    if '&' in s then forall q :: q in Split(s, '&') && LastMatch(words, QueryParamKey(q)).Some? ==> EndsInMark(q)
    else !MentionsAny(words, s)
  }

  /** No sensitive value: every sensitive key holds the mark, and all texts are clean. */
  ghost predicate Clean(words: Words, m: Message) {
    match m
    case Plain(_) => true
    case Text(s) => CleanText(words, s)
    case Array(items) => forall i :: 0 <= i < |items| ==> Clean(words, items[i])
    case Object(fields) => forall i :: 0 <= i < |fields| ==> CleanField(words, fields[i])
  }

  ghost predicate CleanField(words: Words, f: Field) {
    || f.key in EXCEPTION_KEYS
    || if Sensitive(words, f.key) then f.value == Text(ANONYMIZED_VALUE) else Clean(words, f.value)
  }

  lemma {:induction false} MarkHas(s: string, word: string)
    requires word != "" && Contains(s, word) && forall i :: 0 <= i < |s| ==> s[i] == '#'
    ensures word[0] == '#'
  {
    if s[..|word|] == word {
      assert s[0] == s[..|word|][0] == word[0];
    } else {
      MarkHas(s[1..], word);
    }
  }

  lemma MarkIsClean(words: Words)
    ensures !MentionsAny(words, ANONYMIZED_VALUE)
  {
    forall w | w in words ensures !Mentions(ANONYMIZED_VALUE, w) {
      if Mentions(ANONYMIZED_VALUE, w) {
        MarkHas(ToLower(ANONYMIZED_VALUE), ToLower(w));
      }
    }
  }

  /** A cut part is cut at the latest one character after what stands before the first equals sign. */
  lemma CutKeepsName(part: string, word: string) returns (k: nat)
    requires word != "" && StartsWith(QueryParamKey(part), word)
    ensures Mentions(part, word)
    ensures k <= |part| && k <= |Split(part, '=')[0]| + 1 && Cut(part, word) == part[..k] + ANONYMIZED_VALUE
  {
    KeyIsMentioned(part, word);
    k := CutEnd(part, word, Split(part, '=')[0]);
  }

  lemma CutEnd(part: string, word: string, left: string) returns (k: nat)
    requires word != "" && Mentions(part, word) && Mentions(left, word) && |left| <= |part|
    requires Position(ToLower(part), ToLower(word)) == Position(ToLower(left), ToLower(word))
    ensures k <= |part| && k <= |left| + 1 && Cut(part, word) == part[..k] + ANONYMIZED_VALUE
  {
    var end := Position(ToLower(left), ToLower(word)) + |word| + 1;
    k := if end <= |part| then end else |part|;
  }

  lemma PartIsKept(words: Words, p: string)
    requires '&' !in p
    ensures PartKept(words, p, AnonymizedPart(words, p)) && '&' !in AnonymizedPart(words, p)
    ensures LastMatch(words, QueryParamKey(p)).Some? ==> EndsInMark(AnonymizedPart(words, p))
  {
    var found := LastMatch(words, QueryParamKey(p));
    if found.Some? {
      var k := CutKeepsName(p, found.value);
      MarkedEnd(p[..k]);
    }
  }

  lemma MarkedEnd(s: string)
    ensures EndsInMark(s + ANONYMIZED_VALUE) && ('&' !in s ==> '&' !in s + ANONYMIZED_VALUE)
  {
  }

  lemma HasAmpersand(parts: seq<string>)
    requires |parts| > 1
    ensures '&' in Join(parts, '&')
  {
    assert Join(parts, '&')[|parts[0]|] == '&';
  }

  lemma {:induction false} PlainIsOnePart(s: string)
    requires |Split(s, '&')| == 1
    ensures '&' !in s
  {
    JoinSplit(s, '&');
    assert s == Split(s, '&')[0];
  }

  lemma TextIsClean(words: Words, s: string)
    ensures CleanText(words, AnonymizedText(words, s)) && TextKept(words, s, AnonymizedText(words, s))
  {
    MarkIsClean(words);
    var parts := Split(s, '&');
    if |parts| > 1 {
      JoinSplit(s, '&');
      var done := seq(|parts|, i requires 0 <= i < |parts| => AnonymizedPart(words, parts[i]));
      forall i | 0 <= i < |parts|
        ensures PartKept(words, parts[i], done[i]) && '&' !in done[i]
        ensures LastMatch(words, QueryParamKey(done[i])).Some? ==> EndsInMark(done[i])
      {
        PartIsKept(words, parts[i]);
      }
      SplitJoin(done, '&');
      HasAmpersand(done);
    } else {
      PlainIsOnePart(s);
    }
  }

  /** What comes out is clean, and keeps of what went in all that it should. */
  lemma {:induction false} AnonymizedIsClean(words: Words, m: Message)
    ensures Clean(words, Anonymized(words, m)) && Kept(words, m, Anonymized(words, m))
  {
    match m
    case Plain(_) =>
    case Text(s) => TextIsClean(words, s);
    case Array(items) =>
      forall i | 0 <= i < |items|
        ensures var r := Anonymized(words, m).items[i]; Clean(words, r) && Kept(words, items[i], r)
      {
        AnonymizedIsClean(words, items[i]);
      }
    case Object(fields) =>
      forall i | 0 <= i < |fields| && fields[i].key !in EXCEPTION_KEYS && !Sensitive(words, fields[i].key)
        ensures var r := Anonymized(words, fields[i].value); Clean(words, r) && Kept(words, fields[i].value, r)
      {
        AnonymizedIsClean(words, fields[i].value);
      }
  }

  // The algorithm

  method AnonymizePart(words: Words, part: string) returns (r: string)
    ensures r == AnonymizedPart(words, part)
  {
    r := part;
    var key := QueryParamKey(part);
    for i := 0 to |words|
      invariant r == AnonymizedPart(words[..i], part)
    {
      assert words[..i + 1][..i] == words[..i];
      var word := words[i];
      if StartsWith(key, word) {
        KeyIsMentioned(part, word);
        r := Cut(part, word);
      }
    }
    assert words[..|words|] == words;
  }

  method AnonymizeText(words: Words, s: string) returns (r: string)
    ensures r == AnonymizedText(words, s)
  {
    var parts := Split(s, '&');
    if |parts| > 1 {
      ghost var before := parts;
      for i := 0 to |parts|
        invariant |parts| == |before|
        invariant forall j :: 0 <= j < i ==> parts[j] == AnonymizedPart(words, before[j])
        invariant forall j :: i <= j < |parts| ==> parts[j] == before[j]
      {
        var part := AnonymizePart(words, parts[i]);
        parts := parts[i := part];
      }
      assert parts == seq(|before|, i requires 0 <= i < |before| => AnonymizedPart(words, before[i]));
      return Join(parts, '&');
    }
    for i := 0 to |words|
      invariant forall w :: w in words[..i] ==> !Mentions(s, w)
    {
      if Mentions(s, words[i]) {
        return ANONYMIZED_VALUE;
      }
    }
    return s;
  }

  method AnonymizeMessage(words: Words, message: Message) returns (r: Message)
    ensures r == Anonymized(words, message)
    decreases message
  {
    match message
    case Plain(_) => return message;
    case Text(s) =>
      var text := AnonymizeText(words, s);
      return Text(text);
    case Array(items) =>
      var anonymized := [];
      for i := 0 to |items|
        invariant |anonymized| == i && forall j :: 0 <= j < i ==> anonymized[j] == Anonymized(words, items[j])
      {
        var item := AnonymizeMessage(words, items[i]);
        anonymized := anonymized + [item];
      }
      return Array(anonymized);
    case Object(fields) =>
      var done := fields;
      for i := 0 to |fields|
        invariant |done| == |fields|
        invariant forall j :: 0 <= j < i ==> done[j] == AnonymizedField(words, fields[j])
        invariant forall j :: i <= j < |fields| ==> done[j] == fields[j]
      {
        var field := AnonymizeField(words, fields[i]);
        done := done[i := field];
      }
      return Object(done);
  }

  method AnonymizeField(words: Words, f: Field) returns (r: Field)
    ensures r == AnonymizedField(words, f)
    decreases f
  {
    if f.key in EXCEPTION_KEYS {
      return f;
    }
    if exists w :: w in words && ToLower(f.key) == ToLower(w) {
      return Field(f.key, Text(ANONYMIZED_VALUE));
    }
    var value := AnonymizeMessage(words, f.value);
    return Field(f.key, value);
  }

  /** The anonymizer with the server's own words. */
  method AnonymizeSensitiveData(message: Message) returns (r: Message)
    ensures r == Anonymized(SENSITIVE_DATA, message) && Clean(SENSITIVE_DATA, r) && Kept(SENSITIVE_DATA, message, r)
  {
    r := AnonymizeMessage(SENSITIVE_DATA, message);
    AnonymizedIsClean(SENSITIVE_DATA, message);
  }
}
