/**
 The EVSE identifiers of the roaming protocols: country, party, station and connector printed into one string
 over upper-case letters, digits and stars, and what can be read back from it.
*/
module EvseId {
  import opened Options
  import opened Strings

  datatype Components = Components(countryCode: string, partyId: Option<string>, connectorId: string)

  predicate Word(c: char) {
    'a' <= c <= 'z' || 'A' <= c <= 'Z' || '0' <= c <= '9'
  }

  predicate Words(s: string) {
    forall c :: c in s ==> Word(c)
  }

  /** Every longest run of characters that are no letters or digits becomes one star. */
  function Starred(s: string): string {
    if s == "" then ""
    else if Word(s[0]) then [s[0]] + Starred(s[1..])
    else if |s| > 1 && !Word(s[1]) then Starred(s[1..])
    else "*" + Starred(s[1..])
  }

  predicate Digits(s: string) {
    forall i :: 0 <= i < |s| ==> '0' <= s[i] <= '9'
  }

  /** The decimal numeral of a number. */
  function Decimal(n: nat): (s: string)
    ensures s != "" && Digits(s)
  {
    (if n < 10 then "" else Decimal(n / 10)) + [('0' as int + n % 10) as char]
  }

  function ValueOf(s: string): nat
    requires Digits(s)
  {
    if s == "" then 0 else 10 * ValueOf(s[..|s| - 1]) + (s[|s| - 1] as int - '0' as int)
  }

  function BuildEvseID(countryCode: string, partyId: string, chargingStationID: string, connectorID: nat): string {
    ToUpper(Starred(countryCode + "*" + partyId + "*E" + chargingStationID + "*" + Decimal(connectorID)))
  }

  function EvseIdComponents(evseID: string): Components {
    var parts := Split(evseID, '*');
    Components(parts[0], if |parts| > 1 then Some(parts[1]) else None, parts[|parts| - 1])
  }

  /** What a station identifier leaves behind in the printed one. */
  function StationPart(chargingStationID: string): string {
    ToUpper(Starred("E" + chargingStationID + "*"))
  }

  lemma {:induction false} DecimalTells(n: nat)
    ensures ValueOf(Decimal(n)) == n && (n > 0 ==> Decimal(n)[0] != '0')
  {
    var s := Decimal(n);
    if n >= 10 {
      DecimalTells(n / 10);
      assert s[..|s| - 1] == Decimal(n / 10);
    } else {
      assert s[..|s| - 1] == "";
    }
  }

  lemma {:induction false} WordsStay(a: string, s: string)
    requires Words(a)
    ensures Starred(a + s) == a + Starred(s)
  {
    if a == "" {
      assert a + s == s;
    } else {
      assert Word(a[0]) && (a + s)[1..] == a[1..] + s;
      WordsStay(a[1..], s);
    }
  }

  lemma StarStays(s: string)
    requires s == "" || Word(s[0])
    ensures Starred("*" + s) == "*" + Starred(s)
  {
    assert ("*" + s)[1..] == s;
  }

  lemma {:induction false} WordsStayLast(s: string, a: string)
    requires Words(a)
    ensures Starred(s + a) == Starred(s) + a
  {
    if s == "" {
      WordsStay(a, "");
      assert s + a == a + "" == a;
    } else {
      assert (s + a)[1..] == s[1..] + a;
      WordsStayLast(s[1..], a);
      if |s| == 1 && a != "" {
        assert a[0] in a;
      }
    }
  }

  lemma {:induction false} EndsInStar(s: string)
    ensures var r := Starred(s + "*"); r != "" && r[|r| - 1] == '*'
  {
    if s != "" {
      assert (s + "*")[1..] == s[1..] + "*";
      EndsInStar(s[1..]);
    }
  }

  lemma {:induction false} LastPart(s: string, c: char, last: string)
    requires c !in last
    ensures var parts := Split(s + [c] + last, c); |parts| > 1 && parts[|parts| - 1] == last
  {
    if s == "" {
      SplitAt("", c, last);
      SplitPlain(last, c);
    } else {
      assert (s + [c] + last)[1..] == s[1..] + [c] + last;
      LastPart(s[1..], c, last);
    }
  }

  /** The printed identifier: country and party, then the station's part, then the connector. */
  lemma BuiltAs(country: string, party: string, station: string, connector: nat)
    requires country != "" && Words(country) && party != "" && Words(party)
    ensures BuildEvseID(country, party, station, connector)
      == ToUpper(country) + "*" + (ToUpper(party) + "*" + (StationPart(station) + Decimal(connector)))
  {
    var d := Decimal(connector);
    var rest := "E" + station + "*";
    assert country + "*" + party + "*E" + station + "*" + d == country + ("*" + (party + ("*" + (rest + d))));
    WordsStay(country, "*" + (party + ("*" + (rest + d))));
    assert party[0] in party;
    StarStays(party + ("*" + (rest + d)));
    WordsStay(party, "*" + (rest + d));
    StarStays(rest + d);
    WordsStayLast(rest, d);
    UpperParts(country, party, Starred(rest), d);
  }

  lemma UpperParts(country: string, party: string, rest: string, d: string)
    requires Digits(d)
    ensures ToUpper(country + ("*" + (party + ("*" + (rest + d)))))
      == ToUpper(country) + "*" + (ToUpper(party) + "*" + (ToUpper(rest) + d))
  {
  }

  lemma StationEnds(station: string)
    ensures var p := StationPart(station); p != "" && p == p[..|p| - 1] + "*"
  {
    EndsInStar("E" + station);
  }

  lemma UpperPlain(s: string)
    requires Words(s)
    ensures '*' !in ToUpper(s)
  {
    forall i | 0 <= i < |s| ensures ToUpper(s)[i] != '*' {
      assert s[i] in s;
    }
  }

  /** Reading a printed identifier gives back country and party in upper case and the connector's numeral,
      whatever the station is called. */
  lemma ParseBuilt(country: string, party: string, station: string, connector: nat)
    requires country != "" && Words(country) && party != "" && Words(party)
    ensures var c := EvseIdComponents(BuildEvseID(country, party, station, connector));
      && c == Components(ToUpper(country), Some(ToUpper(party)), Decimal(connector))
      && ValueOf(Decimal(connector)) == connector
  {
    var d, p := Decimal(connector), StationPart(station);
    BuiltAs(country, party, station, connector);
    UpperPlain(country);
    UpperPlain(party);
    SplitAt(ToUpper(country), '*', ToUpper(party) + "*" + (p + d));
    SplitAt(ToUpper(party), '*', p + d);
    StationEnds(station);
    LastPart(p[..|p| - 1], '*', d);
    DecimalTells(connector);
  }

  /** What holds no star is read as country and connector alike, with no party. */
  lemma ParsePlain(evseID: string)
    requires '*' !in evseID
    ensures EvseIdComponents(evseID) == Components(evseID, None, evseID)
  {
    SplitPlain(evseID, '*');
  }

  /** Two printed identifiers are the same exactly when country and party agree up to case, the connectors are
      the same, and the station identifiers leave the same part behind. */
  lemma SameIdExactlyWhen(country1: string, party1: string, station1: string, connector1: nat,
                          country2: string, party2: string, station2: string, connector2: nat)
    requires country1 != "" && Words(country1) && party1 != "" && Words(party1)
    requires country2 != "" && Words(country2) && party2 != "" && Words(party2)
    ensures BuildEvseID(country1, party1, station1, connector1) == BuildEvseID(country2, party2, station2, connector2)
      <==> ToUpper(country1) == ToUpper(country2) && ToUpper(party1) == ToUpper(party2) && connector1 == connector2
           && StationPart(station1) == StationPart(station2)
  {
    BuiltAs(country1, party1, station1, connector1);
    BuiltAs(country2, party2, station2, connector2);
    if BuildEvseID(country1, party1, station1, connector1) == BuildEvseID(country2, party2, station2, connector2) {
      ParseBuilt(country1, party1, station1, connector1);
      ParseBuilt(country2, party2, station2, connector2);
      SameRest(ToUpper(country1) + "*", ToUpper(party1) + "*", StationPart(station1), StationPart(station2),
          Decimal(connector1));
    }
  }

  lemma SameRest(a: string, b: string, p1: string, p2: string, d: string)
    requires a + (b + (p1 + d)) == a + (b + (p2 + d))
    ensures p1 == p2
  {
    assert |p1| == |p2|;
    assert b + (p1 + d) == (a + (b + (p1 + d)))[|a|..] == (a + (b + (p2 + d)))[|a|..] == b + (p2 + d);
    assert p1 + d == (b + (p1 + d))[|b|..] == (b + (p2 + d))[|b|..] == p2 + d;
    assert p1 == (p1 + d)[..|p1|] && p2 == (p2 + d)[..|p1|];
  }

  /** Different stations can print alike: only letters and digits are told apart, and not their case. */
  lemma StationsCanClash()
    ensures StationPart("cs-1") == StationPart("CS_1")
  {
    StarredTwo("Ecs", "1");
    StarredTwo("ECS", "1");
    assert "E" + "cs-1" + "*" == "Ecs" + "-" + "1" + "*" && "E" + "CS_1" + "*" == "ECS" + "_" + "1" + "*";
    assert ToUpper("Ecs*1*") == "ECS*1*" == ToUpper("ECS*1*");
  }

  lemma StarredTwo(a: string, b: string)
    requires Words(a) && b != "" && Words(b)
    ensures Starred(a + "-" + b + "*") == a + "*" + b + "*" == Starred(a + "_" + b + "*")
  {
    assert b[0] in b;
    forall c | c in ["-", "_"] ensures Starred(a + c + b + "*") == a + "*" + b + "*" {
      assert a + c + b + "*" == a + (c + (b + "*"));
      WordsStay(a, c + (b + "*"));
      assert (c + (b + "*"))[1..] == b + "*";
      WordsStay(b, "*");
    }
    assert "-" in ["-", "_"] && "_" in ["-", "_"];
  }

  predicate EvseChar(c: char) {
    'A' <= c <= 'Z' || '0' <= c <= '9' || c == '*'
  }

  predicate NoTwoStars(s: string) {
    forall i :: 0 <= i < |s| - 1 ==> s[i] != '*' || s[i + 1] != '*'
  }

  lemma {:induction false} StarredShape(s: string)
    ensures var r := Starred(s);
      && (forall c :: c in r ==> Word(c) || c == '*') && NoTwoStars(r)
      && (s != "" ==> r != "" && (r[0] == '*' <==> !Word(s[0])))
  {
    if s != "" {
      StarredShape(s[1..]);
    }
  }

  /** For any arguments at all, the identifier is over A-Z, 0-9 and the star, with no two stars together. */
  lemma BuiltShape(country: string, party: string, station: string, connector: nat)
    ensures var id := BuildEvseID(country, party, station, connector);
      (forall c :: c in id ==> EvseChar(c)) && NoTwoStars(id)
  {
    var s := country + "*" + party + "*E" + station + "*" + Decimal(connector);
    StarredShape(s);
    var r := Starred(s);
    forall i | 0 <= i < |r| ensures EvseChar(UpperChar(r[i])) && (UpperChar(r[i]) == '*' <==> r[i] == '*') {
      assert r[i] in r;
    }
  }

  /** The letters and digits of a text, in order. */
  function Letters(s: string): string {
    if s == "" then "" else (if Word(s[0]) then [s[0]] else "") + Letters(s[1..])
  }

  lemma LettersCons(c: char, s: string)
    ensures Letters([c] + s) == (if Word(c) then [c] else "") + Letters(s)
  {
    assert ([c] + s)[1..] == s;
  }

  lemma Associative(x: string, y: string, z: string)
    ensures (x + y) + z == x + (y + z)
  {
  }

  lemma {:induction false} LettersApart(a: string, b: string)
    ensures Letters(a + b) == Letters(a) + Letters(b)
  {
    if a == "" {
      assert a + b == b;
    } else {
      var c, t := a[0], a[1..];
      LettersApart(t, b);
      LettersCons(c, t + b);
      LettersCons(c, t);
      assert a == [c] + t;
      Associative([c], t, b);
      Associative(if Word(c) then [c] else "", Letters(t), Letters(b));
    }
  }

  lemma {:induction false} StarredKeepsLetters(s: string)
    ensures Letters(Starred(s)) == Letters(s)
  {
    if s != "" {
      StarredKeepsLetters(s[1..]);
      if Word(s[0]) {
        assert ([s[0]] + Starred(s[1..]))[1..] == Starred(s[1..]);
      } else if |s| == 1 || Word(s[1]) {
        assert ("*" + Starred(s[1..]))[1..] == Starred(s[1..]);
      }
    }
  }

  lemma {:induction false} LettersUpper(s: string)
    ensures Letters(ToUpper(s)) == ToUpper(Letters(s))
  {
    if s != "" {
      LettersUpper(s[1..]);
      assert ToUpper(s)[1..] == ToUpper(s[1..]);
      UpperConcat(if Word(s[0]) then [s[0]] else "", Letters(s[1..]));
    }
  }

  lemma UpperConcat(a: string, b: string)
    ensures ToUpper(a + b) == ToUpper(a) + ToUpper(b)
  {
  }

  lemma {:induction false} WordsAreLetters(s: string)
    requires Words(s)
    ensures Letters(s) == s
  {
    if s != "" {
      assert s[0] in s;
      WordsAreLetters(s[1..]);
    }
  }

  /** For any arguments at all, the identifier holds the letters and digits of country, party and station, with an E in
      front of the station's, and the connector's numeral, all in order and in upper case; none is lost or added. */
  lemma BuiltLetters(country: string, party: string, station: string, connector: nat)
    ensures Letters(BuildEvseID(country, party, station, connector))
      == ToUpper(Letters(country) + Letters(party) + "E" + Letters(station) + Decimal(connector))
  {
    var d := Decimal(connector);
    var s := country + "*" + party + "*E" + station + "*" + d;
    StarredKeepsLetters(s);
    LettersUpper(Starred(s));
    LettersOfAll(country, party, station, d);
    WordsAreLetters(d);
  }

  lemma LettersOfAll(country: string, party: string, station: string, d: string)
    ensures Letters(country + "*" + party + "*E" + station + "*" + d)
      == Letters(country) + Letters(party) + "E" + Letters(station) + Letters(d)
  {
    var a := country + "*" + party;
    LettersApart(country, "*");
    LettersApart(country + "*", party);
    LettersApart(a, "*E");
    LettersApart(a + "*E", station);
    LettersApart(a + "*E" + station, "*");
    LettersApart(a + "*E" + station + "*", d);
    MarkLetters();
  }

  lemma MarkLetters()
    ensures Letters("*") == "" && Letters("*E") == "E"
  {
    assert "*E"[1..] == "E";
  }

  /** Every longest run of other characters is printed as one star. */
  lemma {:induction false} RunIsOneStar(gap: string, s: string)
    requires gap != "" && (forall c :: c in gap ==> !Word(c)) && (s == "" || Word(s[0]))
    ensures Starred(gap + s) == "*" + Starred(s)
  {
    assert gap[0] in gap && (gap + s)[1..] == gap[1..] + s;
    if |gap| > 1 {
      assert gap[1] in gap;
      RunIsOneStar(gap[1..], s);
    } else {
      assert gap[1..] + s == s;
    }
  }
}
