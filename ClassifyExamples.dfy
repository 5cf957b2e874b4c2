/** The classifier of server.js on the titles of its fallback data and on
    titles that mix keywords of several rules. Each title is handled in
    pieces: its lower-case form piece by piece, a keyword found in one piece,
    a keyword ruled out by a character that no piece contains.

    The helper lemmas take the pieces as parameters fixed by `requires x ==
    "..."` instead of writing the literals into their conclusions: the
    verifier's cost grows quickly with the length of a string literal it has
    to take apart, and short pieces named by parameters keep each proof small.
    The examples then only glue the pieces back into the whole title. */
module ClassifyExamples {
  import opened Text
  import opened WeeklySummary

  /** Lower-casing a text given in three pieces. */
  lemma LowerPieces(x: string, y: string, z: string)
    ensures Lower(x + y + z) == Lower(x) + Lower(y) + Lower(z)
  {
    LowerConcat(x + y, z);
    LowerConcat(x, y);
  }

  /** A keyword in one piece occurs in the whole text. */
  lemma InPiece(x: string, y: string, z: string, keyword: string)
    requires Contains(x, keyword) || Contains(y, keyword) || Contains(z, keyword)
    ensures Contains(x + y + z, keyword)
  {
    if Contains(x, keyword) || Contains(y, keyword) {
      ContainsConcat(x, y, keyword);
    }
    ContainsConcat(x + y, z, keyword);
  }

  /** A keyword is absent from a text in three pieces when one of its
      characters is missing from all three. */
  lemma Absent(x: string, y: string, z: string, keyword: string, c: char)
    requires c in keyword && Lacks(x, c) && Lacks(y, c) && Lacks(z, c)
    ensures !Contains(x + y + z, keyword)
  {
    if Contains(x + y + z, keyword) {
      ContainsChars(x + y + z, keyword, c);
    }
  }

  /** No keyword of any rule occurs in `t`. */
  predicate NoKeyword(t: string) {
    !Contains(t, "kidnap") && !Contains(t, "abduct") && !Contains(t, "bandit") &&
    !Contains(t, "herdsmen") && !Contains(t, "boko") && !Contains(t, "iswap") && !Contains(t, "ipob")
  }

  lemma OtherWhenNoKeyword(text: string)
    requires NoKeyword(Lower(text))
    ensures ClassifyIncident(text) == Other
  {
  }

  /** A kidnapping keyword wins over a bandit keyword. */
  lemma BanditsAbductExample()
    ensures ClassifyIncident("bandits abduct villagers") == Kidnapping
  {
    var t := "bandits abduct villagers";
    assert Lower(t) == t;
    ContainsAt(t, "abduct", 8);
  }

  lemma BokoFacts(x: string, y: string, z: string)
    requires x == "Bandits and " && y == "Boko Haram " && z == "fighters clash"
    ensures Lower(x + y + z) == "bandits and " + "boko haram " + "fighters clash"
    ensures !Contains(Lower(x + y + z), "kidnap") && !Contains(Lower(x + y + z), "abduct")
    ensures Contains(Lower(x + y + z), "bandit")
  {
    LowerPieces(x, y, z);
    var a, b, c := "bandits and ", "boko haram ", "fighters clash";
    assert Lower(x) == a;
    assert Lower(y) == b;
    assert Lower(z) == c;
    Absent(a, b, c, "kidnap", 'p');
    Absent(a, b, c, "abduct", 'u');
    ContainsAt(a, "bandit", 0);
    InPiece(a, b, c, "bandit");
  }

  /** A bandit keyword wins over a terrorist-group keyword. */
  lemma BanditOverBokoExample()
    ensures ClassifyIncident("Bandits and Boko Haram fighters clash") == Banditry
  {
    BokoFacts("Bandits and ", "Boko Haram ", "fighters clash");
    assert "Bandits and Boko Haram fighters clash" == "Bandits and " + "Boko Haram " + "fighters clash";
  }

  lemma IswapFacts(x: string, y: string, z: string)
    requires x == "Herdsmen and " && y == "ISWAP " && z == "fighters clash"
    ensures !Contains(Lower(x + y + z), "kidnap") && !Contains(Lower(x + y + z), "abduct")
    ensures !Contains(Lower(x + y + z), "bandit") && Contains(Lower(x + y + z), "herdsmen")
  {
    LowerPieces(x, y, z);
    var a, b, c := "herdsmen and ", "iswap ", "fighters clash";
    assert Lower(x) == a;
    assert Lower(y) == b;
    assert Lower(z) == c;
    Absent(a, b, c, "kidnap", 'k');
    Absent(a, b, c, "abduct", 'b');
    Absent(a, b, c, "bandit", 'b');
    ContainsAt(a, "herdsmen", 0);
    InPiece(a, b, c, "herdsmen");
  }

  /** A herdsmen keyword wins over a terrorist-group keyword. */
  lemma HerdsmenOverIswapExample()
    ensures ClassifyIncident("Herdsmen and ISWAP fighters clash") == HerdersAttacks
  {
    IswapFacts("Herdsmen and ", "ISWAP ", "fighters clash");
    assert "Herdsmen and ISWAP fighters clash" == "Herdsmen and " + "ISWAP " + "fighters clash";
  }

  lemma HerdersLower(x: string, y: string, z: string)
    requires x == "Herders clash " && y == "leaves 3 dead " && z == "in Plateau"
    ensures Lower(x + y + z) == "herders clash " + "leaves 3 dead " + "in plateau"
  {
    LowerPieces(x, y, z);
    assert Lower(x) == "herders clash ";
    assert Lower(y) == "leaves 3 dead ";
    assert Lower(z) == "in plateau";
  }

  lemma HerdersNoKeyword(a: string, b: string, c: string)
    requires a == "herders clash " && b == "leaves 3 dead " && c == "in plateau"
    ensures NoKeyword(a + b + c)
  {
    HerdersNoKeyword1(a, b, c);
    HerdersNoKeyword2(a, b, c);
  }

  lemma HerdersNoKeyword1(a: string, b: string, c: string)
    requires a == "herders clash " && b == "leaves 3 dead " && c == "in plateau"
    ensures !Contains(a + b + c, "kidnap") && !Contains(a + b + c, "abduct") && !Contains(a + b + c, "bandit")
  {
    Absent(a, b, c, "kidnap", 'k');
    Absent(a, b, c, "abduct", 'b');
    Absent(a, b, c, "bandit", 'b');
  }

  lemma HerdersNoKeyword2(a: string, b: string, c: string)
    requires a == "herders clash " && b == "leaves 3 dead " && c == "in plateau"
    ensures !Contains(a + b + c, "herdsmen") && !Contains(a + b + c, "boko")
    ensures !Contains(a + b + c, "iswap") && !Contains(a + b + c, "ipob")
  {
    Absent(a, b, c, "herdsmen", 'm');
    Absent(a, b, c, "boko", 'b');
    Absent(a, b, c, "iswap", 'w');
    Absent(a, b, c, "ipob", 'b');
  }

  /** "herders" is not "herdsmen": matching is by plain substring. */
  lemma HerdersExample()
    ensures ClassifyIncident("Herders clash leaves 3 dead in Plateau") == Other
  {
    HerdersLower("Herders clash ", "leaves 3 dead ", "in Plateau");
    HerdersNoKeyword("herders clash ", "leaves 3 dead ", "in plateau");
    assert "Herders clash leaves 3 dead in Plateau" == "Herders clash " + "leaves 3 dead " + "in Plateau";
    OtherWhenNoKeyword("Herders clash leaves 3 dead in Plateau");
  }

  lemma IpobLower(x: string, y: string, z: string)
    requires x == "Suspected IPOB " && y == "members kill two " && z == "truck drivers in Imo"
    ensures Lower(x + y + z) == "suspected ipob " + "members kill two " + "truck drivers in imo"
  {
    LowerPieces(x, y, z);
    assert Lower(x) == "suspected ipob ";
    assert Lower(y) == "members kill two ";
    assert Lower(z) == "truck drivers in imo";
  }

  lemma IpobKeywords(a: string, b: string, c: string)
    requires a == "suspected ipob " && b == "members kill two " && c == "truck drivers in imo"
    ensures !Contains(a + b + c, "kidnap") && !Contains(a + b + c, "abduct")
    ensures !Contains(a + b + c, "bandit") && !Contains(a + b + c, "herdsmen")
    ensures Contains(a + b + c, "ipob")
  {
    Absent(a, b, c, "kidnap", 'a');
    Absent(a, b, c, "abduct", 'a');
    Absent(a, b, c, "bandit", 'a');
    Absent(a, b, c, "herdsmen", 'h');
    assert a[10..14] == "ipob";
    ContainsAt(a, "ipob", 10);
    InPiece(a, b, c, "ipob");
  }

  lemma IpobClass(x: string, y: string, z: string)
    requires x == "Suspected IPOB " && y == "members kill two " && z == "truck drivers in Imo"
    ensures ClassifyIncident(x + y + z) == Terrorism
  {
    IpobLower(x, y, z);
    IpobKeywords("suspected ipob ", "members kill two ", "truck drivers in imo");
  }

  /** A terrorist-group keyword written in capitals is found. */
  lemma IpobExample()
    ensures ClassifyIncident("Suspected IPOB members kill two truck drivers in Imo") == Terrorism
  {
    assert "Suspected IPOB members kill two truck drivers in Imo"
        == "Suspected IPOB " + "members kill two " + "truck drivers in Imo";
    IpobClass("Suspected IPOB ", "members kill two ", "truck drivers in Imo");
  }

  lemma GunmenFacts(x: string, y: string, z: string)
    requires x == "Gunmen abduct " && y == "12 in Zamfara " && z == "village"
    ensures Contains(Lower(x + y + z), "abduct")
  {
    LowerPieces(x, y, z);
    var a, b, c := "gunmen abduct ", "12 in zamfara ", "village";
    assert Lower(x) == a;
    assert Lower(y) == b;
    assert Lower(z) == c;
    ContainsAt(a, "abduct", 7);
    InPiece(a, b, c, "abduct");
  }

  lemma GunmenAbductExample()
    ensures ClassifyIncident("Gunmen abduct 12 in Zamfara village") == Kidnapping
  {
    GunmenFacts("Gunmen abduct ", "12 in Zamfara ", "village");
    assert "Gunmen abduct 12 in Zamfara village" == "Gunmen abduct " + "12 in Zamfara " + "village";
  }
}
