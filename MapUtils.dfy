/** utils/mapUtils.js: the state-name to map-region lookup used to highlight
    affected states on the map of Nigeria. */
module MapUtils {
  import opened Text

  /** The lookup table of `stateNameToId`: the 36 states and the Federal
      Capital Territory, keyed by the name with its spaces removed, valued by
      the state's ISO 3166-2:NG subdivision code. */
  const StateIds: map<string, string> := map[
    "Abia" := "NG-AB", "Adamawa" := "NG-AD", "AkwaIbom" := "NG-AK", "Anambra" := "NG-AN",
    "Bauchi" := "NG-BA", "Bayelsa" := "NG-BY", "Benue" := "NG-BE", "Borno" := "NG-BO",
    "CrossRiver" := "NG-CR", "Delta" := "NG-DE", "Ebonyi" := "NG-EB", "Edo" := "NG-ED",
    "Ekiti" := "NG-EK", "Enugu" := "NG-EN", "Gombe" := "NG-GO", "Imo" := "NG-IM",
    "Jigawa" := "NG-JI", "Kaduna" := "NG-KD", "Kano" := "NG-KN", "Katsina" := "NG-KT",
    "Kebbi" := "NG-KE", "Kogi" := "NG-KO", "Kwara" := "NG-KW", "Lagos" := "NG-LA",
    "Nasarawa" := "NG-NA", "Niger" := "NG-NI", "Ogun" := "NG-OG", "Ondo" := "NG-ON",
    "Osun" := "NG-OS", "Oyo" := "NG-OY", "Plateau" := "NG-PL", "Rivers" := "NG-RI",
    "Sokoto" := "NG-SO", "Taraba" := "NG-TA", "Yobe" := "NG-YO", "Zamfara" := "NG-ZA",
    "FCT" := "NG-FC"
  ]

  /** An ISO 3166-2:NG code: `NG-` and two capital letters. */
  predicate IsSubdivisionCode(id: string) {
    |id| == 5 && id[..3] == "NG-" && IsUpper(id[3]) && IsUpper(id[4])
  }

  /** The table read backwards: the key whose code is `id`, or "" for a
      string that is no code of the table. */
  function StateOfCode(id: string): string {
    if IsSubdivisionCode(id) then StateOfLetters(id[3], id[4]) else ""
  }

  /** The key whose code ends in the letters `a`, `b`. */
  function StateOfLetters(a: char, b: char): string {
    match (a, b)
      case ('A', 'B') => "Abia"
      case ('A', 'D') => "Adamawa"
      case ('A', 'K') => "AkwaIbom"
      case ('A', 'N') => "Anambra"
      case ('B', 'A') => "Bauchi"
      case ('B', 'Y') => "Bayelsa"
      case ('B', 'E') => "Benue"
      case ('B', 'O') => "Borno"
      case ('C', 'R') => "CrossRiver"
      case ('D', 'E') => "Delta"
      case ('E', 'B') => "Ebonyi"
      case ('E', 'D') => "Edo"
      case ('E', 'K') => "Ekiti"
      case ('E', 'N') => "Enugu"
      case ('G', 'O') => "Gombe"
      case ('I', 'M') => "Imo"
      case ('J', 'I') => "Jigawa"
      case ('K', 'D') => "Kaduna"
      case ('K', 'N') => "Kano"
      case ('K', 'T') => "Katsina"
      case ('K', 'E') => "Kebbi"
      case ('K', 'O') => "Kogi"
      case ('K', 'W') => "Kwara"
      case ('L', 'A') => "Lagos"
      case ('N', 'A') => "Nasarawa"
      case ('N', 'I') => "Niger"
      case ('O', 'G') => "Ogun"
      case ('O', 'N') => "Ondo"
      case ('O', 'S') => "Osun"
      case ('O', 'Y') => "Oyo"
      case ('P', 'L') => "Plateau"
      case ('R', 'I') => "Rivers"
      case ('S', 'O') => "Sokoto"
      case ('T', 'A') => "Taraba"
      case ('Y', 'O') => "Yobe"
      case ('Z', 'A') => "Zamfara"
      case ('F', 'C') => "FCT"
      case _ => ""
  }

  /** Every value of the table is a well-formed code. */
  lemma TableCodes()
    ensures forall k :: k in StateIds ==> IsSubdivisionCode(StateIds[k])
  {
  }

  /** Reading a value of the table back gives its key. */
  lemma TableInverse()
    ensures forall k :: k in StateIds ==> StateOfCode(StateIds[k]) == k
  {
    TableCodes();
    TableLetters();
  }

  lemma TableLetters()
    ensures forall k :: k in StateIds ==> StateOfLetters(StateIds[k][3], StateIds[k][4]) == k
  {
  }

  /** `stateNameToId(name)`: look the name up with all its whitespace
      removed; a name that is not a key gives "". */
  function StateNameToId(name: string): (id: string)
    ensures id == "" || IsSubdivisionCode(id)
    ensures id != "" <==> StripSpaces(name) in StateIds
    ensures id != "" ==> StateOfCode(id) == StripSpaces(name)
  {
    TableCodes();
    TableInverse();
    var key := StripSpaces(name);
    if key in StateIds then StateIds[key] else ""
  }

  /** Two names that give the same code are the same key once their
      whitespace is removed: the table is injective. */
  lemma IdInjective(a: string, b: string)
    requires StateNameToId(a) != "" && StateNameToId(a) == StateNameToId(b)
    ensures StripSpaces(a) == StripSpaces(b)
  {
  }

  /** Whitespace never matters: a name and its stripped form get the same code. */
  lemma WhitespaceIrrelevant(name: string)
    ensures StateNameToId(name) == StateNameToId(StripSpaces(name))
  {
    StripSpacesIdempotent(name);
  }

  /** A run of whitespace between two parts of a name is ignored. */
  lemma SpacesBetweenIgnored(a: string, spaces: string, b: string)
    requires forall c :: c in spaces ==> IsSpace(c)
    ensures StateNameToId(a + spaces + b) == StateNameToId(a + b)
  {
    StripSpacesConcat(a + spaces, b);
    StripSpacesConcat(a, spaces);
    StripSpacesConcat(a, b);
    AllSpacesStripped(spaces);
    assert StripSpaces(a + spaces) == StripSpaces(a);
  }

  lemma {:induction false} AllSpacesStripped(s: string)
    requires forall c :: c in s ==> IsSpace(c)
    ensures StripSpaces(s) == []
  {
    if s != [] {
      assert s[0] in s;
      assert forall c :: c in s[1..] ==> c in s;
      AllSpacesStripped(s[1..]);
    }
  }

  /** Every key starts with a capital letter. */
  lemma KeysCapitalised()
    ensures forall k :: k in StateIds ==> |k| > 0 && IsUpper(k[0])
  {
  }

  /** Lookup is case-sensitive: a name whose first non-space character is not
      a capital letter is unknown. */
  lemma LowerInitialUnknown(name: string)
    requires |StripSpaces(name)| > 0 && !IsUpper(StripSpaces(name)[0])
    ensures StateNameToId(name) == ""
  {
    KeysCapitalised();
  }

  /** A name written without whitespace is looked up as it is. */
  lemma PlainLookup(name: string)
    requires forall c :: c in name ==> !IsSpace(c)
    ensures StateNameToId(name) == if name in StateIds then StateIds[name] else ""
  {
    StripSpacesNoSpace(name);
  }

  /** The table entries and non-entries the examples below rely on. */
  lemma TableFacts()
    ensures StateIds["Lagos"] == "NG-LA" && StateIds["AkwaIbom"] == "NG-AK"
    ensures StateIds["CrossRiver"] == "NG-CR"
    ensures "lagos" !in StateIds && "LAGOS" !in StateIds && "Nassarawa" !in StateIds
  {
  }

  /** The lookup is case-sensitive: only the capitalised spelling is known. */
  lemma LagosExample()
    ensures StateNameToId("Lagos") == "NG-LA"
  {
    TableFacts();
    PlainLookup("Lagos");
  }

  lemma LowerCaseLagosExample()
    ensures StateNameToId("lagos") == ""
  {
    TableFacts();
    PlainLookup("lagos");
  }

  lemma UpperCaseLagosExample()
    ensures StateNameToId("LAGOS") == ""
  {
    TableFacts();
    PlainLookup("LAGOS");
  }

  /** Whitespace inside a two-word name is ignored. */
  lemma TwoWordLookup(a: string, spaces: string, b: string)
    requires forall c :: c in a + b ==> !IsSpace(c)
    requires forall c :: c in spaces ==> IsSpace(c)
    ensures StateNameToId(a + spaces + b) == if a + b in StateIds then StateIds[a + b] else ""
  {
    SpacesBetweenIgnored(a, spaces, b);
    PlainLookup(a + b);
  }

  lemma AkwaIbomExample()
    ensures StateNameToId("Akwa Ibom") == "NG-AK"
  {
    TableFacts();
    TwoWordLookup("Akwa", " ", "Ibom");
    assert "Akwa" + " " + "Ibom" == "Akwa Ibom" && "Akwa" + "Ibom" == "AkwaIbom";
  }

  lemma CrossRiverExample()
    ensures StateNameToId("Cross  River") == "NG-CR"
  {
    assert "Cross" + "  " + "River" == "Cross  River" && "Cross" + "River" == "CrossRiver";
    TwoWordLookup("Cross", "  ", "River");
    TableFacts();
  }

  /** Only the spelling "Nasarawa" is known. */
  lemma NassarawaExample()
    ensures StateNameToId("Nassarawa") == ""
  {
    TableFacts();
    PlainLookup("Nassarawa");
  }
}
