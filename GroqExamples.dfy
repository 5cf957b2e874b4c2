/** The AI client's deterministic helpers on concrete replies and incidents.
    As in the classifier examples, literals are handed to helper lemmas in
    short pieces fixed by `requires`, which keeps each proof cheap for the
    verifier; the examples glue the pieces back together. */
module GroqExamples {
  import opened Wrappers
  import opened Text
  import opened GroqService

  lemma CriticalPhrase(a: string, b: string)
    requires a == "Risk Level: Low. " && b == "Critical Risk"
    ensures Mentions(a + b, Critical)
  {
    assert Name(Critical) + " Risk" == b;
    ContainsAt(b, b, 0);
    ContainsConcat(a, b, b);
  }

  /** Critical is tried before Low, so it wins although Low comes first in
      the reply. */
  lemma CriticalOverLowExample()
    ensures ExtractRiskLevel("Risk Level: Low. Critical Risk") == Critical
  {
    assert "Risk Level: Low. Critical Risk" == "Risk Level: Low. " + "Critical Risk";
    CriticalPhrase("Risk Level: Low. ", "Critical Risk");
  }

  lemma LowerCasePhrase(text: string)
    requires text == "risk level: high"
    ensures forall l :: !Mentions(text, l)
  {
    forall l ensures !Mentions(text, l) {
      ShortLowerCaseMentionsNone(text, l);
    }
  }

  /** "risk level: high" is none of the three phrasings: the default applies. */
  lemma LowerCaseColonExample()
    ensures ExtractRiskLevel("risk level: high") == Medium
  {
    LowerCasePhrase("risk level: high");
  }

  lemma LagosJoin(title: string, summary: string, stateName: string)
    requires title == "Attack in La" && summary == "gos market" && stateName == "Lagos"
    ensures forall fields, e :: AboutState(Incident(title, summary, fields, e), stateName)
  {
    assert title[|title| - 2..] == "La" == stateName[..2];
    assert summary[..3] == "gos" == stateName[2..];
    MatchAcrossJoin(title, summary, stateName, 2);
  }

  /** "Lagos" split between the title "Attack in La" and the summary
      "gos market" still selects the incident. */
  lemma JoinMatchExample(fields: map<string, string>)
    ensures AboutState(Incident("Attack in La", "gos market", fields, None), "Lagos")
  {
    LagosJoin("Attack in La", "gos market", "Lagos");
  }

  lemma PlainReply(response: string)
    requires response == "no json here"
    ensures '{' !in response && response[..Min(100, |response|)] == response
  {
    assert Lacks(response, '{');
  }

  /** A reply with no braces becomes the fallback record whose one fact is
      the reply itself. */
  lemma PlainReplyExample(parse: Parser)
    ensures ClassifyResponse("no json here", parse) == Fallback(["no json here"])
  {
    PlainReply("no json here");
    NoBraceFallsBack("no json here", parse);
  }

  lemma NigeriaFacts(a: string, b: string, stateName: string)
    requires a == "Unrest in " && b == "Nigeria" && stateName == "Niger"
    ensures Contains(Lower(a + b), Lower(stateName))
  {
    LowerConcat(a, b);
    assert Lower(a) == "unrest in ";
    assert Lower(b) == "nigeria";
    assert Lower(stateName) == "niger";
    ContainsAt("nigeria", "niger", 0);
    ContainsConcat("unrest in ", "nigeria", "niger");
  }

  /** The filter is a plain substring test, so every incident that mentions
      Nigeria is counted for the state of Niger. */
  lemma NigeriaCountsForNigerExample(fields: map<string, string>)
    ensures AboutState(Incident("Unrest in Nigeria", "", fields, None), "Niger")
  {
    NigeriaFacts("Unrest in ", "Nigeria", "Niger");
    assert "Unrest in Nigeria" + "" == "Unrest in " + "Nigeria";
  }

  /** The match is greedy: a reply holding two objects yields both of them
      and everything between as one block. `JSON.parse` rejects that text, so
      the reply falls back with no facts. */
  lemma TwoObjectsExample(parse: Parser)
    requires parse("{a} {b}").None?
    ensures JsonBlock("{a} {b}") == Some("{a} {b}")
    ensures ClassifyResponse("{a} {b}", parse) == Fallback([])
  {
    var s := "{a} {b}";
    assert s[0] == '{' && s[6] == '}';
    var r := JsonBlock(s);
    var i, j :| GreedyBlock(s, r.value, i, j);
    assert s[i] == r.value[0] == '{';
    assert s[j] == r.value[|r.value| - 1] == '}';
    assert s[0..7] == s;
  }
}
