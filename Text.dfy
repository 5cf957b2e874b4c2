/** String primitives shared by the models of server.js, groqService.js and
    utils/mapUtils.js: JavaScript's `includes`, `toLowerCase` and the `\s`
    character class used by `replace(/\s+/g, '')`. */
module Text {

  /** `p` occurs in `s` starting at index `i`. */
  predicate OccursAt(s: string, p: string, i: int) {
    0 <= i && i + |p| <= |s| && s[i..i + |p|] == p
  }

  /** `s.includes(p)`: plain substring search, no tokenisation. */
  predicate Contains(s: string, p: string) {
    exists i | 0 <= i <= |s| - |p| :: OccursAt(s, p, i)
  }

  /** Every character of an occurring pattern is a character of the text;
      used to show that a keyword does NOT occur. */
  lemma ContainsChars(s: string, p: string, c: char)
    requires Contains(s, p) && c in p
    ensures c in s
  {
    var i :| 0 <= i <= |s| - |p| && OccursAt(s, p, i);
    var k :| 0 <= k < |p| && p[k] == c;
    assert s[i + k] == s[i..i + |p|][k];
  }

  /** A pattern longer than the text never occurs in it. */
  lemma ContainsLength(s: string, p: string)
    requires Contains(s, p)
    ensures |p| <= |s|
  {
  }

  /** An occurrence in either half is an occurrence in the concatenation. */
  lemma ContainsConcat(a: string, b: string, p: string)
    requires Contains(a, p) || Contains(b, p)
    ensures Contains(a + b, p)
  {
    if Contains(a, p) {
      var i :| 0 <= i <= |a| - |p| && OccursAt(a, p, i);
      assert (a + b)[i..i + |p|] == a[i..i + |p|];
      assert OccursAt(a + b, p, i);
    } else {
      var i :| 0 <= i <= |b| - |p| && OccursAt(b, p, i);
      assert (a + b)[|a| + i..|a| + i + |p|] == b[i..i + |p|];
      assert OccursAt(a + b, p, |a| + i);
    }
  }

  /** Shows an occurrence at a known index. */
  lemma ContainsAt(s: string, p: string, i: nat)
    requires i + |p| <= |s| && s[i..i + |p|] == p
    ensures Contains(s, p)
  {
    assert OccursAt(s, p, i);
  }

  /** `c` is at no position of `s`: the same as `c !in s`, written over
      indices because the verifier checks it on a string literal far more
      cheaply in this form. */
  predicate Lacks(s: string, c: char) {
    forall i | 0 <= i < |s| :: s[i] != c
  }

  /** A pattern with a character the text lacks does not occur in it. */
  lemma LacksChar(s: string, p: string, k: nat)
    requires k < |p| && Lacks(s, p[k])
    ensures !Contains(s, p)
  {
    if Contains(s, p) {
      ContainsChars(s, p, p[k]);
    }
  }

  predicate IsUpper(c: char) {
    'A' <= c <= 'Z'
  }

  /** `toLowerCase` on one character, for the ASCII letters. */
  function LowerChar(c: char): (r: char)
    ensures !IsUpper(r)
    ensures IsUpper(c) ==> r as int == c as int + 32
    ensures !IsUpper(c) ==> r == c
  {
    if IsUpper(c) then (c as int + 32) as char else c
  }

  /** `toLowerCase`: position by position, so the length is kept. */
  function Lower(s: string): (r: string)
    ensures |r| == |s|
    ensures forall i :: 0 <= i < |s| ==> r[i] == LowerChar(s[i])
  {
    seq(|s|, i requires 0 <= i < |s| => LowerChar(s[i]))
  }

  /** Lower-casing twice is lower-casing once. */
  lemma LowerIdempotent(s: string)
    ensures Lower(Lower(s)) == Lower(s)
  {
  }

  /** Lower-casing distributes over concatenation. */
  lemma LowerConcat(a: string, b: string)
    ensures Lower(a + b) == Lower(a) + Lower(b)
  {
  }

  /** JavaScript's `\s`: the ECMAScript WhiteSpace and LineTerminator characters. */
  predicate IsSpace(c: char) {
    c == '\t' || c == '\n' || c == '\U{000B}' || c == '\U{000C}' || c == '\r' || c == ' ' ||
    c == '\U{00A0}' || c == '\U{1680}' || ('\U{2000}' <= c <= '\U{200A}') ||
    c == '\U{2028}' || c == '\U{2029}' || c == '\U{202F}' || c == '\U{205F}' ||
    c == '\U{3000}' || c == '\U{FEFF}'
  }

  /** `s.replace(/\s+/g, '')`: every run of whitespace removed. */
  function StripSpaces(s: string): (r: string)
    ensures forall c :: c in r ==> c in s && !IsSpace(c)
    ensures |r| <= |s|
  {
    if s == [] then []
    else if IsSpace(s[0]) then StripSpaces(s[1..])
    else [s[0]] + StripSpaces(s[1..])
  }

  /** A text without whitespace is left as it is. */
  lemma {:induction false} StripSpacesNoSpace(s: string)
    requires forall c :: c in s ==> !IsSpace(c)
    ensures StripSpaces(s) == s
  {
    if s != [] {
      assert s[0] in s;
      assert forall c :: c in s[1..] ==> c in s;
      StripSpacesNoSpace(s[1..]);
    }
  }

  /** Stripping whitespace twice is stripping it once. */
  lemma StripSpacesIdempotent(s: string)
    ensures StripSpaces(StripSpaces(s)) == StripSpaces(s)
  {
    StripSpacesNoSpace(StripSpaces(s));
  }

  /** Stripping distributes over concatenation. */
  lemma {:induction false} StripSpacesConcat(a: string, b: string)
    ensures StripSpaces(a + b) == StripSpaces(a) + StripSpaces(b)
  {
    if a != [] {
      assert (a + b)[0] == a[0] && (a + b)[1..] == a[1..] + b;
      StripSpacesConcat(a[1..], b);
      if !IsSpace(a[0]) {
        assert [a[0]] + (StripSpaces(a[1..]) + StripSpaces(b))
            == ([a[0]] + StripSpaces(a[1..])) + StripSpaces(b);
      }
    } else {
      assert a + b == b;
    }
  }
}
