/** JSON texts (sections 2 to 7 of RFC 8259), and that the scanner finds one whole wherever it stands. */
module JsonObjects {
  import opened Options
  import opened Text
  import opened AgentNaming

  /** A character of a string, as itself or escaped. */
  datatype Letter = Plain(c: char) | Escaped(c: char, hex: string)

  /** A value, with the whitespace written inside it. */
  datatype Json =
    | Scalar(text: string)
    | Quoted(letters: seq<Letter>)
    | Array(blank: string, elements: seq<Element>)
    | Object(blank: string, members: seq<Member>)

  datatype Element = Element(before: string, value: Json, after: string)

  datatype Member = Member(before: string, name: seq<Letter>, after: string, element: Element)

  // ---------------------------------------------------------------- the grammar

  predicate IsBlank(s: string) {
    forall c <- s :: c == ' ' || c == '\t' || c == '\n' || c == '\r'
  }

  predicate IsDigit(c: char) {
    '0' <= c <= '9'
  }

  predicate IsNumberChar(c: char) {
    IsDigit(c) || c == '-' || c == '+' || c == '.' || c == 'e' || c == 'E'
  }

  /** `true`, `false`, `null`, or what a number is written with; every number of section 6 is among these. */
  predicate IsScalar(s: string) {
    s == "true" || s == "false" || s == "null" || (s != "" && forall c <- s :: IsNumberChar(c))
  }

  predicate IsHex(c: char) {
    IsDigit(c) || 'a' <= c <= 'f' || 'A' <= c <= 'F'
  }

  /** Section 7: anything but the quote, the reverse solidus and controls stands for itself. */
  predicate IsLetter(letter: Letter) {
    match letter
    case Plain(c) => c as int >= 0x20 && c != '"' && c != '\\'
    case Escaped('u', hex) => |hex| == 4 && forall h <- hex :: IsHex(h)
    case Escaped(c, hex) => c in "\"\\/bfnrt" && hex == ""
  }

  predicate AreLetters(letters: seq<Letter>) {
    forall letter <- letters :: IsLetter(letter)
  }

  predicate IsJson(json: Json) {
    match json
    case Scalar(text) => IsScalar(text)
    case Quoted(letters) => AreLetters(letters)
    case Array(blank, elements) => IsBlank(blank) && forall i :: 0 <= i < |elements| ==> IsElement(elements[i])
    case Object(blank, members) => IsBlank(blank) && forall i :: 0 <= i < |members| ==> IsMember(members[i])
  }

  predicate IsElement(element: Element) {
    IsBlank(element.before) && IsJson(element.value) && IsBlank(element.after)
  }

  predicate IsMember(member: Member) {
    IsBlank(member.before) && AreLetters(member.name) && IsBlank(member.after) && IsElement(member.element)
  }

  // ---------------------------------------------------------------- its texts

  function LetterText(letter: Letter): string {
    match letter
    case Plain(c) => [c]
    case Escaped(c, hex) => ['\\', c] + hex
  }

  function LettersText(letters: seq<Letter>): string {
    if letters == [] then "" else LetterText(letters[0]) + LettersText(letters[1..])
  }

  function QuotedText(letters: seq<Letter>): string {
    "\"" + LettersText(letters) + "\""
  }

  function JsonText(json: Json): string
    decreases json
  {
    match json
    case Scalar(text) => text
    case Quoted(letters) => QuotedText(letters)
    case Array(blank, elements) => "[" + (if elements == [] then blank else ElementsText(elements)) + "]"
    case Object(blank, members) => "{" + (if members == [] then blank else MembersText(members)) + "}"
  }

  function ElementText(element: Element): string
    decreases element
  {
    element.before + JsonText(element.value) + element.after
  }

  function MemberText(member: Member): string
    decreases member
  {
    member.before + QuotedText(member.name) + member.after + ":" + ElementText(member.element)
  }

  /** Separated by commas. */
  function ElementsText(elements: seq<Element>): string
    decreases elements
  {
    if elements == [] then ""
    else if |elements| == 1 then ElementText(elements[0])
    else ElementText(elements[0]) + "," + ElementsText(elements[1..])
  }

  function MembersText(members: seq<Member>): string
    decreases members
  {
    if members == [] then ""
    else if |members| == 1 then MemberText(members[0])
    else MemberText(members[0]) + "," + MembersText(members[1..])
  }

  // ---------------------------------------------------------------- scanned over

  /** Outside a string, at `depth`, the scanner comes through `s` as it went in. */
  ghost predicate PassedOver(s: string, depth: nat, rest: string)
    requires depth > 0
  {
    Scan(s + rest, depth, false, false) == Plus(Scan(rest, depth, false, false), |s|)
  }

  /** Inside one, likewise. */
  ghost predicate PassedOverInside(s: string, depth: nat, rest: string)
    requires depth > 0
  {
    Scan(s + rest, depth, true, false) == Plus(Scan(rest, depth, true, false), |s|)
  }

  ghost predicate IsPlain(s: string) {
    forall c <- s :: c != '"' && c != '{' && c != '}'
  }

  lemma {:induction false} PlainIsPassedOver(s: string, depth: nat, rest: string)
    requires depth > 0 && IsPlain(s)
    ensures PassedOver(s, depth, rest)
  {
    if s == "" {
      assert s + rest == rest;
    } else {
      assert s[0] in s && forall c <- s[1..] :: c in s;
      PlainIsPassedOver(s[1..], depth, rest);
      assert (s + rest)[1..] == s[1..] + rest;
    }
  }

  lemma PassOn(a: string, b: string, depth: nat, rest: string)
    requires depth > 0 && PassedOver(a, depth, b + rest) && PassedOver(b, depth, rest)
    ensures PassedOver(a + b, depth, rest)
  {
    hide Scan;
    assert a + (b + rest) == a + b + rest;
  }

  /** Characters of a hexadecimal escape mean nothing to the scanner. */
  lemma {:induction false} HexIsPassedOver(hex: string, depth: nat, rest: string)
    requires depth > 0 && forall h <- hex :: IsHex(h)
    ensures PassedOverInside(hex, depth, rest)
  {
    if hex == "" {
      assert hex + rest == rest;
    } else {
      assert hex[0] in hex;
      HexIsPassedOver(hex[1..], depth, rest);
      assert (hex + rest)[1..] == hex[1..] + rest;
    }
  }

  lemma LetterIsPassedOver(letter: Letter, depth: nat, rest: string)
    requires depth > 0 && IsLetter(letter)
    ensures PassedOverInside(LetterText(letter), depth, rest)
  {
    match letter
    case Plain(c) =>
      assert ([c] + rest)[1..] == rest;
    case Escaped(c, hex) =>
      var s := ['\\', c] + hex + rest;
      assert s[1..][1..] == hex + rest && s[1] == c;
      assert forall h <- hex :: IsHex(h);
      HexIsPassedOver(hex, depth, rest);
      assert Scan(s[1..], depth, true, true) == Plus(Scan(hex + rest, depth, true, false), 1);
  }

  lemma {:induction false} LettersArePassedOver(letters: seq<Letter>, depth: nat, rest: string)
    requires depth > 0 && AreLetters(letters)
    ensures PassedOverInside(LettersText(letters), depth, rest)
  {
    hide Scan, LetterText, IsLetter;
    if letters == [] {
      assert LettersText(letters) + rest == rest;
    } else {
      var first, others := LetterText(letters[0]), LettersText(letters[1..]);
      assert letters[0] in letters;
      LettersArePassedOver(letters[1..], depth, rest);
      LetterIsPassedOver(letters[0], depth, others + rest);
      assert first + (others + rest) == LettersText(letters) + rest;
    }
  }

  lemma QuotedIsPassedOver(letters: seq<Letter>, depth: nat, rest: string)
    requires depth > 0 && AreLetters(letters)
    ensures PassedOver(QuotedText(letters), depth, rest)
  {
    hide LettersText, AreLetters;
    var inner := LettersText(letters);
    LettersArePassedOver(letters, depth, "\"" + rest);
    assert (QuotedText(letters) + rest)[1..] == inner + ("\"" + rest);
    assert ("\"" + rest)[1..] == rest;
  }

  lemma BlankIsPlain(s: string)
    requires IsBlank(s)
    ensures IsPlain(s)
  {
  }

  lemma ScalarIsPlain(s: string)
    requires IsScalar(s)
    ensures IsPlain(s)
  {
  }

  /** A brace, something passed over, and its closing brace. */
  lemma BracedIsPassedOver(body: string, depth: nat, rest: string)
    requires depth > 0 && PassedOver(body, depth + 1, "}" + rest)
    ensures PassedOver("{" + body + "}", depth, rest)
  {
    assert ("{" + body + "}" + rest)[1..] == body + ("}" + rest);
    assert ("}" + rest)[1..] == rest;
  }

  lemma BracketedIsPassedOver(body: string, depth: nat, rest: string)
    requires depth > 0 && PassedOver(body, depth, "]" + rest)
    ensures PassedOver("[" + body + "]", depth, rest)
  {
    assert ("[" + body + "]" + rest)[1..] == body + ("]" + rest);
    assert ("]" + rest)[1..] == rest;
  }

  lemma {:induction false} JsonIsPassedOver(json: Json, depth: nat, rest: string)
    requires depth > 0 && IsJson(json)
    ensures PassedOver(JsonText(json), depth, rest)
    decreases json
  {
    hide Scan, IsScalar, IsBlank, PassedOver, AreLetters;
    match json
    case Scalar(text) =>
      ScalarIsPlain(text);
      PlainIsPassedOver(text, depth, rest);
    case Quoted(letters) =>
      QuotedIsPassedOver(letters, depth, rest);
    case Array(blank, elements) =>
      if elements == [] {
        BlankIsPlain(blank);
        PlainIsPassedOver(blank, depth, "]" + rest);
        BracketedIsPassedOver(blank, depth, rest);
      } else {
        ElementsArePassedOver(elements, depth, "]" + rest);
        BracketedIsPassedOver(ElementsText(elements), depth, rest);
      }
    case Object(blank, members) =>
      BodyIsPassedOver(json, depth + 1, "}" + rest);
      BracedIsPassedOver(BodyText(json), depth, rest);
  }

  /** What stands between an object's braces. */
  function BodyText(json: Json): string
    requires json.Object?
  {
    if json.members == [] then json.blank else MembersText(json.members)
  }

  lemma {:induction false} BodyIsPassedOver(json: Json, depth: nat, rest: string)
    requires depth > 0 && IsJson(json) && json.Object?
    ensures PassedOver(BodyText(json), depth, rest)
    decreases json, 0
  {
    hide Scan, IsBlank, PassedOver;
    if json.members == [] {
      BlankIsPlain(json.blank);
      PlainIsPassedOver(json.blank, depth, rest);
    } else {
      MembersArePassedOver(json.members, depth, rest);
    }
  }

  lemma {:induction false} ElementIsPassedOver(element: Element, depth: nat, rest: string)
    requires depth > 0 && IsElement(element)
    ensures PassedOver(ElementText(element), depth, rest)
    decreases element
  {
    hide Scan, IsBlank, PassedOver;
    var value, after := JsonText(element.value), element.after;
    BlankIsPlain(after);
    BlankIsPlain(element.before);
    PlainIsPassedOver(after, depth, rest);
    JsonIsPassedOver(element.value, depth, after + rest);
    PassOn(value, after, depth, rest);
    PlainIsPassedOver(element.before, depth, value + after + rest);
    PassOn(element.before, value + after, depth, rest);
    assert element.before + (value + after) == ElementText(element);
  }

  lemma {:induction false} MemberIsPassedOver(member: Member, depth: nat, rest: string)
    requires depth > 0 && IsMember(member)
    ensures PassedOver(MemberText(member), depth, rest)
    decreases member
  {
    hide Scan, IsBlank, PassedOver, AreLetters;
    var name, colon, tail := QuotedText(member.name), member.after + ":", ElementText(member.element);
    BlankIsPlain(member.after);
    BlankIsPlain(member.before);
    ElementIsPassedOver(member.element, depth, rest);
    PlainIsPassedOver(colon, depth, tail + rest);
    PassOn(colon, tail, depth, rest);
    QuotedIsPassedOver(member.name, depth, colon + tail + rest);
    PassOn(name, colon + tail, depth, rest);
    PlainIsPassedOver(member.before, depth, name + (colon + tail) + rest);
    PassOn(member.before, name + (colon + tail), depth, rest);
    assert member.before + (name + (colon + tail)) == MemberText(member);
  }

  lemma {:induction false} ElementsArePassedOver(elements: seq<Element>, depth: nat, rest: string)
    requires depth > 0 && elements != [] && forall i :: 0 <= i < |elements| ==> IsElement(elements[i])
    ensures PassedOver(ElementsText(elements), depth, rest)
    decreases elements
  {
    hide Scan, PassedOver;
    if |elements| == 1 {
      ElementIsPassedOver(elements[0], depth, rest);
    } else {
      var first, others := ElementText(elements[0]), ElementsText(elements[1..]);
      ElementsArePassedOver(elements[1..], depth, rest);
      PlainIsPassedOver(",", depth, others + rest);
      PassOn(",", others, depth, rest);
      ElementIsPassedOver(elements[0], depth, "," + others + rest);
      PassOn(first, "," + others, depth, rest);
      assert first + ("," + others) == ElementsText(elements);
    }
  }

  lemma {:induction false} MembersArePassedOver(members: seq<Member>, depth: nat, rest: string)
    requires depth > 0 && members != [] && forall i :: 0 <= i < |members| ==> IsMember(members[i])
    ensures PassedOver(MembersText(members), depth, rest)
    decreases members
  {
    hide Scan, PassedOver;
    if |members| == 1 {
      MemberIsPassedOver(members[0], depth, rest);
    } else {
      var first, others := MemberText(members[0]), MembersText(members[1..]);
      MembersArePassedOver(members[1..], depth, rest);
      PlainIsPassedOver(",", depth, others + rest);
      PassOn(",", others, depth, rest);
      MemberIsPassedOver(members[0], depth, "," + others + rest);
      PassOn(first, "," + others, depth, rest);
      assert first + ("," + others) == MembersText(members);
    }
  }

  /** Any object, after any words without an opening brace and before anything at all, is what the scanner finds. */
  lemma ObjectIsFound(before: string, json: Json, after: string)
    requires '{' !in before && IsJson(json) && json.Object?
    ensures FirstObject(before + JsonText(json) + after) == Some(JsonText(json))
  {
    var body, s := BodyText(json), JsonText(json);
    assert s == "{" + body + "}";
    BodyIsPassedOver(json, 1, "}" + after);
    hide IsJson, JsonText, BodyText, PassedOver;
    BracedIsScanned(body, after);
    FirstBraceIs(before, s, after);
  }

  /** From its brace on, a body that is passed over is scanned up to the closing one. */
  lemma BracedIsScanned(body: string, after: string)
    requires PassedOver(body, 1, "}" + after)
    ensures Scan("{" + body + "}" + after, 0, false, false) == Some(|body| + 2)
  {
    hide Scan;
    OpeningIsScanned(body + ("}" + after));
    ClosingIsScanned(after);
    assert "{" + body + "}" + after == "{" + (body + ("}" + after));
  }

  lemma OpeningIsScanned(rest: string)
    ensures Scan("{" + rest, 0, false, false) == Plus(Scan(rest, 1, false, false), 1)
  {
    assert ("{" + rest)[1..] == rest;
  }

  lemma ClosingIsScanned(rest: string)
    ensures Scan("}" + rest, 1, false, false) == Some(1)
  {
  }

  lemma FirstBraceIs(before: string, s: string, after: string)
    requires '{' !in before && s != "" && s[0] == '{' && Scan(s + after, 0, false, false) == Some(|s|)
    ensures FirstObject(before + s + after) == Some(s)
  {
    hide Scan;
    var text := before + s + after;
    assert text[|before|] == '{';
    assert forall i :: 0 <= i < |before| ==> text[i] == before[i] && before[i] in before;
    assert IndexOf(text, '{') == |before|;
    assert text[|before|..] == s + after && text[|before|..|before| + |s|] == s;
  }
}
