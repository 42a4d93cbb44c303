/** The token around the escaped values, and reading it back. */
module AttachmentTokens {
  import opened Options
  import opened Text
  import opened ChatAttachments

  function Opening(): string {
    "<archductor_attachment "
  }

  function Closing(): string {
    " />"
  }

  function AttrText(key: string, value: string): string {
    key + "=\"" + Escape(value) + "\""
  }

  function BodyText(attachment: ChatAttachment): string {
    AttrText("path", attachment.path) + (" " + TailText(attachment))
  }

  /** The label and the kind. */
  function TailText(attachment: ChatAttachment): string {
    AttrText("label", attachment.caption) + (" " + KindText(attachment.kind))
  }

  function KindText(kind: AttachmentKind): string {
    "kind" + "=\"" + KindName(kind) + "\""
  }

  function Format(attachment: ChatAttachment): string {
    Opening() + BodyText(attachment) + Closing()
  }

  predicate IsQuoted(s: string) {
    s != "" && s[0] == '"'
  }

  /** A quoted value off the front, as the value of `key`. */
  function QuotedValue(key: string, afterEq: string): (next: Option<(Attr, string)>)
    ensures next.Some? ==> |next.value.1| < |afterEq|
  {
    if !IsQuoted(afterEq) then None
    else
      var afterQuote := afterEq[1..];
      var end := IndexOf(afterQuote, '"');
      if end == |afterQuote| then None
      else Some((Attr(key, Unescape(afterQuote[..end])), TrimStart(afterQuote[end + 1..], IsRustSpace)))
  }

  /** One `key="value"` off the front of `rest`, which is not empty. */
  function NextAttr(rest: string): (next: Option<(Attr, string)>)
    ensures next.Some? ==> |next.value.1| < |rest|
  {
    var eq := IndexOf(rest, '=');
    if eq == |rest| then None
    else QuotedValue(RustTrim(rest[..eq]), TrimStart(rest[eq + 1..], IsRustSpace))
  }

  function AttrsOf(rest: string): Option<seq<Attr>>
    decreases |rest|
  {
    if rest == "" then Some([])
    else
      match NextAttr(rest)
      case None => None
      case Some((attr, after)) =>
        match AttrsOf(after)
        case None => None
        case Some(attrs) => Some([attr] + attrs)
  }

  /** What is still to be read, put after what has been, is the whole. */
  ghost predicate Continues(rest: string, found: seq<Attr>, whole: Option<seq<Attr>>) {
    whole == if AttrsOf(rest).None? then None else Some(found + AttrsOf(rest).value)
  }

  lemma ContinuesFromStart(rest: string)
    ensures Continues(rest, [], AttrsOf(rest))
  {
    hide AttrsOf;
    if AttrsOf(rest).Some? {
      assert [] + AttrsOf(rest).value == AttrsOf(rest).value;
    }
  }

  lemma ContinuesStep(rest: string, found: seq<Attr>, whole: Option<seq<Attr>>)
    requires Continues(rest, found, whole)
    ensures rest == "" ==> whole == Some(found)
    ensures rest != "" && NextAttr(rest).None? ==> whole == None
    ensures rest != "" && NextAttr(rest).Some? ==>
              Continues(NextAttr(rest).value.1, found + [NextAttr(rest).value.0], whole)
  {
    hide NextAttr;
    assert found + [] == found;
    if rest != "" && NextAttr(rest).Some? {
      var (attr, after) := NextAttr(rest).value;
      if AttrsOf(after).Some? {
        assert found + ([attr] + AttrsOf(after).value) == found + [attr] + AttrsOf(after).value;
      }
    }
  }

  /** One round of the loop. */
  method TakeAttr(rest: string) returns (next: Option<(Attr, string)>)
    ensures next == NextAttr(rest)
  {
    hide RustTrim, TrimStart, Unescape, IndexOf;
    var eq := IndexOf(rest, '=');
    if eq == |rest| {
      return None;
    }
    var key := RustTrim(rest[..eq]);
    var afterEq := TrimStart(rest[eq + 1..], IsRustSpace);
    if !IsQuoted(afterEq) {
      return None;
    }
    var afterQuote := afterEq[1..];
    var endQuote := IndexOf(afterQuote, '"');
    if endQuote == |afterQuote| {
      return None;
    }
    var value := afterQuote[..endQuote];
    return Some((Attr(key, Unescape(value)), TrimStart(afterQuote[endQuote + 1..], IsRustSpace)));
  }

  method ParseTokenAttrs(body: string) returns (attrs: Option<seq<Attr>>)
    ensures attrs == AttrsOf(RustTrim(body))
  {
    hide RustTrim, NextAttr, AttrsOf, Continues;
    var found: seq<Attr> := [];
    var rest := RustTrim(body);
    ghost var whole := AttrsOf(rest);
    ContinuesFromStart(rest);
    while rest != ""
      invariant Continues(rest, found, whole)
      decreases |rest|
    {
      ContinuesStep(rest, found, whole);
      var next := TakeAttr(rest);
      if next.None? {
        return None;
      }
      found := found + [next.value.0];
      rest := next.value.1;
    }
    ContinuesStep(rest, found, whole);
    return Some(found);
  }

  /** The first value given for a key. */
  function ValueOf(attrs: seq<Attr>, key: string): Option<string> {
    if attrs == [] then None
    else if attrs[0].key == key then Some(attrs[0].value)
    else ValueOf(attrs[1..], key)
  }

  function AttachmentOf(attrs: seq<Attr>): Option<ChatAttachment> {
    var path, caption, kind := ValueOf(attrs, "path"), ValueOf(attrs, "label"), ValueOf(attrs, "kind");
    if path.None? || caption.None? || kind.None? then None
    else
      match KindOf(kind.value)
      case None => None
      case Some(kind) => Some(ChatAttachment(path.value, caption.value, kind))
  }

  function BodyOf(token: string): Option<string> {
    var trimmed := RustTrim(token);
    if !(Opening() <= trimmed) then None
    else
      var body := trimmed[|Opening()|..];
      if |body| < |Closing()| || body[|body| - |Closing()|..] != Closing() then None
      else Some(body[..|body| - |Closing()|])
  }

  function Parse(token: string): Option<ChatAttachment> {
    match BodyOf(token)
    case None => None
    case Some(body) =>
      match AttrsOf(RustTrim(body))
      case None => None
      case Some(attrs) => AttachmentOf(attrs)
  }

  method ParseAttachmentToken(token: string) returns (attachment: Option<ChatAttachment>)
    ensures attachment == Parse(token)
  {
    var body := BodyOf(token);
    if body.None? {
      return None;
    }
    var attrs := ParseTokenAttrs(body.value);
    if attrs.None? {
      return None;
    }
    return AttachmentOf(attrs.value);
  }

  // ---------------------------------------------------------------- round trip

  lemma IndexOfAfter(before: string, c: char, after: string)
    requires c !in before
    ensures IndexOf(before + [c] + after, c) == |before|
  {
    var s := before + [c] + after;
    assert s[|before|] == c;
    assert forall i :: 0 <= i < |before| ==> s[i] == before[i] && before[i] in before;
  }

  /** Nothing to trim, and no equals sign to stop at. */
  ghost predicate IsKey(key: string) {
    key != "" && '=' !in key && !IsRustSpace(key[0]) && !IsRustSpace(key[|key| - 1])
  }

  lemma NothingToTrim(key: string, afterEq: string)
    requires IsKey(key) && afterEq != "" && !IsRustSpace(afterEq[0])
    ensures RustTrim(key) == key && TrimStart(afterEq, IsRustSpace) == afterEq
  {
  }

  lemma CutAt(before: string, c: char, after: string)
    requires c !in before
    ensures var s := before + [c] + after;
            var k := IndexOf(s, c);
            k == |before| < |s| && s[..k] == before && s[k + 1..] == after
  {
    hide IndexOf;
    IndexOfAfter(before, c, after);
  }

  lemma QuotedValueIs(key: string, quoted: string, after: string)
    requires '"' !in quoted
    ensures QuotedValue(key, ['"'] + (quoted + ['"'] + after))
         == Some((Attr(key, Unescape(quoted)), TrimStart(after, IsRustSpace)))
  {
    hide Unescape, IndexOf, TrimStart, IsRustSpace;
    CutAt(quoted, '"', after);
    var afterQuote := quoted + ['"'] + after;
    assert (['"'] + afterQuote)[1..] == afterQuote;
  }

  /** A well-formed attribute comes off the front, whatever its value holds, leaving what follows. */
  lemma NextAttrReadsBack(key: string, quoted: string, after: string)
    requires IsKey(key) && '"' !in quoted
    ensures NextAttr(key + "=\"" + quoted + "\"" + after)
         == Some((Attr(key, Unescape(quoted)), TrimStart(after, IsRustSpace)))
  {
    assert '=' !in key && !IsRustSpace('"');
    hide Unescape, IndexOf, RustTrim, TrimStart, IsKey, IsRustSpace, QuotedValue;
    var afterEq := ['"'] + (quoted + ['"'] + after);
    assert key + "=\"" + quoted + "\"" + after == key + ['='] + afterEq;
    NothingToTrim(key, afterEq);
    CutAt(key, '=', afterEq);
    QuotedValueIs(key, quoted, after);
  }

  lemma AttrReadsBack(key: string, quoted: string, value: string, after: string, attrs: seq<Attr>)
    requires IsKey(key) && '"' !in quoted && Unescape(quoted) == value
    requires AttrsOf(TrimStart(after, IsRustSpace)) == Some(attrs)
    ensures AttrsOf(key + "=\"" + quoted + "\"" + after) == Some([Attr(key, value)] + attrs)
  {
    hide NextAttr, Unescape, TrimStart;
    NextAttrReadsBack(key, quoted, after);
  }

  lemma TrimOneSpace(s: string)
    requires s != "" && !IsRustSpace(s[0])
    ensures TrimStart(" " + s, IsRustSpace) == s
  {
    assert (" " + s)[1..] == s;
  }

  lemma {:induction false} NothingToEscape(value: string)
    requires forall i :: 0 <= i < |value| ==> value[i] != '"' && value[i] != '<' && value[i] != '>' && value[i] != '&'
    ensures Coded(value, 0) == value
  {
    if value != "" {
      NothingToEscape(value[1..]);
    }
  }

  lemma KindNamesAreInert(kind: AttachmentKind)
    ensures '"' !in KindName(kind) && KindOf(KindName(kind)) == Some(kind)
    ensures Unescape(KindName(kind)) == KindName(kind)
  {
    hide Unescape, Escape;
    var name := KindName(kind);
    EscapeIsCoded(name);
    NothingToEscape(name);
    UnescapeUndoesEscape(name);
  }

  /** An attribute that nothing follows. */
  lemma LastReadsBack(key: string, quoted: string, value: string)
    requires IsKey(key) && '"' !in quoted && Unescape(quoted) == value
    ensures AttrsOf(key + "=\"" + quoted + "\"") == Some([Attr(key, value)])
  {
    hide AttrsOf, Unescape, TrimStart, IsKey, IsRustSpace;
    NothingMore();
    AttrReadsBack(key, quoted, value, "", []);
    var text := key + "=\"" + quoted + "\"";
    assert text + "" == text && [Attr(key, value)] + [] == [Attr(key, value)];
  }

  lemma KindReadsBack(kind: AttachmentKind)
    ensures AttrsOf(KindText(kind)) == Some([Attr("kind", KindName(kind))])
  {
    assert IsKey("kind");
    hide AttrsOf, Unescape, TrimStart, KindName, KindOf, IsKey, IsRustSpace, Escape;
    KindNamesAreInert(kind);
    LastReadsBack("kind", KindName(kind), KindName(kind));
  }

  /** One more attribute, a space before those already read back. */
  lemma MoreReadsBack(key: string, value: string, tail: string, attrs: seq<Attr>)
    requires IsKey(key) && tail != "" && !IsRustSpace(tail[0]) && AttrsOf(tail) == Some(attrs)
    ensures AttrsOf(AttrText(key, value) + (" " + tail)) == Some([Attr(key, value)] + attrs)
  {
    hide AttrsOf, Unescape, Escape, TrimStart;
    TrimOneSpace(tail);
    EscapedIsInert(value);
    UnescapeUndoesEscape(value);
    AttrReadsBack(key, Escape(value), value, " " + tail, attrs);
    assert AttrText(key, value) + (" " + tail) == key + "=\"" + Escape(value) + "\"" + (" " + tail);
  }

  lemma StartsWithKey(key: string, value: string)
    requires key != ""
    ensures AttrText(key, value) != "" && AttrText(key, value)[0] == key[0]
  {
  }

  lemma BodyReadsBack(a: ChatAttachment)
    ensures AttrsOf(BodyText(a)) == Some([Attr("path", a.path), Attr("label", a.caption),
                                          Attr("kind", KindName(a.kind))])
  {
    hide AttrsOf, AttrText, KindName;
    var path, caption, kind := Attr("path", a.path), Attr("label", a.caption), Attr("kind", KindName(a.kind));
    KindReadsBack(a.kind);
    assert KindText(a.kind)[0] == 'k';
    MoreReadsBack("label", a.caption, KindText(a.kind), [kind]);
    StartsWithKey("label", a.caption);
    assert TailText(a)[0] == 'l';
    assert [caption] + [kind] == [caption, kind];
    MoreReadsBack("path", a.path, TailText(a), [caption, kind]);
    assert [path] + [caption, kind] == [path, caption, kind];
  }

  lemma NothingMore()
    ensures TrimStart("", IsRustSpace) == "" && AttrsOf("") == Some([])
  {
  }

  lemma {:induction false} TrimStartOf(space: string, s: string)
    requires (forall c <- space :: IsRustSpace(c)) && s != "" && !IsRustSpace(s[0])
    ensures TrimStart(space + s, IsRustSpace) == s
  {
    if space == "" {
      assert space + s == s;
    } else {
      assert space[0] in space;
      assert (space + s)[1..] == space[1..] + s;
      TrimStartOf(space[1..], s);
    }
  }

  lemma {:induction false} TrimEndOf(s: string, space: string)
    requires (forall c <- space :: IsRustSpace(c)) && s != "" && !IsRustSpace(s[|s| - 1])
    ensures TrimEnd(s + space, IsRustSpace) == s
  {
    if space == "" {
      assert s + space == s;
    } else {
      var last := |space| - 1;
      assert space[last] in space;
      assert (s + space)[..|s + space| - 1] == s + space[..last];
      TrimEndOf(s, space[..last]);
    }
  }

  lemma TrimAround(before: string, s: string, after: string)
    requires (forall c <- before :: IsRustSpace(c)) && (forall c <- after :: IsRustSpace(c))
    requires s != "" && !IsRustSpace(s[0]) && !IsRustSpace(s[|s| - 1])
    ensures RustTrim(before + s + after) == s
  {
    assert before + s + after == before + (s + after);
    TrimStartOf(before, s + after);
    TrimEndOf(s, after);
  }

  lemma BodyOfToken(before: string, a: ChatAttachment, after: string)
    requires (forall c <- before :: IsRustSpace(c)) && (forall c <- after :: IsRustSpace(c))
    ensures BodyOf(before + Format(a) + after) == Some(BodyText(a))
  {
    hide BodyText, RustTrim;
    var token, body := Format(a), BodyText(a);
    assert Opening()[0] == '<' && Closing()[2] == '>' && |Closing()| == 3;
    hide Opening, Closing;
    assert token[0] == Opening()[0] && token[|token| - 1] == Closing()[2];
    TrimAround(before, token, after);
    assert token[|Opening()|..] == body + Closing();
  }

  lemma FindsAll(path: string, caption: string, kind: AttachmentKind)
    ensures AttachmentOf([Attr("path", path), Attr("label", caption), Attr("kind", KindName(kind))])
         == Some(ChatAttachment(path, caption, kind))
  {
    KindNamesAreInert(kind);
    hide KindName, KindOf;
    var attrs := [Attr("path", path), Attr("label", caption), Attr("kind", KindName(kind))];
    var two, one := attrs[1..], attrs[1..][1..];
    assert two[0] == Attr("label", caption) && one[0] == Attr("kind", KindName(kind));
    assert "path" != "label" && "path" != "kind" && "label" != "kind";
    assert ValueOf(one, "kind") == Some(KindName(kind));
    assert ValueOf(two, "kind") == ValueOf(one, "kind") && ValueOf(two, "label") == Some(caption);
    assert ValueOf(attrs, "kind") == ValueOf(two, "kind") && ValueOf(attrs, "label") == ValueOf(two, "label");
  }

  /** Parsing undoes formatting for every path, label and kind, with any whitespace around the token. */
  lemma ParseUndoesFormat(before: string, a: ChatAttachment, after: string)
    requires (forall c <- before :: IsRustSpace(c)) && (forall c <- after :: IsRustSpace(c))
    ensures Parse(before + Format(a) + after) == Some(a)
  {
    hide Format, BodyOf, AttrsOf, AttachmentOf, KindName;
    BodyOfToken(before, a, after);
    BodyReadsBack(a);
    FindsAll(a.path, a.caption, a.kind);
    BodyNeedsNoTrim(a);
  }

  lemma BodyNeedsNoTrim(a: ChatAttachment)
    ensures RustTrim(BodyText(a)) == BodyText(a)
  {
    hide Escape, KindName;
    var body := BodyText(a);
    assert body[0] == 'p' && body[|body| - 1] == '"';
    TrimAround("", body, "");
    assert "" + body + "" == body;
  }

  lemma BodyHasNoBrackets(a: ChatAttachment)
    ensures '<' !in BodyText(a) && '>' !in BodyText(a)
  {
    EscapedIsInert(a.path);
    EscapedIsInert(a.caption);
    hide Escape;
    assert '<' !in KindName(a.kind) && '>' !in KindName(a.kind);
    assert '<' !in "path" && '>' !in "path" && '<' !in "label" && '>' !in "label" && '<' !in "kind" && '>' !in "kind";
    assert '<' !in "=\"" && '>' !in "=\"" && '<' !in "\"" && '>' !in "\"" && '<' !in " " && '>' !in " ";
  }

  lemma OnlyTheEnds(middle: string)
    requires '<' !in middle && '>' !in middle
    ensures var s := ['<'] + middle + ['>'];
            forall i :: 0 <= i < |s| ==> (s[i] == '<' <==> i == 0) && (s[i] == '>' <==> i == |s| - 1)
  {
    var s := ['<'] + middle + ['>'];
    assert forall i :: 0 < i < |s| - 1 ==> s[i] == middle[i - 1] && s[i] in middle;
  }

  /** A token's only angle brackets are its first and last characters, whatever it names. */
  lemma TokenIsBracketed(a: ChatAttachment)
    ensures var token := Format(a);
            forall i :: 0 <= i < |token| ==> (token[i] == '<' <==> i == 0) && (token[i] == '>' <==> i == |token| - 1)
  {
    BodyHasNoBrackets(a);
    hide BodyText;
    var middle := "archductor_attachment " + BodyText(a) + " /";
    assert '<' !in "archductor_attachment " && '>' !in "archductor_attachment " && '<' !in " /" && '>' !in " /";
    assert Opening() == ['<'] + "archductor_attachment " && Closing() == " /" + ['>'];
    assert Format(a) == ['<'] + middle + ['>'];
    OnlyTheEnds(middle);
  }
}
