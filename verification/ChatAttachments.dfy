/** Attachment tokens: how a chat message names a file it carries. */
module ChatAttachments {
  import opened Options
  import opened Text

  datatype AttachmentKind = File | Image | Plain

  datatype ChatAttachment = ChatAttachment(path: string, caption: string, kind: AttachmentKind)

  datatype Attr = Attr(key: string, value: string)

  function KindName(kind: AttachmentKind): string {
    match kind
    case File => "file"
    case Image => "image"
    case Plain => "text"
  }

  function KindOf(name: string): Option<AttachmentKind> {
    match name
    case "file" => Some(File)
    case "image" => Some(Image)
    case "text" => Some(Plain)
    case _ => None
  }

  // ---------------------------------------------------------------- escaping

  /** `str::replace` of a text: its occurrences from the left, none overlapping. */
  function ReplaceText(s: string, what: string, into: string): string
    requires what != ""
  {
    if s == "" then ""
    else if what <= s then into + ReplaceText(s[|what|..], what, into)
    else [s[0]] + ReplaceText(s[1..], what, into)
  }

  function Escape(value: string): string {
    var amp := ReplaceChar(value, '&', "&amp;");
    var quot := ReplaceChar(amp, '"', "&quot;");
    var lt := ReplaceChar(quot, '<', "&lt;");
    ReplaceChar(lt, '>', "&gt;")
  }

  function Unescape(value: string): string {
    var quot := ReplaceText(value, "&quot;", "\"");
    var lt := ReplaceText(quot, "&lt;", "<");
    var gt := ReplaceText(lt, "&gt;", ">");
    ReplaceText(gt, "&amp;", "&")
  }

  /** The characters that have an entity, in the order they are put back. */
  function Special(k: nat): char
    requires k < 4
  {
    match k
    case 0 => '"'
    case 1 => '<'
    case 2 => '>'
    case _ => '&'
  }

  function Entity(k: nat): (s: string)
    requires k < 4
    ensures |s| >= 3
  {
    match k
    case 0 => "&quot;"
    case 1 => "&lt;"
    case 2 => "&gt;"
    case _ => "&amp;"
  }

  /** A character, written as its entity if that is one of those not yet put back. */
  function Code(c: char, done: nat): (s: string)
    ensures s != ""
  {
    if c == '"' && done <= 0 then Entity(0)
    else if c == '<' && done <= 1 then Entity(1)
    else if c == '>' && done <= 2 then Entity(2)
    else if c == '&' && done <= 3 then Entity(3)
    else [c]
  }

  /** A value with its first `done` entities put back; at 0 every special character is an entity, at 4 none is. */
  function Coded(value: string, done: nat): string {
    if value == "" then "" else Code(value[0], done) + Coded(value[1..], done)
  }

  lemma ReplaceOne(c: char, into: string)
    ensures ReplaceChar([c], c, into) == into
  {
    assert [c][1..] == "" && into + "" == into;
  }

  lemma EscapeOne(c: char)
    ensures Escape([c]) == Code(c, 0)
  {
    hide ReplaceChar;
    if c == '&' {
      ReplaceOne(c, "&amp;");
      ReplaceAbsent("&amp;", '"', "&quot;");
      ReplaceAbsent("&amp;", '<', "&lt;");
      ReplaceAbsent("&amp;", '>', "&gt;");
    } else {
      ReplaceAbsent([c], '&', "&amp;");
      if c == '"' {
        ReplaceOne(c, "&quot;");
        ReplaceAbsent("&quot;", '<', "&lt;");
        ReplaceAbsent("&quot;", '>', "&gt;");
      } else {
        ReplaceAbsent([c], '"', "&quot;");
        if c == '<' {
          ReplaceOne(c, "&lt;");
          ReplaceAbsent("&lt;", '>', "&gt;");
        } else {
          ReplaceAbsent([c], '<', "&lt;");
          if c == '>' {
            ReplaceOne(c, "&gt;");
          } else {
            ReplaceAbsent([c], '>', "&gt;");
          }
        }
      }
    }
  }

  lemma EscapeJoins(a: string, b: string)
    ensures Escape(a + b) == Escape(a) + Escape(b)
  {
    hide ReplaceChar;
    ReplaceCharJoins(a, b, '&', "&amp;");
    var x, y := ReplaceChar(a, '&', "&amp;"), ReplaceChar(b, '&', "&amp;");
    ReplaceCharJoins(x, y, '"', "&quot;");
    x, y := ReplaceChar(x, '"', "&quot;"), ReplaceChar(y, '"', "&quot;");
    ReplaceCharJoins(x, y, '<', "&lt;");
    x, y := ReplaceChar(x, '<', "&lt;"), ReplaceChar(y, '<', "&lt;");
    ReplaceCharJoins(x, y, '>', "&gt;");
  }

  lemma EscapeNothing()
    ensures Escape("") == ""
  {
  }

  /** The chained replacements escape each character once: none undoes or redoes another's work. */
  lemma {:induction false} EscapeIsCoded(value: string)
    ensures Escape(value) == Coded(value, 0)
  {
    hide Escape, Code;
    if value == "" {
      EscapeNothing();
    } else {
      EscapeJoins([value[0]], value[1..]);
      EscapeOne(value[0]);
      EscapeIsCoded(value[1..]);
      assert [value[0]] + value[1..] == value;
    }
  }

  lemma {:induction false} ReplaceTextPasses(token: string, rest: string, what: string, into: string)
    requires what != "" && what[0] !in token
    ensures ReplaceText(token + rest, what, into) == token + ReplaceText(rest, what, into)
  {
    if token == "" {
      assert token + rest == rest;
    } else {
      assert (token + rest)[1..] == token[1..] + rest;
      assert !(what <= token + rest) by {
        assert (token + rest)[0] == token[0];
      }
      ReplaceTextPasses(token[1..], rest, what, into);
      assert token == [token[0]] + token[1..];
    }
  }

  /** An entity other than the one being put back is passed over, whatever follows it. */
  lemma OtherEntityPasses(i: nat, k: nat, rest: string)
    requires i < 4 && k < 4 && i != k
    ensures ReplaceText(Entity(i) + rest, Entity(k), [Special(k)])
         == Entity(i) + ReplaceText(rest, Entity(k), [Special(k)])
  {
    var token, what := Entity(i), Entity(k);
    assert token[0] == what[0] == '&' && token[1] != what[1];
    assert (token + rest)[1] == token[1] && (token + rest)[1..] == token[1..] + rest;
    assert !(what <= token + rest);
    assert what[0] !in token[1..];
    hide Entity;
    ReplaceTextPasses(token[1..], rest, what, [Special(k)]);
    assert token == [token[0]] + token[1..];
  }

  lemma OwnEntityIsReplaced(k: nat, rest: string)
    requires k < 4
    ensures ReplaceText(Entity(k) + rest, Entity(k), [Special(k)])
         == [Special(k)] + ReplaceText(rest, Entity(k), [Special(k)])
  {
    hide Entity;
    assert (Entity(k) + rest)[|Entity(k)|..] == rest;
  }

  lemma CodeStep(c: char, k: nat, rest: string)
    requires k < 4
    ensures ReplaceText(Code(c, k) + rest, Entity(k), [Special(k)])
         == Code(c, k + 1) + ReplaceText(rest, Entity(k), [Special(k)])
  {
    assert Entity(k)[0] == '&';
    hide Entity, ReplaceText;
    if c == Special(k) {
      OwnEntityIsReplaced(k, rest);
    } else if i: nat :| i < 4 && c == Special(i) && k <= i {
      OtherEntityPasses(i, k, rest);
    } else {
      assert Special(0) == '"' && Special(1) == '<' && Special(2) == '>' && Special(3) == '&';
      assert Code(c, k) == Code(c, k + 1) == [c];
      ReplaceTextPasses([c], rest, Entity(k), [Special(k)]);
    }
  }

  /** Putting one entity back leaves the others alone, even next to text that looks like it. */
  lemma {:induction false} CodedStep(value: string, k: nat)
    requires k < 4
    ensures ReplaceText(Coded(value, k), Entity(k), [Special(k)]) == Coded(value, k + 1)
  {
    hide Code, Entity;
    if value != "" {
      CodeStep(value[0], k, Coded(value[1..], k));
      CodedStep(value[1..], k);
    }
  }

  lemma {:induction false} CodedAtLast(value: string)
    ensures Coded(value, 4) == value
  {
    if value != "" {
      CodedAtLast(value[1..]);
    }
  }

  /** For every value, entity look-alikes included, unescaping undoes escaping. */
  lemma UnescapeUndoesEscape(value: string)
    ensures Unescape(Escape(value)) == value
  {
    hide ReplaceText, Coded, Escape;
    EscapeIsCoded(value);
    CodedStep(value, 0);
    CodedStep(value, 1);
    CodedStep(value, 2);
    CodedStep(value, 3);
    CodedAtLast(value);
  }

  /** An escaped value cannot end its attribute, open a token or close one. */
  lemma {:induction false} EscapedIsInert(value: string)
    ensures '"' !in Escape(value) && '<' !in Escape(value) && '>' !in Escape(value)
  {
    EscapeIsCoded(value);
    hide Escape;
    if value != "" {
      EscapedIsInert(value[1..]);
      EscapeIsCoded(value[1..]);
    }
  }
}
