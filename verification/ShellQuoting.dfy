/** Command lines for a POSIX shell, and the tokeniser that has to read them back. */
module ShellQuoting {
  import opened Options
  import opened Text

  // ---------------------------------------------------------------- the quoting

  predicate IsSafe(c: char) {
    'a' <= c <= 'z' || 'A' <= c <= 'Z' || '0' <= c <= '9' || c == '/' || c == '.' || c == '_' || c == '-'
  }

  predicate AllSafe(s: string) {
    forall i :: 0 <= i < |s| ==> IsSafe(s[i])
  }

  /** A quote of its own in double quotes, between two stretches in single ones. */
  function QuotedQuote(): string {
    "'\"'\"'"
  }

  function QuoteShellWord(value: string): string {
    if AllSafe(value) then value else "'" + ReplaceChar(value, '\'', QuotedQuote()) + "'"
  }

  /** One word of a command line: a quoted value, or a variable set to one. */
  datatype Piece = Word(value: string) | Assignment(name: string, value: string)

  function PieceText(piece: Piece): string {
    match piece
    case Word(value) => QuoteShellWord(value)
    case Assignment(name, value) => name + "=" + QuoteShellWord(value)
  }

  /** Words with a space between them. */
  function JoinPieces(pieces: seq<Piece>): string {
    if pieces == [] then ""
    else if |pieces| == 1 then PieceText(pieces[0])
    else PieceText(pieces[0]) + " " + JoinPieces(pieces[1..])
  }

  function Words(values: seq<string>): (pieces: seq<Piece>)
    ensures |pieces| == |values| && forall i :: 0 <= i < |values| ==> pieces[i] == Word(values[i])
  {
    seq(|values|, i requires 0 <= i < |values| => Word(values[i]))
  }

  function ShellWords(program: string, args: seq<string>): string {
    JoinPieces(Words([program] + args))
  }

  // ---------------------------------------------------------------- the shell's reading

  datatype Token = Value(text: string) | AndIf

  datatype Mode = Bare | Single | Double

  /** What means something else to a shell when unquoted (section 2.2), spaces, quotes and `&` aside. */
  predicate IsActive(c: char) {
    c in "|;<>()$`\n*?[#~%!{}"
  }

  function TextOf(word: Option<string>): string {
    if word.Some? then word.value else ""
  }

  /** The token a word in progress becomes where it is delimited. */
  function Delimited(word: Option<string>): seq<Token> {
    if word.Some? then [Value(word.value)] else []
  }

  function Prepend(tokens: seq<Token>, rest: Option<seq<Token>>): Option<seq<Token>> {
    match rest
    case None => None
    case Some(more) => Some(tokens + more)
  }

  /**
   * Token recognition (section 2.3 of the POSIX Shell Command Language) with its quoting: backslash (2.2.1), single
   * quotes (2.2.2), double quotes (2.2.3). No answer where a quote is left open, or where anything would be
   * expanded, globbed or taken for an operator other than `&&`.
   */
  function Tokens(s: string, word: Option<string>, mode: Mode): Option<seq<Token>>
    decreases |s|
  {
    match mode
    case Bare =>
      if s == "" then Some(Delimited(word))
      else if s[0] == ' ' || s[0] == '\t' then Prepend(Delimited(word), Tokens(s[1..], None, Bare))
      else if s[0] == '\'' then Tokens(s[1..], Some(TextOf(word)), Single)
      else if s[0] == '"' then Tokens(s[1..], Some(TextOf(word)), Double)
      else if s[0] == '\\' then
        if |s| == 1 then None
        else if s[1] == '\n' then Tokens(s[2..], word, Bare)
        else Tokens(s[2..], Some(TextOf(word) + [s[1]]), Bare)
      else if s[0] == '&' then
        if |s| > 1 && s[1] == '&' then Prepend(Delimited(word) + [AndIf], Tokens(s[2..], None, Bare)) else None
      else if IsActive(s[0]) then None
      else Tokens(s[1..], Some(TextOf(word) + [s[0]]), Bare)
    case Single =>
      if s == "" then None
      else if s[0] == '\'' then Tokens(s[1..], word, Bare)
      else Tokens(s[1..], Some(TextOf(word) + [s[0]]), Single)
    case Double =>
      if s == "" then None
      else if s[0] == '"' then Tokens(s[1..], word, Bare)
      else if s[0] == '$' || s[0] == '`' then None
      else if s[0] == '\\' && |s| > 1 && s[1] == '\n' then Tokens(s[2..], word, Double)
      else if s[0] == '\\' && |s| > 1 && s[1] in "$`\"\\" then Tokens(s[2..], Some(TextOf(word) + [s[1]]), Double)
      else Tokens(s[1..], Some(TextOf(word) + [s[0]]), Double)
  }

  function Tokenize(line: string): Option<seq<Token>> {
    Tokens(line, None, Bare)
  }

  // ---------------------------------------------------------------- reading a word back

  /** A word in progress, with `text` added to it. */
  function Grown(word: Option<string>, text: string): Option<string> {
    if text == "" then word else Some(TextOf(word) + text)
  }

  lemma OrdinaryStep(c: char, word: Option<string>, rest: string)
    requires IsSafe(c) || c == '='
    ensures Tokens([c] + rest, word, Bare) == Tokens(rest, Some(TextOf(word) + [c]), Bare)
  {
    assert ([c] + rest)[1..] == rest;
  }

  lemma {:induction false} SafeIsRead(s: string, word: Option<string>, rest: string)
    requires AllSafe(s)
    ensures Tokens(s + rest, word, Bare) == Tokens(rest, Grown(word, s), Bare)
  {
    hide Tokens;
    if s == "" {
      assert s + rest == rest;
    } else {
      assert s + rest == [s[0]] + (s[1..] + rest);
      OrdinaryStep(s[0], word, s[1..] + rest);
      SafeIsRead(s[1..], Some(TextOf(word) + [s[0]]), rest);
      assert TextOf(word) + [s[0]] + s[1..] == TextOf(word) + s;
      assert s[1..] == "" ==> s == [s[0]];
    }
  }

  lemma SingleStep(c: char, text: string, rest: string)
    requires c != '\''
    ensures Tokens([c] + rest, Some(text), Single) == Tokens(rest, Some(text + [c]), Single)
  {
    assert ([c] + rest)[1..] == rest;
  }

  lemma SingleEnds(text: string, rest: string)
    ensures Tokens("'" + rest, Some(text), Single) == Tokens(rest, Some(text), Bare)
  {
    assert ("'" + rest)[1..] == rest;
  }

  /** Out of single quotes, one quote in double quotes, and back in. */
  lemma QuotedQuoteIsRead(text: string, rest: string)
    ensures Tokens(QuotedQuote() + rest, Some(text), Single) == Tokens(rest, Some(text + "'"), Single)
  {
    var s4 := "'" + rest;
    var s3 := "\"" + s4;
    var s2 := "'" + s3;
    var s1 := "\"" + s2;
    assert s4[1..] == rest && s3[1..] == s4 && s2[1..] == s3 && s1[1..] == s2;
    assert QuotedQuote() + rest == "'" + s1;
    SingleEnds(text, s1);
    assert Tokens(s1, Some(text), Bare) == Tokens(s2, Some(text), Double);
    assert Tokens(s2, Some(text), Double) == Tokens(s3, Some(text + "'"), Double);
    assert Tokens(s3, Some(text + "'"), Double) == Tokens(s4, Some(text + "'"), Bare);
  }

  lemma {:induction false} SingleQuotedIsRead(value: string, text: string, rest: string)
    ensures Tokens(ReplaceChar(value, '\'', QuotedQuote()) + ("'" + rest), Some(text), Single)
         == Tokens(rest, Some(text + value), Bare)
  {
    hide Tokens, QuotedQuote;
    if value == "" {
      assert ReplaceChar(value, '\'', QuotedQuote()) + ("'" + rest) == "'" + rest;
      assert text + value == text;
      SingleEnds(text, rest);
    } else {
      var first, others := value[0], ReplaceChar(value[1..], '\'', QuotedQuote());
      var next := text + [first];
      SingleQuotedIsRead(value[1..], next, rest);
      assert next + value[1..] == text + value;
      if first == '\'' {
        assert ReplaceChar(value, '\'', QuotedQuote()) + ("'" + rest) == QuotedQuote() + (others + ("'" + rest));
        QuotedQuoteIsRead(text, others + ("'" + rest));
        assert next == text + "'";
      } else {
        assert ReplaceChar(value, '\'', QuotedQuote()) + ("'" + rest) == [first] + (others + ("'" + rest));
        SingleStep(first, text, others + ("'" + rest));
      }
    }
  }

  lemma SingleBegins(word: Option<string>, rest: string)
    ensures Tokens("'" + rest, word, Bare) == Tokens(rest, Some(TextOf(word)), Single)
  {
    assert ("'" + rest)[1..] == rest;
  }

  /** A quoted value adds itself to the word in progress, whatever it holds and whatever follows. */
  lemma QuotedIsRead(value: string, word: Option<string>, rest: string)
    ensures Tokens(QuoteShellWord(value) + rest, word, Bare) == Tokens(rest, Grown(word, value), Bare)
  {
    hide Tokens, QuotedQuote, ReplaceChar;
    if AllSafe(value) {
      SafeIsRead(value, word, rest);
    } else {
      var inner := ReplaceChar(value, '\'', QuotedQuote());
      assert QuoteShellWord(value) + rest == "'" + (inner + ("'" + rest));
      SingleBegins(word, inner + ("'" + rest));
      SingleQuotedIsRead(value, TextOf(word), rest);
    }
  }

  ghost predicate IsPiece(piece: Piece) {
    piece.Assignment? ==> piece.name != "" && AllSafe(piece.name)
  }

  /** What the shell should make of a word; an empty value vanishes, since nothing is written for it. */
  function Meaning(piece: Piece): seq<Token> {
    match piece
    case Word(value) => if value == "" then [] else [Value(value)]
    case Assignment(name, value) => [Value(name + "=" + value)]
  }

  function Meanings(pieces: seq<Piece>): seq<Token> {
    if pieces == [] then [] else Meaning(pieces[0]) + Meanings(pieces[1..])
  }

  /** A place where a word ends. */
  ghost predicate EndsWord(rest: string) {
    rest == "" || rest[0] == ' '
  }

  lemma PrependTwice(a: seq<Token>, b: seq<Token>, rest: Option<seq<Token>>)
    ensures Prepend(a, Prepend(b, rest)) == Prepend(a + b, rest)
    ensures Prepend([], rest) == rest
  {
    if rest.Some? {
      assert a + (b + rest.value) == a + b + rest.value;
      assert [] + rest.value == rest.value;
    }
  }

  lemma WordEnds(word: Option<string>, rest: string)
    requires EndsWord(rest)
    ensures Tokens(rest, word, Bare) == Prepend(Delimited(word), Tokens(rest, None, Bare))
  {
    PrependTwice(Delimited(word), [], if rest == "" then Some([]) else Tokens(rest[1..], None, Bare));
    assert Delimited(word) + [] == Delimited(word);
  }

  lemma PieceIsRead(piece: Piece, rest: string)
    requires IsPiece(piece) && EndsWord(rest)
    ensures Tokens(PieceText(piece) + rest, None, Bare) == Prepend(Meaning(piece), Tokens(rest, None, Bare))
  {
    hide Tokens, QuoteShellWord, EndsWord;
    match piece
    case Word(value) =>
      QuotedIsRead(value, None, rest);
      assert value != "" ==> "" + value == value;
      WordEnds(Grown(None, value), rest);
    case Assignment(name, value) =>
      var quoted := QuoteShellWord(value) + rest;
      assert PieceText(piece) + rest == name + (['='] + quoted);
      SafeIsRead(name, None, ['='] + quoted);
      assert "" + name == name;
      OrdinaryStep('=', Some(name), quoted);
      QuotedIsRead(value, Some(name + "="), rest);
      assert value == "" ==> name + "=" + value == name + "=";
      WordEnds(Some(name + "=" + value), rest);
  }

  lemma SpaceIsRead(rest: string)
    ensures Tokens(" " + rest, None, Bare) == Tokens(rest, None, Bare)
  {
    assert (" " + rest)[1..] == rest;
    PrependTwice([], [], Tokens(rest, None, Bare));
  }

  lemma {:induction false} PiecesAreRead(pieces: seq<Piece>, rest: string)
    requires (forall piece <- pieces :: IsPiece(piece)) && EndsWord(rest)
    ensures Tokens(JoinPieces(pieces) + rest, None, Bare) == Prepend(Meanings(pieces), Tokens(rest, None, Bare))
  {
    hide Tokens, PieceText, IsPiece, Meaning, EndsWord;
    if pieces == [] {
      assert JoinPieces(pieces) + rest == rest;
      PrependTwice([], [], Tokens(rest, None, Bare));
    } else if |pieces| == 1 {
      assert pieces[0] in pieces;
      PieceIsRead(pieces[0], rest);
      assert Meanings(pieces[1..]) == [] && Meaning(pieces[0]) + [] == Meaning(pieces[0]);
    } else {
      var first, others := PieceText(pieces[0]), JoinPieces(pieces[1..]);
      assert pieces[0] in pieces;
      assert JoinPieces(pieces) + rest == first + (" " + (others + rest));
      SpaceEndsWord(others + rest);
      PieceIsRead(pieces[0], " " + (others + rest));
      SpaceIsRead(others + rest);
      PiecesAreRead(pieces[1..], rest);
      PrependTwice(Meaning(pieces[0]), Meanings(pieces[1..]), Tokens(rest, None, Bare));
    }
  }

  lemma SpaceEndsWord(rest: string)
    ensures EndsWord(" " + rest) && EndsWord("")
  {
  }

  // ---------------------------------------------------------------- whole lines

  function NonEmpty(values: seq<string>): seq<string> {
    if values == [] then []
    else (if values[0] == "" then [] else [values[0]]) + NonEmpty(values[1..])
  }

  function Values(values: seq<string>): (tokens: seq<Token>)
    ensures |tokens| == |values| && forall i :: 0 <= i < |values| ==> tokens[i] == Value(values[i])
  {
    seq(|values|, i requires 0 <= i < |values| => Value(values[i]))
  }

  lemma {:induction false} MeaningsOfWords(values: seq<string>)
    ensures Meanings(Words(values)) == Values(NonEmpty(values))
  {
    if values != [] {
      MeaningsOfWords(values[1..]);
      assert Words(values)[1..] == Words(values[1..]);
    }
  }

  /** A command line is read back as its words, less the empty ones. */
  lemma ShellWordsAreRead(program: string, args: seq<string>)
    ensures Tokenize(ShellWords(program, args)) == Some(Values(NonEmpty([program] + args)))
  {
    hide Tokens, JoinPieces, Words, Values, NonEmpty, Meanings;
    var words := [program] + args;
    SpaceEndsWord("");
    PiecesAreRead(Words(words), "");
    MeaningsOfWords(words);
    assert JoinPieces(Words(words)) + "" == JoinPieces(Words(words));
    assert Tokens("", None, Bare) == Some([]) by {
      NothingIsRead();
    }
    assert Values(NonEmpty(words)) + [] == Values(NonEmpty(words));
  }

  lemma NothingIsRead()
    ensures Tokens("", None, Bare) == Some([])
  {
  }

  lemma {:induction false} NonEmptyIsShorter(values: seq<string>)
    ensures |NonEmpty(values)| <= |values|
    ensures |NonEmpty(values)| == |values| <==> "" !in values
    ensures "" !in values ==> NonEmpty(values) == values
  {
    if values != [] {
      NonEmptyIsShorter(values[1..]);
      assert values == [values[0]] + values[1..];
    }
  }

  /** The words come back as they were exactly when none of them is empty. */
  lemma RoundTripExactlyWhenNonEmpty(program: string, args: seq<string>)
    ensures Tokenize(ShellWords(program, args)) == Some(Values([program] + args)) <==> program != "" && "" !in args
  {
    hide Tokens, ShellWords, NonEmpty;
    var words := [program] + args;
    ShellWordsAreRead(program, args);
    NonEmptyIsShorter(words);
    assert "" in words <==> program == "" || "" in args;
    if "" in words {
      assert |Values(NonEmpty(words))| != |Values(words)|;
    }
  }

  /** An empty argument is lost: the program is started with one argument fewer. */
  lemma EmptyArgumentIsLost()
    ensures Tokenize(ShellWords("git", ["commit", "-m", ""])) == Tokenize(ShellWords("git", ["commit", "-m"]))
  {
    hide Tokens, ShellWords;
    ShellWordsAreRead("git", ["commit", "-m", ""]);
    ShellWordsAreRead("git", ["commit", "-m"]);
    var short, long := ["git", "commit", "-m"], ["git", "commit", "-m", ""];
    assert ["git"] + ["commit", "-m", ""] == long && ["git"] + ["commit", "-m"] == short;
    assert long[1..][1..][1..][1..] == [] && short[1..][1..][1..] == [];
    assert NonEmpty(long[1..][1..]) == ["-m"] && NonEmpty(short[1..][1..]) == ["-m"];
    assert NonEmpty(long[1..]) == ["commit", "-m"] && NonEmpty(short[1..]) == ["commit", "-m"];
  }
}
