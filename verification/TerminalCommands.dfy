/** The command a terminal emulator is started with, and what reaches the shell through each kind of wrapper. */
module TerminalCommands {
  import opened Options
  import opened Text
  import opened ShellQuoting

  datatype SessionLaunch = SessionLaunch(program: string, args: seq<string>, cwd: string, env: seq<(string, string)>)

  datatype TerminalInvocation = TerminalInvocation(program: string, args: seq<string>)

  // ---------------------------------------------------------------- the session's command

  function Assignments(env: seq<(string, string)>): (pieces: seq<Piece>)
    ensures |pieces| == |env| && forall i :: 0 <= i < |env| ==> pieces[i] == Assignment(env[i].0, env[i].1)
  {
    seq(|env|, i requires 0 <= i < |env| => Assignment(env[i].0, env[i].1))
  }

  function InteractiveSessionCommand(launch: SessionLaunch): string {
    "exec " + ShellWords(launch.program, launch.args)
  }

  function RenderManualSessionCommand(launch: SessionLaunch): string {
    var command := InteractiveSessionCommand(launch);
    var withEnv := if launch.env == [] then command else JoinPieces(Assignments(launch.env)) + " " + command;
    "cd " + QuoteShellWord(launch.cwd) + " && " + withEnv
  }

  function EnvTokens(env: seq<(string, string)>): (tokens: seq<Token>)
    ensures |tokens| == |env| && forall i :: 0 <= i < |env| ==> tokens[i] == Value(env[i].0 + "=" + env[i].1)
  {
    seq(|env|, i requires 0 <= i < |env| => Value(env[i].0 + "=" + env[i].1))
  }

  lemma {:induction false} MeaningsOfAssignments(env: seq<(string, string)>)
    ensures Meanings(Assignments(env)) == EnvTokens(env)
  {
    if env != [] {
      MeaningsOfAssignments(env[1..]);
      assert Assignments(env)[1..] == Assignments(env[1..]);
    }
  }

  /** Names a shell takes as the left of an assignment are of safe characters. */
  ghost predicate AreNames(env: seq<(string, string)>) {
    forall i :: 0 <= i < |env| ==> env[i].0 != "" && AllSafe(env[i].0)
  }

  lemma ExecIsRead(launch: SessionLaunch)
    ensures Tokens(InteractiveSessionCommand(launch), None, Bare)
         == Some([Value("exec")] + Values(NonEmpty([launch.program] + launch.args)))
  {
    hide Tokens, ShellWords, NonEmpty, Values;
    var words := ShellWords(launch.program, launch.args);
    ShellWordsAreRead(launch.program, launch.args);
    assert AllSafe("exec") && QuoteShellWord("exec") == "exec";
    assert InteractiveSessionCommand(launch) == "exec" + (" " + words);
    SpaceEndsWord(words);
    PieceIsRead(Word("exec"), " " + words);
    SpaceIsRead(words);
  }

  lemma AndIfIsRead(rest: string)
    ensures Tokens(" && " + rest, None, Bare) == Prepend([AndIf], Tokens(rest, None, Bare))
  {
    var s := "&& " + rest;
    assert " && " + rest == " " + s;
    SpaceIsRead(s);
    assert s[2..] == " " + rest;
    SpaceIsRead(rest);
    assert [] + [AndIf] == [AndIf];
  }

  lemma EnvIsRead(launch: SessionLaunch, command: string)
    requires AreNames(launch.env) && launch.env != []
    ensures Tokens(JoinPieces(Assignments(launch.env)) + " " + command, None, Bare)
         == Prepend(EnvTokens(launch.env), Tokens(command, None, Bare))
  {
    hide Tokens, JoinPieces, Meanings;
    SpaceEndsWord(command);
    PiecesAreRead(Assignments(launch.env), " " + command);
    MeaningsOfAssignments(launch.env);
    SpaceIsRead(command);
    assert JoinPieces(Assignments(launch.env)) + " " + command == JoinPieces(Assignments(launch.env)) + (" " + command);
  }

  lemma CdIsRead(cwd: string, rest: string)
    ensures Tokens("cd " + QuoteShellWord(cwd) + " && " + rest, None, Bare)
         == Prepend([Value("cd")] + Values(NonEmpty([cwd])) + [AndIf], Tokens(rest, None, Bare))
  {
    hide Tokens;
    var tail := " && " + rest;
    assert AllSafe("cd") && QuoteShellWord("cd") == "cd";
    assert "cd " + QuoteShellWord(cwd) + " && " + rest == "cd" + (" " + (QuoteShellWord(cwd) + tail));
    hide QuoteShellWord;
    SpaceEndsWord(QuoteShellWord(cwd) + tail);
    SpaceEndsWord("&& " + rest);
    assert tail == " " + ("&& " + rest);
    PieceIsRead(Word("cd"), " " + (QuoteShellWord(cwd) + tail));
    SpaceIsRead(QuoteShellWord(cwd) + tail);
    PieceIsRead(Word(cwd), tail);
    AndIfIsRead(rest);
    MeaningOfCwd(cwd);
    var after := Tokens(rest, None, Bare);
    PrependTwice(Values(NonEmpty([cwd])), [AndIf], after);
    PrependTwice([Value("cd")], Values(NonEmpty([cwd])) + [AndIf], after);
    assert [Value("cd")] + (Values(NonEmpty([cwd])) + [AndIf]) == [Value("cd")] + Values(NonEmpty([cwd])) + [AndIf];
  }

  lemma MeaningOfCwd(cwd: string)
    ensures Meaning(Word(cwd)) == Values(NonEmpty([cwd]))
  {
    assert [cwd][1..] == [];
  }

  /** What a shell should be asked to do: change directory, then replace itself under the session's variables. */
  function Request(launch: SessionLaunch): seq<Token> {
    [Value("cd")] + Values(NonEmpty([launch.cwd])) + [AndIf]
    + (EnvTokens(launch.env) + ([Value("exec")] + Values(NonEmpty([launch.program] + launch.args))))
  }

  /** And is: whatever the directory, the values of the variables, the program and its arguments hold. */
  lemma RenderedCommandIsRead(launch: SessionLaunch)
    requires AreNames(launch.env)
    ensures Tokenize(RenderManualSessionCommand(launch)) == Some(Request(launch))
  {
    hide Tokens, JoinPieces, Values, NonEmpty, InteractiveSessionCommand;
    var command := InteractiveSessionCommand(launch);
    var withEnv := if launch.env == [] then command else JoinPieces(Assignments(launch.env)) + " " + command;
    ExecIsRead(launch);
    var exec := [Value("exec")] + Values(NonEmpty([launch.program] + launch.args));
    if launch.env == [] {
      assert EnvTokens(launch.env) + exec == exec;
    } else {
      EnvIsRead(launch, command);
    }
    CdIsRead(launch.cwd, withEnv);
  }

  // ---------------------------------------------------------------- the wrappers

  /** `\` and `"` behind a backslash. */
  function EscapeAppleScript(s: string): string {
    ReplaceChar(ReplaceChar(s, '\\', "\\\\"), '"', "\\\"")
  }

  function Wrapped(command: string): string {
    "bash -lc " + QuoteShellWord(command)
  }

  function DoScript(command: string): string {
    "tell application \"Terminal\" to do script " + ("\"" + EscapeAppleScript(command) + "\"")
  }

  /** What comes before the shell where a terminal takes the command as words of its own. */
  function WordsBefore(key: string): Option<seq<string>> {
    if key in ["gnome-terminal", "kgx"] then Some(["--"])
    else if key in ["konsole", "alacritty", "kitty", "xterm"] then Some(["-e"])
    else if key == "foot" then Some([])
    else if key == "wezterm" then Some(["start", "--"])
    else None
  }

  /** The option of a terminal that takes the command as one line and splits it itself. */
  function LineOption(key: string): Option<string> {
    if key in ["tilix", "terminator"] then Some("-e") else if key == "xfce4-terminal" then Some("--command") else None
  }

  predicate IsWindows(key: string) {
    key in ["wt", "wt.exe", "windows-terminal"]
  }

  predicate IsMac(key: string) {
    key in ["macos-terminal", "terminal.app"]
  }

  function BuildTerminalInvocation(terminal: string, key: string, command: string): Option<TerminalInvocation> {
    if IsWindows(key) then
      Some(TerminalInvocation(terminal, ["new-tab", "cmd.exe", "/D", "/S", "/C", command]))
    else if IsMac(key) then
      Some(TerminalInvocation("osascript",
                              ["-e", DoScript(command), "-e", "tell application \"Terminal\" to activate"]))
    else if WordsBefore(key).Some? then
      Some(TerminalInvocation(terminal, WordsBefore(key).value + ["bash", "-lc", command]))
    else if LineOption(key).Some? then
      Some(TerminalInvocation(terminal, [LineOption(key).value, Wrapped(command)]))
    else None
  }

  /** A wrapped command splits into the shell, its flags and the command itself, one level of quoting gone. */
  lemma WrappingIsUndone(command: string)
    ensures Tokenize(Wrapped(command)) == Some(Values(["bash"] + (["-lc"] + NonEmpty([command]))))
  {
    hide Tokens, ShellWords, QuoteShellWord, NonEmpty, Wrapped;
    WrappedIsShellWords(command);
    ShellWordsAreRead("bash", ["-lc", command]);
    NonEmptyOfWrapped(command);
  }

  lemma WrappedIsShellWords(command: string)
    ensures Wrapped(command) == ShellWords("bash", ["-lc", command])
  {
    assert AllSafe("bash") && AllSafe("-lc");
    var pieces := Words(["bash"] + ["-lc", command]);
    assert pieces[1..][1..] == [Word(command)];
    assert JoinPieces(pieces[1..]) == "-lc" + " " + QuoteShellWord(command);
    assert JoinPieces(pieces) == "bash" + " " + ("-lc" + " " + QuoteShellWord(command));
  }

  lemma NonEmptyOfWrapped(command: string)
    ensures NonEmpty(["bash"] + ["-lc", command]) == ["bash"] + (["-lc"] + NonEmpty([command]))
  {
    var words := ["bash"] + ["-lc", command];
    assert words[1..][1..] == [command];
    assert NonEmpty(words[1..]) == ["-lc"] + NonEmpty([command]);
    assert NonEmpty(words) == ["bash"] + NonEmpty(words[1..]);
  }

  /** The command under `levels` wrappers, each quoting the last. */
  function Nested(command: string, levels: nat): string {
    if levels == 0 then command else Wrapped(Nested(command, levels - 1))
  }

  /** What the shell under `levels` wrappers is given, each level read by the one above. */
  function Unwrapped(line: string, levels: nat): Option<string>
    decreases levels
  {
    if levels == 0 then Some(line)
    else
      match Tokenize(line)
      case None => None
      case Some(tokens) =>
        if |tokens| == 3 && tokens[0] == Value("bash") && tokens[1] == Value("-lc") && tokens[2].Value?
        then Unwrapped(tokens[2].text, levels - 1)
        else None
  }

  lemma {:induction false} NestingIsUndone(command: string, levels: nat)
    requires command != ""
    ensures Nested(command, levels) != "" && Unwrapped(Nested(command, levels), levels) == Some(command)
  {
    if levels > 0 {
      var inner := Nested(command, levels - 1);
      NestingIsUndone(command, levels - 1);
      WrappingIsUndone(inner);
      hide Tokens, QuoteShellWord;
      assert [inner][1..] == [] && NonEmpty([inner]) == [inner];
    }
  }

  /** What an AppleScript string literal stands for, read from behind its opening quote. */
  function AppleScriptString(s: string): Option<string> {
    if s == "" then None
    else if s[0] == '"' then if |s| == 1 then Some("") else None
    else if s[0] == '\\' then
      if |s| == 1 || (s[1] != '\\' && s[1] != '"') then None
      else
        match AppleScriptString(s[2..])
        case None => None
        case Some(more) => Some([s[1]] + more)
    else
      match AppleScriptString(s[1..])
      case None => None
      case Some(more) => Some([s[0]] + more)
  }

  lemma EscapeAppleScriptStep(c: char, s: string)
    ensures EscapeAppleScript([c] + s)
         == (if c == '\\' || c == '"' then ['\\', c] else [c]) + EscapeAppleScript(s)
  {
    var once := ReplaceChar(s, '\\', "\\\\");
    var first := if c == '\\' then "\\\\" else [c];
    assert ([c] + s)[1..] == s;
    assert ReplaceChar([c] + s, '\\', "\\\\") == first + once;
    ReplaceCharJoins(first, once, '"', "\\\"");
    if c == '"' {
      assert [c][1..] == "" && ReplaceChar([c], '"', "\\\"") == "\\\"" + "";
    } else {
      ReplaceAbsent(first, '"', "\\\"");
    }
  }

  /** The literal handed to AppleScript stands for the command. */
  lemma {:induction false} AppleScriptReadsBack(s: string)
    ensures AppleScriptString(EscapeAppleScript(s) + "\"") == Some(s)
  {
    if s == "" {
      assert EscapeAppleScript(s) + "\"" == "\"";
    } else {
      AppleScriptReadsBack(s[1..]);
      assert s == [s[0]] + s[1..];
      EscapeAppleScriptStep(s[0], s[1..]);
      var tail := EscapeAppleScript(s[1..]) + "\"";
      hide EscapeAppleScript;
      if s[0] == '\\' || s[0] == '"' {
        assert EscapeAppleScript(s) + "\"" == ['\\', s[0]] + tail;
        assert (['\\', s[0]] + tail)[2..] == tail;
      } else {
        assert EscapeAppleScript(s) + "\"" == [s[0]] + tail;
        assert ([s[0]] + tail)[1..] == tail;
      }
    }
  }

  /** The words a terminal of this kind starts: the line it splits, or the last three words it was given. */
  function Started(key: string, args: seq<string>): Option<seq<Token>> {
    if LineOption(key).Some? then if |args| == 2 then Tokenize(args[1]) else None
    else if |args| >= 3 then Some(Values(args[|args| - 3..])) else None
  }

  lemma NoTerminalTakesBoth(key: string)
    ensures WordsBefore(key).Some? ==> LineOption(key).None?
  {
  }

  /** Under every terminal that is not a platform's own, the same shell starts with the same command. */
  lemma EveryWrapperStartsTheCommand(terminal: string, key: string, command: string)
    requires command != "" && !IsWindows(key) && !IsMac(key)
    requires BuildTerminalInvocation(terminal, key, command).Some?
    ensures var invocation := BuildTerminalInvocation(terminal, key, command).value;
            && invocation.program == terminal
            && Started(key, invocation.args) == Some(Values(["bash", "-lc", command]))
  {
    hide WordsBefore, LineOption, Tokenize, Wrapped, Values, IsWindows, IsMac;
    NoTerminalTakesBoth(key);
    CommandIsSplit(command);
    if WordsBefore(key).Some? {
      var args := WordsBefore(key).value + ["bash", "-lc", command];
      assert args[|args| - 3..] == ["bash", "-lc", command];
    }
  }

  lemma CommandIsSplit(command: string)
    requires command != ""
    ensures Tokenize(Wrapped(command)) == Some(Values(["bash", "-lc", command]))
  {
    WrappingIsUndone(command);
    hide Tokens, QuoteShellWord, Wrapped;
    assert [command][1..] == [] && NonEmpty([command]) == [command];
    assert ["bash"] + (["-lc"] + [command]) == ["bash", "-lc", command];
  }
}
