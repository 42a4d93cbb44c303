/** Newline-delimited envelopes read off a socket, however its bytes are cut into chunks. */
module LineFraming {
  import opened Text

  predicate IsBlank(line: string) {
    |JsTrim(line)| == 0
  }

  predicate IsLine(s: string) {
    '\n' !in s
  }

  /** The lines of the newline-terminated prefix. */
  function LinesOf(s: string): seq<string>
    decreases |s|
  {
    var k := IndexOf(s, '\n');
    if k == |s| then [] else [s[..k]] + LinesOf(s[k + 1..])
  }

  /** What follows the last newline. */
  function Remainder(s: string): string
    decreases |s|
  {
    var k := IndexOf(s, '\n');
    if k == |s| then s else Remainder(s[k + 1..])
  }

  function NonBlank(lines: seq<string>): seq<string> {
    if lines == [] then []
    else (if IsBlank(lines[0]) then [] else [lines[0]]) + NonBlank(lines[1..])
  }

  /** Each line with its newline back on. */
  function Terminated(lines: seq<string>): string {
    if lines == [] then "" else lines[0] + "\n" + Terminated(lines[1..])
  }

  ghost predicate AreLines(lines: seq<string>) {
    forall line <- lines :: IsLine(line)
  }

  lemma FirstNewline(line: string, after: string)
    requires IsLine(line)
    ensures IndexOf(line + "\n" + after, '\n') == |line|
    ensures (line + "\n" + after)[..|line|] == line && (line + "\n" + after)[|line| + 1..] == after
  {
    var s := line + "\n" + after;
    assert s[|line|] == '\n';
    assert forall i :: 0 <= i < |line| ==> s[i] == line[i] && line[i] in line;
  }

  lemma CutFirst(s: string)
    ensures var k := IndexOf(s, '\n');
            if k == |s| then LinesOf(s) == [] && Remainder(s) == s
            else LinesOf(s) == [s[..k]] + LinesOf(s[k + 1..]) && Remainder(s) == Remainder(s[k + 1..])
  {
    hide IndexOf;
  }

  lemma NoLines()
    ensures Terminated([]) == ""
  {
  }

  lemma OneLineMore(line: string, lines: seq<string>, rest: string)
    ensures Terminated([line] + lines) + rest == line + "\n" + (Terminated(lines) + rest)
  {
    assert Terminated([line] + lines) == line + "\n" + Terminated(lines);
  }

  /** Lines and remainder together are the stream, and neither holds a newline within. */
  lemma {:induction false} LinesMakeTheStream(s: string)
    ensures Terminated(LinesOf(s)) + Remainder(s) == s
    ensures AreLines(LinesOf(s)) && IsLine(Remainder(s))
    decreases |s|
  {
    hide LinesOf, Remainder, Terminated, IndexOf;
    CutFirst(s);
    var k := IndexOf(s, '\n');
    if k < |s| {
      var head, after := s[..k], s[k + 1..];
      LinesMakeTheStream(after);
      OneLineMore(head, LinesOf(after), Remainder(after));
      assert s == head + "\n" + after;
    } else {
      NoLines();
    }
  }

  /** There is no other way to cut a stream into lines and a remainder. */
  lemma {:induction false} CutIsUnique(lines: seq<string>, rest: string)
    requires AreLines(lines) && IsLine(rest)
    ensures LinesOf(Terminated(lines) + rest) == lines
    ensures Remainder(Terminated(lines) + rest) == rest
  {
    if lines == [] {
      assert Terminated(lines) + rest == rest;
    } else {
      var after := Terminated(lines[1..]) + rest;
      assert Terminated(lines) + rest == lines[0] + "\n" + after;
      assert lines[0] in lines;
      FirstNewline(lines[0], after);
      CutIsUnique(lines[1..], rest);
    }
  }

  lemma {:induction false} TerminatedJoins(a: seq<string>, b: seq<string>)
    ensures Terminated(a + b) == Terminated(a) + Terminated(b)
  {
    if a == [] {
      assert a + b == b;
    } else {
      assert (a + b)[1..] == a[1..] + b;
      TerminatedJoins(a[1..], b);
    }
  }

  lemma {:induction false} NonBlankJoins(a: seq<string>, b: seq<string>)
    ensures NonBlank(a + b) == NonBlank(a) + NonBlank(b)
  {
    hide IsBlank;
    if a == [] {
      assert a + b == b;
    } else {
      assert (a + b)[1..] == a[1..] + b;
      NonBlankJoins(a[1..], b);
    }
  }

  /** Keeping only the remainder between two parts of a stream loses nothing. */
  lemma CutsCompose(a: string, b: string)
    ensures LinesOf(a + b) == LinesOf(a) + LinesOf(Remainder(a) + b)
    ensures Remainder(a + b) == Remainder(Remainder(a) + b)
  {
    hide LinesOf, Remainder, Terminated, IsLine;
    var carried := Remainder(a) + b;
    var lines, rest := LinesOf(a) + LinesOf(carried), Remainder(carried);
    LinesMakeTheStream(a);
    LinesMakeTheStream(carried);
    TerminatedJoins(LinesOf(a), LinesOf(carried));
    assert Terminated(lines) + rest == a + b by {
      assert Terminated(lines) + rest == Terminated(LinesOf(a)) + (Terminated(LinesOf(carried)) + rest);
      assert Terminated(lines) + rest == (Terminated(LinesOf(a)) + Remainder(a)) + b;
    }
    CutIsUnique(lines, rest);
  }

  class LineReader {
    var buf: string

    constructor ()
      ensures buf == ""
    {
      buf := "";
    }

    /** Takes one chunk in and hands on the lines it completed. */
    method OnData(chunk: string) returns (lines: seq<string>)
      modifies this
      ensures lines == NonBlank(LinesOf(old(buf) + chunk))
      ensures buf == Remainder(old(buf) + chunk)
    {
      hide IsBlank, LinesOf, Remainder, NonBlank;
      buf := buf + chunk;
      lines := [];
      ghost var whole := buf;
      ghost var seen: seq<string> := [];
      NothingYet(whole);
      var idx := IndexOf(buf, '\n');
      while idx < |buf|
        invariant idx == IndexOf(buf, '\n')
        invariant lines == NonBlank(seen)
        invariant seen + LinesOf(buf) == LinesOf(whole) && Remainder(buf) == Remainder(whole)
        decreases |buf|
      {
        var line := buf[..idx];
        NextLine(seen, buf);
        buf := buf[idx + 1..];
        seen := seen + [line];
        if !IsBlank(line) {
          lines := lines + [line];
        }
        idx := IndexOf(buf, '\n');
      }
      NoMoreLines(seen, buf);
    }
  }

  lemma NothingYet(s: string)
    ensures NonBlank([]) == [] && [] + LinesOf(s) == LinesOf(s)
  {
  }

  /** Cutting the first line off. */
  lemma NextLine(seen: seq<string>, s: string)
    requires IndexOf(s, '\n') < |s|
    ensures var k := IndexOf(s, '\n');
            && seen + LinesOf(s) == (seen + [s[..k]]) + LinesOf(s[k + 1..])
            && Remainder(s) == Remainder(s[k + 1..])
            && NonBlank(seen + [s[..k]]) == NonBlank(seen) + if IsBlank(s[..k]) then [] else [s[..k]]
  {
    hide IsBlank, LinesOf, Remainder, IndexOf;
    var k := IndexOf(s, '\n');
    CutFirst(s);
    NonBlankJoins(seen, [s[..k]]);
  }

  lemma NoMoreLines(seen: seq<string>, s: string)
    requires IndexOf(s, '\n') == |s|
    ensures seen + LinesOf(s) == seen && Remainder(s) == s
  {
    CutFirst(s);
  }

  function Joined(chunks: seq<string>): string {
    if chunks == [] then "" else Joined(chunks[..|chunks| - 1]) + chunks[|chunks| - 1]
  }

  /** A whole connection: whatever the cutting, the lines delivered are those of the stream. */
  method ReadAll(chunks: seq<string>) returns (delivered: seq<string>, left: string)
    ensures delivered == NonBlank(LinesOf(Joined(chunks)))
    ensures left == Remainder(Joined(chunks))
  {
    hide IsBlank, LinesOf, Remainder, NonBlank;
    var reader := new LineReader();
    delivered := [];
    LinesOfNothing();
    assert chunks[..0] == [];
    for i := 0 to |chunks|
      invariant delivered == NonBlank(LinesOf(Joined(chunks[..i])))
      invariant reader.buf == Remainder(Joined(chunks[..i]))
    {
      ghost var before := Joined(chunks[..i]);
      assert chunks[..i + 1][..i] == chunks[..i];
      assert Joined(chunks[..i + 1]) == before + chunks[i];
      CutsCompose(before, chunks[i]);
      NonBlankJoins(LinesOf(before), LinesOf(Remainder(before) + chunks[i]));
      var lines := reader.OnData(chunks[i]);
      delivered := delivered + lines;
    }
    assert chunks[..|chunks|] == chunks;
    left := reader.buf;
  }

  lemma LinesOfNothing()
    ensures NonBlank(LinesOf("")) == [] && Remainder("") == ""
  {
  }
}
