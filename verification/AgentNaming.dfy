/** Pulling the first balanced object out of whatever a model said around it. */
module AgentNaming {
  import opened Options
  import opened Text

  function Plus(n: Option<nat>, k: nat): Option<nat> {
    match n
    case None => None
    case Some(n) => Some(n + k)
  }

  lemma PlusPlus(n: Option<nat>, a: nat, b: nat)
    ensures Plus(Plus(n, a), b) == Plus(n, a + b)
  {
  }

  lemma PlusNothing(n: Option<nat>)
    ensures Plus(n, 0) == n
  {
  }

  /** How much of `s` the scanner takes in before the braces balance, from a state part of the way through. */
  function Scan(s: string, depth: nat, inString: bool, escaped: bool): (n: Option<nat>)
    requires depth > 0 || (s != "" && s[0] == '{' && !inString)
    ensures n.Some? ==> 0 < n.value <= |s|
  {
    if s == "" then None
    else if inString then
      if escaped then Plus(Scan(s[1..], depth, true, false), 1)
      else if s[0] == '\\' then Plus(Scan(s[1..], depth, true, true), 1)
      else Plus(Scan(s[1..], depth, s[0] != '"', false), 1)
    else if s[0] == '"' then Plus(Scan(s[1..], depth, true, false), 1)
    else if s[0] == '{' then Plus(Scan(s[1..], depth + 1, false, false), 1)
    else if s[0] == '}' then
      if depth == 1 then Some(1) else Plus(Scan(s[1..], depth - 1, false, false), 1)
    else Plus(Scan(s[1..], depth, false, false), 1)
  }

  function FirstObject(text: string): Option<string> {
    var start := IndexOf(text, '{');
    if start == |text| then None
    else
      match Scan(text[start..], 0, false, false)
      case None => None
      case Some(n) => Some(text[start..start + n])
  }

  lemma ScanNothing(text: string, depth: nat, inString: bool, escaped: bool)
    requires depth > 0
    ensures text[|text|..] == "" && Scan("", depth, inString, escaped) == None
  {
  }

  lemma ScanStep(text: string, offset: nat, depth: nat, inString: bool, escaped: bool)
    requires offset < |text| && (depth > 0 || (text[offset] == '{' && !inString))
    ensures var c, rest := text[offset], text[offset + 1..];
            Scan(text[offset..], depth, inString, escaped)
            == if inString then Plus(Scan(rest, depth, escaped || c != '"', !escaped && c == '\\'), 1)
               else if c == '"' then Plus(Scan(rest, depth, true, false), 1)
               else if c == '{' then Plus(Scan(rest, depth + 1, false, false), 1)
               else if c == '}' then if depth == 1 then Some(1) else Plus(Scan(rest, depth - 1, false, false), 1)
               else Plus(Scan(rest, depth, false, false), 1)
  {
    assert text[offset..][1..] == text[offset + 1..];
  }

  predicate StartsAt(text: string, start: nat) {
    start < |text| && text[start] == '{'
  }

  predicate CanScan(text: string, offset: nat, depth: nat, inString: bool) {
    depth > 0 || (StartsAt(text, offset) && !inString)
  }

  /** The scan from `start` goes on at `offset` in this state. */
  ghost predicate GoesOn(text: string, start: nat, offset: nat, depth: nat, inString: bool, escaped: bool) {
    && start <= offset <= |text| && StartsAt(text, start) && CanScan(text, offset, depth, inString)
    && Scan(text[start..], 0, false, false) == Plus(Scan(text[offset..], depth, inString, escaped), offset - start)
  }

  lemma GoesOnFromStart(text: string, start: nat)
    requires StartsAt(text, start)
    ensures GoesOn(text, start, start, 0, false, false)
  {
    PlusNothing(Scan(text[start..], 0, false, false));
  }

  lemma Onwards(text: string, start: nat, offset: nat, depth: nat, inString: bool, escaped: bool,
                depth': nat, inString': bool, escaped': bool)
    requires GoesOn(text, start, offset, depth, inString, escaped) && offset < |text| && depth' > 0
    requires Scan(text[offset..], depth, inString, escaped)
          == Plus(Scan(text[offset + 1..], depth', inString', escaped'), 1)
    ensures GoesOn(text, start, offset + 1, depth', inString', escaped')
  {
    hide Scan, Plus;
    PlusPlus(Scan(text[offset + 1..], depth', inString', escaped'), 1, offset - start);
  }

  /** One character further, or the end of the object. */
  lemma GoesOnByOne(text: string, start: nat, offset: nat, depth: nat, inString: bool, escaped: bool)
    requires GoesOn(text, start, offset, depth, inString, escaped) && offset < |text|
    ensures var c, next := text[offset], offset + 1;
            if inString then GoesOn(text, start, next, depth, escaped || c != '"', !escaped && c == '\\')
            else if c == '"' then GoesOn(text, start, next, depth, true, false)
            else if c == '{' then GoesOn(text, start, next, depth + 1, false, false)
            else if c == '}' then
              if depth == 1 then Scan(text[start..], 0, false, false) == Some(next - start)
              else GoesOn(text, start, next, depth - 1, false, false)
            else GoesOn(text, start, next, depth, false, false)
  {
    hide Scan;
    ScanStep(text, offset, depth, inString, escaped);
    var c := text[offset];
    if inString {
      Onwards(text, start, offset, depth, inString, escaped, depth, escaped || c != '"', !escaped && c == '\\');
    } else if c == '"' {
      Onwards(text, start, offset, depth, inString, escaped, depth, true, false);
    } else if c == '{' {
      Onwards(text, start, offset, depth, inString, escaped, depth + 1, false, false);
    } else if c != '}' {
      Onwards(text, start, offset, depth, inString, escaped, depth, false, false);
    } else if depth != 1 {
      Onwards(text, start, offset, depth, inString, escaped, depth - 1, false, false);
    }
  }

  lemma NoFurther(text: string, start: nat, depth: nat, inString: bool, escaped: bool)
    requires GoesOn(text, start, |text|, depth, inString, escaped) && depth > 0
    ensures Scan(text[start..], 0, false, false) == None
  {
    ScanNothing(text, depth, inString, escaped);
  }

  /** The scanner itself. Its depth never goes below zero: it returns when it gets there. */
  method FirstJsonObject(text: string) returns (found: Option<string>)
    ensures found == FirstObject(text)
  {
    var start := IndexOf(text, '{');
    if start == |text| {
      return None;
    }
    hide Scan, GoesOn;
    GoesOnFromStart(text, start);
    var depth: nat, inString, escaped := 0, false, false;
    var offset := start;
    while offset < |text|
      invariant start <= offset <= |text|
      invariant depth > 0 || (offset == start && !inString)
      invariant !inString ==> !escaped
      invariant GoesOn(text, start, offset, depth, inString, escaped)
    {
      var c := text[offset];
      GoesOnByOne(text, start, offset, depth, inString, escaped);
      if inString {
        if escaped {
          escaped := false;
        } else if c == '\\' {
          escaped := true;
        } else if c == '"' {
          inString := false;
        }
      } else if c == '"' {
        inString := true;
      } else if c == '{' {
        depth := depth + 1;
      } else if c == '}' {
        depth := depth - 1;
        if depth == 0 {
          return Some(text[start..offset + 1]);
        }
      }
      offset := offset + 1;
    }
    NoFurther(text, start, depth, inString, escaped);
    return None;
  }

  // ---------------------------------------------------------------- what balance is

  /** Where a string literal ends, counting from behind its opening quote: past its closing one, if it has one. */
  function StringEnd(s: string): (n: nat)
    ensures n <= |s|
  {
    if s == "" then 0
    else if s[0] == '"' then 1
    else if s[0] == '\\' then
      if |s| == 1 then 1 else 2 + StringEnd(s[2..])
    else 1 + StringEnd(s[1..])
  }

  /** Opening braces less closing ones, string literals passed over whole. */
  function Level(s: string): int
    decreases |s|
  {
    if s == "" then 0
    else if s[0] == '"' then Level(s[1 + StringEnd(s[1..])..])
    else (if s[0] == '{' then 1 else if s[0] == '}' then -1 else 0) + Level(s[1..])
  }

  ghost predicate StaysAbove(s: string, depth: nat, n: nat)
    requires n <= |s| + 1
  {
    forall m :: 0 <= m < n ==> depth + Level(s[..m]) > 0
  }

  /** The shortest prefix that takes the level from `depth` down to zero, if any does. */
  ghost predicate IsShortest(s: string, depth: nat, n: Option<nat>) {
    match n
    case None => StaysAbove(s, depth, |s| + 1)
    case Some(n) => n <= |s| && depth + Level(s[..n]) == 0 && StaysAbove(s, depth, n)
  }

  lemma {:induction false} StringEndOfPrefix(s: string, m: nat)
    requires m <= |s|
    ensures StringEnd(s[..m]) == if m < StringEnd(s) then m else StringEnd(s)
  {
    if s != "" && m > 0 && s[0] != '"' {
      assert s[..m][0] == s[0];
      if s[0] == '\\' {
        if m > 1 {
          StringEndOfPrefix(s[2..], m - 2);
          assert s[..m][2..] == s[2..][..m - 2];
        }
      } else {
        StringEndOfPrefix(s[1..], m - 1);
        assert s[..m][1..] == s[1..][..m - 1];
      }
    }
  }

  /** The two flags carry the scanner to the end of a string literal. */
  lemma {:induction false} ScanSkipsString(s: string, depth: nat)
    requires depth > 0
    ensures Scan(s, depth, true, false) == Plus(Scan(s[StringEnd(s)..], depth, false, false), StringEnd(s))
  {
    if s == "" {
    } else if s[0] == '"' {
    } else if s[0] == '\\' {
      if |s| > 1 {
        ScanSkipsString(s[2..], depth);
        assert s[1..][1..] == s[2..];
        assert s[2..][StringEnd(s[2..])..] == s[StringEnd(s)..];
        assert Scan(s[1..], depth, true, true) == Plus(Scan(s[2..], depth, true, false), 1);
      } else {
        assert s[1..] == "";
      }
    } else {
      ScanSkipsString(s[1..], depth);
      assert s[1..][StringEnd(s[1..])..] == s[StringEnd(s)..];
    }
  }

  lemma LevelOfPrefix(s: string, m: nat)
    requires 0 < m <= |s|
    ensures s[0] != '"' ==>
              Level(s[..m]) == (if s[0] == '{' then 1 else if s[0] == '}' then -1 else 0) + Level(s[1..][..m - 1])
    ensures s[0] == '"' ==>
              var k := 1 + StringEnd(s[1..]);
              Level(s[..m]) == if m < k then 0 else Level(s[k..][..m - k])
  {
    assert s[..m][0] == s[0];
    assert s[..m][1..] == s[1..][..m - 1];
    if s[0] == '"' {
      StringEndOfPrefix(s[1..], m - 1);
      var k := 1 + StringEnd(s[1..]);
      if k <= m {
        assert s[..m][k..] == s[k..][..m - k];
      } else {
        assert s[..m][m..] == "";
      }
    }
  }

  /** What the scanner takes in is the shortest prefix that balances. */
  lemma {:induction false} ScanFindsShortest(s: string, depth: nat)
    requires depth > 0
    ensures IsShortest(s, depth, Scan(s, depth, false, false))
    decreases |s|
  {
    hide Level, StringEnd;
    LevelOfNothing(s);
    if s != "" {
      var k := if s[0] == '"' then 1 + StringEnd(s[1..]) else 1;
      var next := if s[0] == '{' then depth + 1 else if s[0] == '}' then depth - 1 else depth;
      assert s[1..][k - 1..] == s[k..];
      if s[0] == '"' {
        ScanSkipsString(s[1..], depth);
      }
      LevelOfNothing(s[k..]);
      if next > 0 {
        ScanFindsShortest(s[k..], next);
        assert Scan(s, depth, false, false) == Plus(Scan(s[k..], next, false, false), k);
      } else {
        assert Scan(s, depth, false, false) == Some(1);
      }
      ShortestAfter(s, depth, k, next);
    }
  }

  lemma LevelOfNothing(s: string)
    ensures s[..0] == "" && Level("") == 0
  {
  }

  /** One step, or one string literal, of the search for the shortest prefix. */
  lemma ShortestAfter(s: string, depth: nat, k: nat, next: nat)
    requires depth > 0 && s != ""
    requires k == if s[0] == '"' then 1 + StringEnd(s[1..]) else 1
    requires next == if s[0] == '{' then depth + 1 else if s[0] == '}' then depth - 1 else depth
    ensures k <= |s|
    ensures next == 0 ==> IsShortest(s, depth, Some(1))
    ensures next > 0 && IsShortest(s[k..], next, Scan(s[k..], next, false, false)) ==>
              IsShortest(s, depth, Plus(Scan(s[k..], next, false, false), k))
  {
    hide Level, StringEnd, Scan;
    LevelOfNothing(s);
    LevelOfNothing(s[k..]);
    forall m | 0 < m <= |s|
      ensures Level(s[..m]) + depth == if m < k then depth else Level(s[k..][..m - k]) + next
    {
      LevelOfPrefix(s, m);
    }
  }

  /**
   * The answer starts at the first brace and is the shortest balanced stretch from there;
   * without one there is none.
   */
  ghost predicate IsFirstBalanced(text: string, found: Option<string>) {
    var start := IndexOf(text, '{');
    match found
    case None => forall m :: start < m <= |text| ==> Level(text[start..m]) > 0
    case Some(answer) =>
      && start < |text| && answer <= text[start..] && answer != "" && Level(answer) == 0
      && forall m :: 0 < m < |answer| ==> Level(answer[..m]) > 0
  }

  lemma FirstObjectIsFirstBalanced(text: string)
    ensures IsFirstBalanced(text, FirstObject(text))
  {
    hide Level;
    var start := IndexOf(text, '{');
    if start < |text| {
      var s := text[start..];
      var n := Scan(s[1..], 1, false, false);
      assert Scan(s, 0, false, false) == Plus(n, 1);
      hide Scan;
      ScanFindsShortest(s[1..], 1);
      forall m | 0 < m <= |s|
        ensures Level(s[..m]) == 1 + Level(s[1..][..m - 1])
      {
        LevelOfPrefix(s, m);
      }
      if n.None? {
        forall m | start < m <= |text|
          ensures Level(text[start..m]) > 0
        {
          assert text[start..m] == s[..m - start];
        }
      } else {
        var answer := FirstObject(text).value;
        assert answer == s[..n.value + 1];
        forall m | 0 < m < |answer|
          ensures Level(answer[..m]) > 0
        {
          assert answer[..m] == s[..m];
        }
      }
    }
  }

  lemma NoShorter(text: string, a: string, b: string)
    requires IsFirstBalanced(text, Some(a)) && IsFirstBalanced(text, Some(b))
    ensures |b| <= |a|
  {
    hide Level;
    var n := if |a| < |b| then |a| else |b|;
    assert b[..n] == a[..n];
    assert a[..|a|] == a;
  }

  lemma SomeExcludesNone(text: string, a: string)
    requires IsFirstBalanced(text, Some(a))
    ensures !IsFirstBalanced(text, None)
  {
    hide Level;
    var start := IndexOf(text, '{');
    assert text[start..start + |a|] == a;
  }

  /** And nothing else fits that description. */
  lemma FirstBalancedIsUnique(text: string, a: Option<string>, b: Option<string>)
    requires IsFirstBalanced(text, a) && IsFirstBalanced(text, b)
    ensures a == b
  {
    if a.Some? {
      SomeExcludesNone(text, a.value);
      NoShorter(text, a.value, b.value);
      NoShorter(text, b.value, a.value);
      assert a.value[..] == b.value[..];
    } else if b.Some? {
      SomeExcludesNone(text, b.value);
    }
  }
}
