/** Ids for saved clients: a slug of the label, suffixed until nobody else has it. */
module ClientIds {
  import opened Text

  predicate IsAlnum(c: char) {
    'a' <= c <= 'z' || 'A' <= c <= 'Z' || '0' <= c <= '9'
  }

  predicate IsDash(c: char) {
    c == '-'
  }

  function DropOthers(s: string): (r: string)
    ensures |r| <= |s|
    ensures s != "" && !IsAlnum(s[0]) ==> |r| < |s|
    ensures r == "" || IsAlnum(r[0])
  {
    if s != "" && !IsAlnum(s[0]) then DropOthers(s[1..]) else s
  }

  /** Every run of other characters becomes one dash, every letter lower case. */
  function Dashed(s: string): (r: string)
    ensures SlugChars(r)
    ensures s != "" ==> r != "" && (IsDash(r[0]) <==> !IsAlnum(s[0]))
    decreases |s|
  {
    if s == "" then ""
    else if IsAlnum(s[0]) then
      var rest := Dashed(s[1..]);
      [ToLowerChar(s[0])] + rest
    else
      var rest := Dashed(DropOthers(s));
      ['-'] + rest
  }

  predicate SlugChars(s: string) {
    && (forall i :: 0 <= i < |s| ==> 'a' <= s[i] <= 'z' || '0' <= s[i] <= '9' || IsDash(s[i]))
    && (forall i :: 0 <= i < |s| - 1 ==> !IsDash(s[i]) || !IsDash(s[i + 1]))
  }

  /** Lower-case letters and digits with single dashes between them. */
  predicate IsSlug(s: string) {
    s != "" && SlugChars(s) && !IsDash(s[0]) && !IsDash(s[|s| - 1])
  }

  function ClientIdFrom(text: string): string {
    var id := Trim(Dashed(text), IsDash);
    if id == "" then "client" else id
  }

  /** Whatever the label, the id is a slug. */
  lemma ClientIdIsSlug(text: string)
    ensures IsSlug(ClientIdFrom(text))
  {
    hide SlugChars;
    TrimStartKeepsSlugChars(Dashed(text));
    TrimEndKeepsSlugChars(TrimStart(Dashed(text), IsDash));
    DefaultIsSlug();
  }

  lemma DefaultIsSlug()
    ensures IsSlug("client")
  {
  }

  lemma {:induction false} TrimStartKeepsSlugChars(s: string)
    requires SlugChars(s)
    ensures SlugChars(TrimStart(s, IsDash))
  {
    hide SlugChars;
    if s != "" && IsDash(s[0]) {
      SuffixKeepsSlugChars(s, 1);
      TrimStartKeepsSlugChars(s[1..]);
    }
  }

  lemma {:induction false} TrimEndKeepsSlugChars(s: string)
    requires SlugChars(s)
    ensures SlugChars(TrimEnd(s, IsDash))
  {
    hide SlugChars;
    if s != "" && IsDash(s[|s| - 1]) {
      PrefixKeepsSlugChars(s, |s| - 1);
      TrimEndKeepsSlugChars(s[..|s| - 1]);
    }
  }

  lemma SuffixKeepsSlugChars(s: string, k: nat)
    requires SlugChars(s) && k <= |s|
    ensures SlugChars(s[k..])
  {
    var r := s[k..];
    assert forall i :: 0 <= i < |r| ==> r[i] == s[k + i];
    forall i | 0 <= i < |r| - 1 ensures !IsDash(r[i]) || !IsDash(r[i + 1]) {
      assert !IsDash(s[k + i]) || !IsDash(s[k + i + 1]);
    }
  }

  lemma PrefixKeepsSlugChars(s: string, k: nat)
    requires SlugChars(s) && k <= |s|
    ensures SlugChars(s[..k])
  {
  }

  /** A slug is its own slug: taking an id as a label gives the id back. */
  lemma SlugsAreFixed(s: string)
    requires IsSlug(s)
    ensures ClientIdFrom(s) == s
  {
    DashedKeepsSlugs(s);
  }

  lemma {:induction false} DashedKeepsSlugs(s: string)
    requires SlugChars(s)
    ensures Dashed(s) == s
    decreases |s|
  {
    if s != "" {
      assert forall i :: 0 <= i < |s[1..]| ==> s[1..][i] == s[i + 1];
      DashedKeepsSlugs(s[1..]);
      if !IsAlnum(s[0]) {
        assert DropOthers(s) == DropOthers(s[1..]);
        assert s[1..] == "" || !IsDash(s[1..][0]);
        assert DropOthers(s[1..]) == s[1..];
      }
    }
  }

  // ---------------------------------------------------------------- suffixes

  function Digit(d: nat): char
    requires d < 10
  {
    ('0' as int + d) as char
  }

  function Decimal(n: nat): (s: string)
    ensures s != ""
  {
    if n < 10 then [Digit(n)] else Decimal(n / 10) + [Digit(n % 10)]
  }

  function ValueOf(s: string): int {
    if s == "" then 0 else ValueOf(s[..|s| - 1]) * 10 + (s[|s| - 1] as int - '0' as int)
  }

  lemma {:induction false} DecimalHasItsValue(n: nat)
    ensures ValueOf(Decimal(n)) == n
  {
    if n >= 10 {
      DecimalHasItsValue(n / 10);
      var front := Decimal(n / 10);
      assert (front + [Digit(n % 10)])[..|front|] == front;
    } else {
      var s := Decimal(n);
      assert s[..0] == "";
      assert ValueOf(s) == ValueOf(s[..0]) * 10 + n;
    }
  }

  /** The ids tried, in order: the slug, then `-2`, `-3` and on. */
  function Candidate(base: string, k: nat): string {
    if k == 0 then base else base + "-" + Decimal(k + 1)
  }

  lemma SuffixValue(base: string, k: nat)
    ensures k > 0 ==> |Candidate(base, k)| > |base| && ValueOf(Candidate(base, k)[|base| + 1..]) == k + 1
  {
    if k > 0 {
      DecimalHasItsValue(k + 1);
      assert Candidate(base, k)[|base| + 1..] == Decimal(k + 1);
    }
  }

  lemma CandidatesDiffer(base: string, i: nat, j: nat)
    requires i != j
    ensures Candidate(base, i) != Candidate(base, j)
  {
    SuffixValue(base, i);
    SuffixValue(base, j);
  }

  function Tried(base: string, k: nat): (s: set<string>) {
    set i | 0 <= i < k :: Candidate(base, i)
  }

  lemma {:induction false} TriedCount(base: string, k: nat)
    ensures |Tried(base, k)| == k
    ensures Candidate(base, k) !in Tried(base, k)
    ensures Tried(base, k + 1) == Tried(base, k) + {Candidate(base, k)}
  {
    if Candidate(base, k) in Tried(base, k) {
      var i :| 0 <= i < k && Candidate(base, i) == Candidate(base, k);
      CandidatesDiffer(base, i, k);
      assert false;
    }
    if k > 0 {
      TriedCount(base, k - 1);
    }
  }

  /** The first candidate from `k` on that nobody uses. */
  function FirstFree(used: set<string>, base: string, k: nat): (id: string)
    requires Tried(base, k) <= used
    ensures id !in used
    decreases |used - Tried(base, k)|
  {
    if Candidate(base, k) !in used then Candidate(base, k)
    else
      TriedCount(base, k);
      assert used - Tried(base, k + 1) == (used - Tried(base, k)) - {Candidate(base, k)};
      FirstFree(used, base, k + 1)
  }

  function FreshId(used: set<string>, base: string): (id: string)
    ensures id !in used
  {
    assert Tried(base, 0) == {};
    FirstFree(used, base, 0)
  }

  lemma BoundedTries(used: set<string>, base: string, k: nat)
    requires Tried(base, k) <= used
    ensures k <= |used|
  {
    TriedCount(base, k);
    SubsetSize(Tried(base, k), used);
  }

  lemma {:induction false} SubsetSize(a: set<string>, b: set<string>)
    requires a <= b
    ensures |a| <= |b|
    decreases |a|
  {
    if a != {} {
      var x :| x in a;
      SubsetSize(a - {x}, b - {x});
    }
  }

  /** The first candidate nobody uses, found after at most one try more than there are ids. */
  method SearchFreshId(used: set<string>, base: string) returns (id: string, ghost tries: nat)
    ensures id == FreshId(used, base) && id !in used
    ensures 1 <= tries <= |used| + 1 && id == Candidate(base, tries - 1)
    ensures forall k :: 0 <= k < tries - 1 ==> Candidate(base, k) in used
  {
    hide Candidate, Tried, FirstFree;
    id := base;
    var n := 2;
    NothingTried(used, base);
    while id in used
      invariant n >= 2 && id == Candidate(base, n - 2)
      invariant Tried(base, n - 2) <= used
      invariant FirstFree(used, base, n - 2) == FreshId(used, base)
      decreases |used - Tried(base, n - 2)|
    {
      OneMoreTried(used, base, n - 2);
      id := base + "-" + Decimal(n);
      n := n + 1;
    }
    FreeAtLast(used, base, n - 2);
    tries := n - 1;
  }

  lemma NothingTried(used: set<string>, base: string)
    ensures Candidate(base, 0) == base && Tried(base, 0) == {} && FirstFree(used, base, 0) == FreshId(used, base)
  {
    hide FirstFree;
    assert Tried(base, 0) == {};
  }

  lemma OneMoreTried(used: set<string>, base: string, k: nat)
    requires Tried(base, k) <= used && Candidate(base, k) in used
    ensures Tried(base, k + 1) <= used && |used - Tried(base, k + 1)| < |used - Tried(base, k)|
    ensures FirstFree(used, base, k + 1) == FirstFree(used, base, k)
    ensures Candidate(base, k + 1) == base + "-" + Decimal(k + 2)
  {
    hide Tried;
    TriedCount(base, k);
    assert used - Tried(base, k + 1) == (used - Tried(base, k)) - {Candidate(base, k)};
  }

  lemma FreeAtLast(used: set<string>, base: string, k: nat)
    requires Tried(base, k) <= used && Candidate(base, k) !in used
    ensures FirstFree(used, base, k) == Candidate(base, k) && k <= |used|
    ensures forall j :: 0 <= j < k ==> Candidate(base, j) in used
  {
    hide Candidate;
    BoundedTries(used, base, k);
    assert forall j :: 0 <= j < k ==> Candidate(base, j) in Tried(base, k);
  }
}
