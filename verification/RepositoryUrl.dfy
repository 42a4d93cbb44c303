/** Recognising one repository across the URL forms two machines use for it. */
module RepositoryUrl {
  import opened Options
  import opened Text
  import opened TransferWorld

  /** What follows the first `://`, or everything. */
  function AfterScheme(s: string, from: nat): string
    requires from <= |s|
    decreases |s| - from
  {
    if from + 3 > |s| then s
    else if s[from..from + 3] == "://" then s[from + 3..]
    else AfterScheme(s, from + 1)
  }

  /** What follows the first `:`, or everything. */
  function AfterColon(s: string): string {
    var k := IndexOf(s, ':');
    if k < |s| then s[k + 1..] else s
  }

  function OneSegment(head: string): seq<string> {
    if head == "" then [] else [head]
  }

  /** The non-empty parts between slashes. */
  function Segments(s: string): seq<string>
    decreases |s|
  {
    var k := IndexOf(s, '/');
    if k < |s| then OneSegment(s[..k]) + Segments(s[k + 1..]) else OneSegment(s[..k])
  }

  predicate IsSlash(c: char) {
    c == '/'
  }

  function StripGit(s: string): string {
    if |s| >= 4 && s[|s| - 4..] == ".git" then s[..|s| - 4] else s
  }

  function Join(parts: seq<string>): string {
    if parts == [] then "" else if |parts| == 1 then parts[0] else parts[0] + "/" + Join(parts[1..])
  }

  function LastTwo(parts: seq<string>): seq<string> {
    parts[if |parts| < 2 then 0 else |parts| - 2..]
  }

  /** The last two parts of a remote's path, in lower case and with no `.git` behind them. */
  function Tail(url: string): string {
    var trimmed := StripGit(TrimEnd(RustTrim(url), IsSlash));
    ToLower(Join(LastTwo(Segments(AfterColon(AfterScheme(trimmed, 0))))))
  }

  function NamedByUrl(repositories: seq<Repository>, url: string): (r: Option<string>)
    ensures r.Some? <==> exists i :: 0 <= i < |repositories| && repositories[i].remoteUrl == Some(url)
  {
    if repositories == [] then None
    else if repositories[0].remoteUrl == Some(url) then Some(repositories[0].name)
    else NamedByUrl(repositories[1..], url)
  }

  function NamedByTail(repositories: seq<Repository>, tail: string): Option<string> {
    if repositories == [] then None
    else if repositories[0].remoteUrl.Some? && Tail(repositories[0].remoteUrl.value) == tail then
      Some(repositories[0].name)
    else NamedByTail(repositories[1..], tail)
  }

  /** What a daemon calls the repository at `url`: by the exact URL, else by its tail. */
  function RepositoryName(repositories: seq<Repository>, url: string): Option<string> {
    var exact := NamedByUrl(repositories, url);
    if exact.Some? then exact else if Tail(url) == "" then None else NamedByTail(repositories, Tail(url))
  }

  // ---------------------------------------------------------------- every form has the same tail

  predicate Plain(s: string) {
    s != "" && forall i :: 0 <= i < |s| ==> s[i] != '/' && s[i] != ':' && !IsRustSpace(s[i])
  }

  lemma {:induction false} SegmentsStep(head: string, rest: string)
    requires forall i :: 0 <= i < |head| ==> head[i] != '/'
    ensures Segments(head + "/" + rest) == OneSegment(head) + Segments(rest)
  {
    var s := head + "/" + rest;
    FirstIndex(s, '/', |head|);
    assert s[..|head|] == head && s[|head| + 1..] == rest;
  }

  lemma {:induction false} SegmentsSplit(x: string, y: string)
    ensures Segments(x + "/" + y) == Segments(x) + Segments(y)
    decreases |x|
  {
    var k := IndexOf(x, '/');
    if k < |x| {
      var head, rest := x[..k], x[k + 1..];
      assert x == head + "/" + rest;
      SegmentsSplit(rest, y);
      SegmentsStep(head, rest);
      SegmentsStep(head, rest + "/" + y);
      Regrouped(head, rest, y);
      Associative(OneSegment(head), Segments(rest), Segments(y));
    } else {
      SegmentsStep(x, y);
      LastSegment(x);
    }
  }

  lemma Regrouped(head: string, rest: string, y: string)
    ensures head + "/" + rest + "/" + y == head + "/" + (rest + "/" + y)
  {
  }

  lemma Associative(a: seq<string>, b: seq<string>, c: seq<string>)
    ensures a + (b + c) == a + b + c
  {
  }

  lemma {:induction false} LastSegment(s: string)
    requires forall i :: 0 <= i < |s| ==> s[i] != '/'
    ensures Segments(s) == OneSegment(s)
  {
    assert s[..IndexOf(s, '/')] == s;
  }

  lemma {:induction false} FirstIndex(s: string, c: char, k: nat)
    requires k < |s| && s[k] == c && forall i :: 0 <= i < k ==> s[i] != c
    ensures IndexOf(s, c) == k
  {
  }

  lemma {:induction false} NoScheme(s: string, from: nat)
    requires from <= |s| && forall i :: from <= i < |s| - 1 ==> s[i] != ':' || s[i + 1] != '/'
    ensures AfterScheme(s, from) == s
    decreases |s| - from
  {
    if from + 3 <= |s| {
      assert s[from..from + 3][0] == s[from] && s[from..from + 3][1] == s[from + 1];
      NoScheme(s, from + 1);
    }
  }

  lemma {:induction false} SchemeAt(s: string, from: nat, k: nat)
    requires from <= k && k + 3 <= |s| && s[k..k + 3] == "://"
    requires forall i :: from <= i < k ==> s[i] != ':'
    ensures AfterScheme(s, from) == s[k + 3..]
    decreases k - from
  {
    if from < k {
      assert s[from..from + 3][0] == s[from];
      SchemeAt(s, from + 1, k);
    }
  }

  /** The tail of a path that ends in the owner and the repository is those two. */
  lemma {:induction false} TailOfPath(before: string, owner: string, repo: string)
    requires Plain(owner) && Plain(repo)
    ensures Join(LastTwo(Segments(before + "/" + (owner + "/" + repo)))) == owner + "/" + repo
    ensures Join(LastTwo(Segments(owner + "/" + repo))) == owner + "/" + repo
  {
    SegmentsSplit(owner, repo);
    SegmentsSplit(before, owner + "/" + repo);
    LastSegment(owner);
    LastSegment(repo);
    var all := Segments(before) + [owner, repo];
    assert LastTwo(all) == [owner, repo] && LastTwo([owner, repo]) == [owner, repo];
    assert Join([owner, repo]) == owner + "/" + Join([repo]) by {
      assert [owner, repo][1..] == [repo];
    }
  }

  /** Trailing `.git` and slashes change nothing, and a plain ending is kept whole. */
  lemma TrimmedForm(url: string, suffix: string)
    requires url != "" && !IsRustSpace(url[0]) && !IsRustSpace(url[|url| - 1]) && url[|url| - 1] != '/'
    requires StripGit(url) == url
    requires suffix == "" || suffix == ".git"
    ensures StripGit(TrimEnd(RustTrim(url + suffix), IsSlash)) == url
  {
    var s := url + suffix;
    assert !IsRustSpace(s[0]) && !IsRustSpace(s[|s| - 1]) && s[|s| - 1] != '/';
    assert TrimEnd(s, IsSlash) == s;
    if suffix == ".git" {
      assert s[|s| - 4..] == ".git" && s[..|s| - 4] == url;
    } else {
      assert s == url;
    }
  }

  lemma EndsPlain(before: string, owner: string, repo: string)
    requires Plain(owner) && Plain(repo) && before != "" && !IsRustSpace(before[0])
    requires StripGit(owner + "/" + repo) == owner + "/" + repo
    ensures var url := before + (owner + "/" + repo);
            && !IsRustSpace(url[0]) && !IsRustSpace(url[|url| - 1]) && url[|url| - 1] != '/'
            && StripGit(url) == url
  {
    var tail := owner + "/" + repo;
    var url := before + tail;
    assert url[|url| - 1] == repo[|repo| - 1];
    if |tail| >= 4 {
      assert url[|url| - 4..] == tail[|tail| - 4..];
    } else {
      assert |tail| == 3 && tail[1] == '/';
      assert url[|url| - 4..][2] == '/';
    }
  }

  /** A URL whose path reduces to `before/owner/repo`, or to `owner/repo`, has that tail. */
  lemma TailFrom(front: string, before: string, owner: string, repo: string, suffix: string)
    requires Plain(owner) && Plain(repo) && front != "" && !IsRustSpace(front[0])
    requires StripGit(owner + "/" + repo) == owner + "/" + repo
    requires suffix == "" || suffix == ".git"
    requires var path := AfterColon(AfterScheme(front + (owner + "/" + repo), 0));
             path == before + "/" + (owner + "/" + repo) || path == owner + "/" + repo
    ensures Tail(front + (owner + "/" + repo) + suffix) == ToLower(owner + "/" + repo)
  {
    EndsPlain(front, owner, repo);
    TrimmedForm(front + (owner + "/" + repo), suffix);
    TailOfPath(before, owner, repo);
  }

  lemma SchemeDropped(scheme: string, path: string)
    requires forall i :: 0 <= i < |scheme| ==> scheme[i] != ':'
    ensures AfterScheme(scheme + "://" + path, 0) == path
  {
    var url := scheme + "://" + path;
    assert url[|scheme|..|scheme| + 3] == "://";
    SchemeAt(url, 0, |scheme|);
    assert url[|scheme| + 3..] == path;
  }

  lemma ColonDropped(before: string, path: string)
    requires forall i :: 0 <= i < |before| ==> before[i] != ':'
    ensures AfterColon(before + ":" + path) == path
  {
    var s := before + ":" + path;
    FirstIndex(s, ':', |before|);
    assert s[|before| + 1..] == path;
  }

  /** `scheme://host/owner/repo`, as `https` remotes are written. */
  lemma PlainUrl(scheme: string, host: string, owner: string, repo: string, suffix: string)
    requires Plain(scheme) && Plain(host) && Plain(owner) && Plain(repo)
    requires StripGit(owner + "/" + repo) == owner + "/" + repo
    requires suffix == "" || suffix == ".git"
    ensures Tail(scheme + "://" + host + "/" + (owner + "/" + repo) + suffix) == ToLower(owner + "/" + repo)
  {
    var tail := owner + "/" + repo;
    var front := scheme + "://" + host + "/";
    var path := host + "/" + tail;
    assert front + tail == scheme + "://" + path;
    SchemeDropped(scheme, path);
    NoColon(path);
    TailFrom(front, host, owner, repo, suffix);
  }

  /** `user@host:owner/repo`, as `git@` remotes are written. */
  lemma ScpUrl(login: string, owner: string, repo: string, suffix: string)
    requires Plain(login) && Plain(owner) && Plain(repo)
    requires StripGit(owner + "/" + repo) == owner + "/" + repo
    requires suffix == "" || suffix == ".git"
    ensures Tail(login + ":" + (owner + "/" + repo) + suffix) == ToLower(owner + "/" + repo)
  {
    var tail := owner + "/" + repo;
    var front := login + ":";
    var url := front + tail;
    forall i | 0 <= i < |url| - 1 ensures url[i] != ':' || url[i + 1] != '/' {
      if i == |login| { assert url[i + 1] == owner[0]; }
    }
    NoScheme(url, 0);
    ColonDropped(login, tail);
    TailFrom(front, "", owner, repo, suffix);
  }

  /** `scheme://user@host:port/owner/repo`, as `ssh` remotes are written. */
  lemma PortUrl(scheme: string, login: string, port: string, owner: string, repo: string, suffix: string)
    requires Plain(scheme) && Plain(login) && Plain(port) && Plain(owner) && Plain(repo)
    requires StripGit(owner + "/" + repo) == owner + "/" + repo
    requires suffix == "" || suffix == ".git"
    ensures Tail(scheme + "://" + login + ":" + port + "/" + (owner + "/" + repo) + suffix)
         == ToLower(owner + "/" + repo)
  {
    var tail := owner + "/" + repo;
    var front := scheme + "://" + login + ":" + port + "/";
    var path := port + "/" + tail;
    assert front + tail == scheme + "://" + (login + ":" + path);
    SchemeDropped(scheme, login + ":" + path);
    ColonDropped(login, path);
    TailFrom(front, port, owner, repo, suffix);
  }

  lemma {:induction false} NoColon(s: string)
    requires forall i :: 0 <= i < |s| ==> s[i] != ':'
    ensures AfterColon(s) == s
  {
  }
}
