/** The pure decisions of a transfer: which repository, which workspace, which chat, what to say. */
module TransferDecisions {
  import opened Options
  import opened Text
  import opened TransferWorld

  // ---------------------------------------------------------------- commits

  predicate IsHexDigit(c: char) {
    '0' <= c <= '9' || 'a' <= c <= 'f' || 'A' <= c <= 'F'
  }

  predicate AllHex(s: string) {
    forall i :: 0 <= i < |s| ==> IsHexDigit(s[i])
  }

  function Normalised(sha: string): string {
    ToLower(RustTrim(sha))
  }

  predicate ShasMatch(l: string, r: string) {
    var shared := if |l| <= |r| then |l| else |r|;
    shared >= 7 && AllHex(l) && AllHex(r) && l[..shared] == r[..shared]
  }

  /** Two abbreviated shas naming one commit; neither width is fixed. */
  predicate CommitsMatch(left: string, right: string) {
    ShasMatch(Normalised(left), Normalised(right))
  }

  predicate HeadMatches(head: Option<string>, expected: string) {
    head.Some? && CommitsMatch(head.value, expected)
  }

  ghost predicate Abbreviates(sha: string, full: string) {
    |sha| >= 7 && sha <= full && AllHex(full)
  }

  /** Matching is exactly abbreviating one common sha, with at least seven digits each. */
  lemma MatchingIsAbbreviatingOneCommit(l: string, r: string)
    ensures ShasMatch(l, r) <==> exists full :: Abbreviates(l, full) && Abbreviates(r, full)
  {
    if ShasMatch(l, r) {
      var full := if |l| <= |r| then r else l;
      assert Abbreviates(l, full) && Abbreviates(r, full);
    }
    if full :| Abbreviates(l, full) && Abbreviates(r, full) {
      assert l == full[..|l|] && r == full[..|r|];
    }
  }

  // ---------------------------------------------------------------- the workspace already there

  datatype TargetMatch =
    | Absent
    | Adopt(workspace: Workspace)
    | Diverged(name: string, branch: string, head: Option<string>)
    | Retired(name: string, branch: string)
    | NameTaken(name: string)

  predicate InRepository(w: Workspace, repository: Option<string>) {
    repository.Some? && w.repository == repository.value
  }

  predicate OnBranch(w: Workspace, repository: Option<string>, branch: string) {
    InRepository(w, repository) && w.branch == branch
  }

  function FirstOnBranch(all: seq<Workspace>, repository: Option<string>, branch: string): (r: Option<Workspace>)
    ensures r.None? <==> forall i :: 0 <= i < |all| ==> !OnBranch(all[i], repository, branch)
    ensures r.Some? ==> r.value in all && OnBranch(r.value, repository, branch)
  {
    if all == [] then None
    else if OnBranch(all[0], repository, branch) then Some(all[0])
    else FirstOnBranch(all[1..], repository, branch)
  }

  predicate IsCandidate(w: Workspace, repository: Option<string>) {
    InRepository(w, repository) && !w.archived
  }

  /** The workspaces that could be this transfer's own earlier attempt, in the order listed. */
  function Candidates(all: seq<Workspace>, repository: Option<string>): (cands: seq<Workspace>)
    ensures forall w :: w in cands <==> w in all && IsCandidate(w, repository)
  {
    if all == [] then []
    else
      var front, last := all[..|all| - 1], all[|all| - 1];
      assert all == front + [last];
      Candidates(front, repository) + if IsCandidate(last, repository) then [last] else []
  }

  /** One look at a workspace's head, and what it showed. */
  datatype Look = Look(workspace: string, head: Option<string>)

  /** The first of the first `n` candidates whose look matched the commit. */
  function FirstMatchUpTo(cands: seq<Workspace>, looks: seq<Look>, commit: string, n: nat): Option<Workspace>
    requires n <= |cands| && n <= |looks|
  {
    if n == 0 then None
    else
      var before := FirstMatchUpTo(cands, looks, commit, n - 1);
      if before.None? && HeadMatches(looks[n - 1].head, commit) then Some(cands[n - 1]) else before
  }

  /** The first candidate whose look matched the commit, as far as the looks go. */
  function FirstMatch(cands: seq<Workspace>, looks: seq<Look>, commit: string): Option<Workspace> {
    FirstMatchUpTo(cands, looks, commit, if |cands| < |looks| then |cands| else |looks|)
  }

  ghost predicate MatchesFirstAt(cands: seq<Workspace>, looks: seq<Look>, commit: string, w: Workspace, i: nat) {
    && i < |cands| && i < |looks| && w == cands[i] && HeadMatches(looks[i].head, commit)
    && forall j :: 0 <= j < i ==> !HeadMatches(looks[j].head, commit)
  }

  /** None exactly when no look matched, and otherwise the candidate of the first one that did. */
  lemma {:induction false} FirstMatchUpToIs(cands: seq<Workspace>, looks: seq<Look>, commit: string, n: nat)
    requires n <= |cands| && n <= |looks|
    ensures var r := FirstMatchUpTo(cands, looks, commit, n);
            && (r.None? <==> forall i :: 0 <= i < n ==> !HeadMatches(looks[i].head, commit))
            && (r.Some? ==> exists i: nat :: i < n && MatchesFirstAt(cands, looks, commit, r.value, i))
  {
    hide HeadMatches;
    if n > 0 {
      FirstMatchUpToIs(cands, looks, commit, n - 1);
      var r := FirstMatchUpTo(cands, looks, commit, n);
      if r.Some? && FirstMatchUpTo(cands, looks, commit, n - 1).None? {
        assert MatchesFirstAt(cands, looks, commit, r.value, n - 1);
      }
    }
  }

  lemma FirstMatchIs(cands: seq<Workspace>, looks: seq<Look>, commit: string)
    ensures var r := FirstMatch(cands, looks, commit);
            && (r.None? <==> forall i :: 0 <= i < |cands| && i < |looks| ==> !HeadMatches(looks[i].head, commit))
            && (r.Some? ==> exists i: nat :: MatchesFirstAt(cands, looks, commit, r.value, i))
  {
    hide HeadMatches, MatchesFirstAt, FirstMatchUpTo;
    FirstMatchUpToIs(cands, looks, commit, if |cands| < |looks| then |cands| else |looks|);
  }

  /** Each look was at the candidate it stands for. */
  predicate InStep(cands: seq<Workspace>, looks: seq<Look>) {
    forall i :: 0 <= i < |cands| && i < |looks| ==> looks[i].workspace == cands[i].name
  }

  /** The look after every candidate's: the second one, at the workspace on our branch. */
  function LastLook(cands: seq<Workspace>, looks: seq<Look>): Option<string> {
    if |looks| > |cands| then looks[|cands|].head else None
  }

  /** The verdict for one listing and the looks taken at it. */
  function Decide(
    all: seq<Workspace>, repository: Option<string>, branch: string, name: string, commit: Option<string>,
    looks: seq<Look>): TargetMatch
  {
    var onBranch := FirstOnBranch(all, repository, branch);
    if onBranch.Some? && onBranch.value.archived then Retired(onBranch.value.name, onBranch.value.branch)
    else if commit.None? then (if onBranch.Some? then Adopt(onBranch.value) else Absent)
    else
      var cands := Candidates(all, repository);
      var own := FirstMatch(cands, looks, commit.value);
      if own.Some? then Adopt(own.value)
      else if onBranch.Some? then
        var again := LastLook(cands, looks);
        if HeadMatches(again, commit.value) then Adopt(onBranch.value)
        else Diverged(onBranch.value.name, onBranch.value.branch, again)
      else if NameInUse(all, name) then NameTaken(name)
      else Absent
  }

  /** The looks a verdict takes: none, or candidates in order up to a match, or all of them and then our branch's. */
  predicate Settled(
    all: seq<Workspace>, repository: Option<string>, branch: string, commit: Option<string>, looks: seq<Look>)
  {
    var onBranch := FirstOnBranch(all, repository, branch);
    var cands := Candidates(all, repository);
    if commit.None? || (onBranch.Some? && onBranch.value.archived) then looks == []
    else
      && InStep(cands, looks)
      && if FirstMatch(cands, looks, commit.value).Some? then 0 < |looks| <= |cands|
         else if onBranch.Some? then |looks| == |cands| + 1 && looks[|cands|].workspace == onBranch.value.name
         else |looks| == |cands|
  }

  /**
   * What adopting means: this repository, not archived, on our branch or found by its commit,
   * and, when the commit is known, a look at that very workspace that matched it.
   */
  lemma AdoptMeans(
    all: seq<Workspace>, repository: Option<string>, branch: string, name: string, commit: Option<string>,
    looks: seq<Look>)
    requires Settled(all, repository, branch, commit, looks)
    requires Decide(all, repository, branch, name, commit, looks).Adopt?
    ensures var w := Decide(all, repository, branch, name, commit, looks).workspace;
            && w in all && IsCandidate(w, repository)
            && (commit.None? ==> w.branch == branch)
            && (commit.Some? ==> exists h :: Look(w.name, h) in looks && HeadMatches(h, commit.value))
  {
    hide HeadMatches;
    var w := Decide(all, repository, branch, name, commit, looks).workspace;
    if commit.Some? {
      var cands := Candidates(all, repository);
      FirstMatchIs(cands, looks, commit.value);
      if FirstMatch(cands, looks, commit.value).Some? {
        var i: nat :| MatchesFirstAt(cands, looks, commit.value, w, i);
        assert looks[i] == Look(w.name, looks[i].head) && looks[i] in looks;
      } else {
        assert looks[|cands|] == Look(w.name, looks[|cands|].head) && looks[|cands|] in looks;
      }
    }
  }

  /**
   * A retry resumes exactly when it can: with a known commit, some unarchived workspace of the
   * repository showed a head that matched, and the branch's own is not an archived one.
   */
  lemma AdoptsExactlyWhen(
    all: seq<Workspace>, repository: Option<string>, branch: string, name: string, commit: string,
    looks: seq<Look>)
    requires Settled(all, repository, branch, Some(commit), looks)
    ensures var onBranch := FirstOnBranch(all, repository, branch);
            Decide(all, repository, branch, name, Some(commit), looks).Adopt? <==>
            && !(onBranch.Some? && onBranch.value.archived)
            && exists w, h :: w in all && IsCandidate(w, repository) && Look(w.name, h) in looks
                              && HeadMatches(h, commit)
  {
    hide HeadMatches;
    var onBranch, cands := FirstOnBranch(all, repository, branch), Candidates(all, repository);
    FirstMatchIs(cands, looks, commit);
    if Decide(all, repository, branch, name, Some(commit), looks).Adopt? {
      AdoptMeans(all, repository, branch, name, Some(commit), looks);
      var w := Decide(all, repository, branch, name, Some(commit), looks).workspace;
      assert w in all;
    } else if !(onBranch.Some? && onBranch.value.archived) {
      forall w, h | w in all && IsCandidate(w, repository) && Look(w.name, h) in looks
        ensures !HeadMatches(h, commit)
      {
        var i :| 0 <= i < |looks| && looks[i] == Look(w.name, h);
      }
    }
  }

  /** Exactly when a transfer imports: the one verdict that lets a second workspace appear. */
  lemma AbsentExactlyWhen(
    all: seq<Workspace>, repository: Option<string>, branch: string, name: string, commit: Option<string>,
    looks: seq<Look>)
    requires Settled(all, repository, branch, commit, looks)
    ensures Decide(all, repository, branch, name, commit, looks).Absent? <==>
            && (repository.Some? ==> !BranchInUse(all, repository.value, branch))
            && (commit.Some? ==>
                  && !NameInUse(all, name)
                  && forall w :: w in all && IsCandidate(w, repository) ==>
                       exists h :: Look(w.name, h) in looks && !HeadMatches(h, commit.value))
            && (commit.Some? ==> forall look :: look in looks ==> !HeadMatches(look.head, commit.value))
  {
    hide HeadMatches;
    var onBranch := FirstOnBranch(all, repository, branch);
    assert repository.Some? ==>
        (BranchInUse(all, repository.value, branch)
         <==> exists i :: 0 <= i < |all| && OnBranch(all[i], repository, branch));
    if commit.Some? && onBranch.None? {
      LooksCoverCandidates(all, repository, looks, commit.value);
    }
  }

  /** When nothing matched and nothing is on our branch, every candidate was looked at and none matched. */
  lemma LooksCoverCandidates(all: seq<Workspace>, repository: Option<string>, looks: seq<Look>, commit: string)
    requires var cands := Candidates(all, repository);
             InStep(cands, looks) && (FirstMatch(cands, looks, commit).None? ==> |looks| == |cands|)
             && (FirstMatch(cands, looks, commit).Some? ==> |looks| <= |cands|)
    ensures FirstMatch(Candidates(all, repository), looks, commit).None? <==>
            forall look :: look in looks ==> !HeadMatches(look.head, commit)
    ensures FirstMatch(Candidates(all, repository), looks, commit).None? ==>
            forall w :: w in all && IsCandidate(w, repository) ==>
              exists h :: Look(w.name, h) in looks && !HeadMatches(h, commit)
  {
    hide HeadMatches;
    var cands := Candidates(all, repository);
    FirstMatchIs(cands, looks, commit);
    if FirstMatch(cands, looks, commit).None? {
      forall w | w in all && IsCandidate(w, repository)
        ensures exists h :: Look(w.name, h) in looks && !HeadMatches(h, commit)
      {
        var i :| 0 <= i < |cands| && cands[i] == w;
        assert looks[i] == Look(w.name, looks[i].head) && looks[i] in looks;
      }
    } else {
      var w := FirstMatch(cands, looks, commit).value;
      var i: nat :| MatchesFirstAt(cands, looks, commit, w, i);
      assert looks[i] in looks;
    }
  }

  /** An earlier import still under its name is never imported beside, once the pushed commit is known. */
  lemma KnownCommitNeverImportsBeside(
    all: seq<Workspace>, repository: Option<string>, branch: string, name: string, commit: string,
    looks: seq<Look>, earlier: Workspace)
    requires earlier in all && earlier.name == name
    ensures !Decide(all, repository, branch, name, Some(commit), looks).Absent?
  {
    hide HeadMatches;
    assert NameInUse(all, name) by {
      var i :| 0 <= i < |all| && all[i] == earlier;
      assert all[i].name == name;
    }
  }

  /** Without a pushed commit the name is not looked at: an import versioned off its branch is not seen. */
  lemma UnknownCommitCanImportBeside()
    ensures var earlier := Workspace("berlin", "app", "lc/work-v2", false, Some("0123456789ab"));
            Decide([earlier], Some("app"), "lc/work", "berlin", None, []).Absent?
            && Settled([earlier], Some("app"), "lc/work", None, [])
  {
    var earlier := Workspace("berlin", "app", "lc/work-v2", false, Some("0123456789ab"));
    assert earlier.branch[|earlier.branch| - 1] == '2';
    assert !OnBranch(earlier, Some("app"), "lc/work");
  }

  // ---------------------------------------------------------------- the chat that moves

  datatype Chat = Chat(thread: ThreadId, provider: string, title: string, updatedAt: int,
                       liveSession: Option<SessionId>)

  /** Every chat of a listing that is not archived was asked for its session. */
  predicate AllAsked(listed: seq<ListedChat>, asked: map<ThreadId, Option<SessionId>>) {
    forall c <- listed :: c.thread.archived || c.id in asked
  }

  /** The chats that are not archived, each with the live session its snapshot showed. */
  function ChatsOf(listed: seq<ListedChat>, asked: map<ThreadId, Option<SessionId>>): seq<Chat>
    requires AllAsked(listed, asked)
  {
    if listed == [] then []
    else
      var front, last := listed[..|listed| - 1], listed[|listed| - 1];
      assert listed == front + [last];
      ChatsOf(front, asked)
      + if last.thread.archived then []
        else [Chat(last.id, last.thread.provider, last.thread.title, last.thread.updatedAt, asked[last.id])]
  }

  /** The chat a person was looking at: the last of the most recently touched. */
  function LatestChat(chats: seq<Chat>): (r: Option<Chat>)
    ensures r.None? <==> chats == []
    ensures r.Some? ==> r.value in chats && forall c :: c in chats ==> c.updatedAt <= r.value.updatedAt
  {
    if chats == [] then None
    else
      var front, last := chats[..|chats| - 1], chats[|chats| - 1];
      assert chats == front + [last];
      var best := LatestChat(front);
      if best.Some? && best.value.updatedAt > last.updatedAt then best else Some(last)
  }

  function ChatWithId(chats: seq<Chat>, id: ThreadId): (r: Option<Chat>)
    ensures r.None? <==> forall c :: c in chats ==> c.thread != id
    ensures r.Some? ==> r.value in chats && r.value.thread == id
  {
    if chats == [] then None else if chats[0].thread == id then Some(chats[0]) else ChatWithId(chats[1..], id)
  }

  function MovingChat(chats: seq<Chat>, choice: Option<ThreadId>): Option<Chat> {
    if choice.Some? then ChatWithId(chats, choice.value) else LatestChat(chats)
  }

  function ThreadOf(chat: Option<Chat>): Option<ThreadId> {
    if chat.Some? then Some(chat.value.thread) else None
  }

  function LiveSessions(chats: seq<Chat>): (sessions: seq<SessionId>)
    ensures forall s :: s in sessions <==> exists i :: 0 <= i < |chats| && chats[i].liveSession == Some(s)
  {
    if chats == [] then []
    else
      var front, last := chats[..|chats| - 1], chats[|chats| - 1];
      assert chats == front + [last];
      assert forall i :: 0 <= i < |front| ==> chats[i] == front[i];
      LiveSessions(front) + if last.liveSession.Some? then [last.liveSession.value] else []
  }

  // ---------------------------------------------------------------- the chat to resume

  predicate NewerFirst(chats: seq<ListedChat>) {
    forall i :: 0 <= i < |chats| - 1 ==> chats[i].thread.updatedAt >= chats[i + 1].thread.updatedAt
  }

  function InsertChat(c: ListedChat, sorted: seq<ListedChat>): (r: seq<ListedChat>)
    ensures r != [] && (r[0] == c || (sorted != [] && r[0] == sorted[0]))
    ensures NewerFirst(sorted) ==> NewerFirst(r)
  {
    if sorted == [] || c.thread.updatedAt >= sorted[0].thread.updatedAt then [c] + sorted
    else [sorted[0]] + InsertChat(c, sorted[1..])
  }

  /** A stable sort on the time of the last change, newest first. */
  function NewestFirst(chats: seq<ListedChat>): (r: seq<ListedChat>)
    ensures NewerFirst(r)
  {
    if chats == [] then [] else InsertChat(chats[0], NewestFirst(chats[1..]))
  }

  lemma {:induction false} InsertChatKeeps(c: ListedChat, sorted: seq<ListedChat>)
    ensures multiset(InsertChat(c, sorted)) == multiset(sorted) + multiset{c}
  {
    hide NewerFirst;
    if sorted != [] && c.thread.updatedAt < sorted[0].thread.updatedAt {
      InsertChatKeeps(c, sorted[1..]);
      assert sorted == [sorted[0]] + sorted[1..];
    }
  }

  /** Sorting loses no chat and invents none. */
  lemma {:induction false} NewestFirstKeeps(chats: seq<ListedChat>)
    ensures multiset(NewestFirst(chats)) == multiset(chats)
  {
    hide NewerFirst, InsertChat;
    if chats != [] {
      NewestFirstKeeps(chats[1..]);
      InsertChatKeeps(chats[0], NewestFirst(chats[1..]));
      assert chats == [chats[0]] + chats[1..];
    }
  }

  predicate Unarchived(c: ListedChat) {
    !c.thread.archived
  }

  function KeepUnarchived(chats: seq<ListedChat>): (r: seq<ListedChat>)
    ensures forall c :: c in r <==> c in chats && Unarchived(c)
  {
    if chats == [] then []
    else
      var rest := KeepUnarchived(chats[1..]);
      if Unarchived(chats[0]) then [chats[0]] + rest else rest
  }

  /** The chats a workspace could be resumed in, newest first. */
  function LiveChats(chats: seq<ListedChat>): (live: seq<ListedChat>)
    ensures NewerFirst(live)
  {
    NewestFirst(KeepUnarchived(chats))
  }

  lemma LiveChatsAre(chats: seq<ListedChat>, c: ListedChat)
    ensures c in LiveChats(chats) <==> c in chats && Unarchived(c)
  {
    hide NewestFirst, KeepUnarchived, NewerFirst;
    var kept := KeepUnarchived(chats);
    NewestFirstKeeps(kept);
    assert c in kept <==> c in multiset(kept);
    assert c in NewestFirst(kept) <==> c in multiset(NewestFirst(kept));
  }

  /** What the chats answered; a chat that could not be read is not in it. */
  type Replies = map<ThreadId, seq<Message>>

  predicate Delivered(replies: Replies, t: ThreadId, preamble: string) {
    t in replies && HasDeliveredHandover(replies[t], preamble)
  }

  predicate Seeded(replies: Replies, t: ThreadId) {
    t in replies && HasSeededHistory(replies[t])
  }

  /** The first chat already handed over. */
  function FirstDelivered(live: seq<ListedChat>, replies: Replies, preamble: string): (r: Option<ThreadId>)
    ensures r.None? <==> forall i :: 0 <= i < |live| ==> !Delivered(replies, live[i].id, preamble)
    ensures r.Some? ==> exists i :: 0 <= i < |live| && live[i].id == r.value && Delivered(replies, live[i].id, preamble)
                                    && forall j :: 0 <= j < i ==> !Delivered(replies, live[j].id, preamble)
  {
    if live == [] then None
    else if Delivered(replies, live[0].id, preamble) then Some(live[0].id)
    else
      var rest := FirstDelivered(live[1..], replies, preamble);
      assert forall i :: 1 <= i < |live| ==> live[i] == live[1..][i - 1];
      assert rest.Some? ==> exists i :: 0 <= i < |live| && live[i].id == rest.value
                                        && Delivered(replies, live[i].id, preamble)
                                        && forall j :: 0 <= j < i ==> !Delivered(replies, live[j].id, preamble) by {
        if rest.Some? {
          var k :| 0 <= k < |live[1..]| && live[1..][k].id == rest.value
                   && Delivered(replies, live[1..][k].id, preamble)
                   && forall j :: 0 <= j < k ==> !Delivered(replies, live[1..][j].id, preamble);
          assert live[k + 1].id == rest.value;
          forall j | 0 <= j < k + 1
            ensures !Delivered(replies, live[j].id, preamble)
          {
            assert j > 0 ==> live[j] == live[1..][j - 1];
          }
        }
      }
      rest
  }

  /** The first chat with copied history. */
  function FirstSeeded(live: seq<ListedChat>, replies: Replies): (r: Option<ThreadId>)
    ensures r.None? <==> forall i :: 0 <= i < |live| ==> !Seeded(replies, live[i].id)
    ensures r.Some? ==> exists i :: 0 <= i < |live| && live[i].id == r.value && Seeded(replies, live[i].id)
  {
    if live == [] then None
    else if Seeded(replies, live[0].id) then Some(live[0].id)
    else
      var rest := FirstSeeded(live[1..], replies);
      assert forall i :: 1 <= i < |live| ==> live[i] == live[1..][i - 1];
      rest
  }

  /**
   * The chat an adopted workspace is resumed in, given what each chat answered:
   * one already handed over, else one with copied history, else the newest.
   */
  function ChooseThread(live: seq<ListedChat>, replies: Replies, preamble: string): Option<ThreadId> {
    var handedOver := FirstDelivered(live, replies, preamble);
    if handedOver.Some? then handedOver
    else
      var seeded := FirstSeeded(live, replies);
      if seeded.Some? then seeded else if live == [] then None else Some(live[0].id)
  }

  /** Enough chats were looked at to choose: all of them, or all down to the first one handed over. */
  predicate LookedEnough(live: seq<ListedChat>, asked: set<ThreadId>, replies: Replies, preamble: string) {
    || (forall i :: 0 <= i < |live| ==> live[i].id in asked)
    || (exists i :: 0 <= i < |live| && Delivered(replies, live[i].id, preamble)
                    && forall j :: 0 <= j < i ==> live[j].id in asked)
  }

  /** A retry finds the chat an earlier run handed over, whatever else was opened since. */
  lemma HandedOverChatWins(live: seq<ListedChat>, replies: Replies, k: nat, preamble: string)
    requires k < |live| && Delivered(replies, live[k].id, preamble)
    ensures exists i :: 0 <= i <= k && ChooseThread(live, replies, preamble) == Some(live[i].id)
                        && Delivered(replies, live[i].id, preamble)
  {
    hide Delivered;
    var handedOver := FirstDelivered(live, replies, preamble);
    var i :| 0 <= i < |live| && live[i].id == handedOver.value && Delivered(replies, live[i].id, preamble)
             && forall j :: 0 <= j < i ==> !Delivered(replies, live[j].id, preamble);
    assert i <= k;
  }

  /**
   * Exactly when the chosen chat answered with neither a handover nor copied history:
   * when no chat did. The comment on the source says the caller then refuses; it
   * refuses only when there is no chat at all.
   */
  lemma BareChatChosenExactlyWhen(live: seq<ListedChat>, replies: Replies, preamble: string)
    ensures (exists i :: 0 <= i < |live| && ChooseThread(live, replies, preamble) == Some(live[i].id)
                         && !Delivered(replies, live[i].id, preamble) && !Seeded(replies, live[i].id))
            <==> live != [] && forall i :: 0 <= i < |live| ==> !Delivered(replies, live[i].id, preamble)
                                                               && !Seeded(replies, live[i].id)
    ensures ChooseThread(live, replies, preamble).None? <==> live == []
  {
    hide Delivered, Seeded;
    var handedOver, seeded := FirstDelivered(live, replies, preamble), FirstSeeded(live, replies);
    if live != [] && handedOver.None? && seeded.None? {
      assert ChooseThread(live, replies, preamble) == Some(live[0].id);
    }
  }

  // ---------------------------------------------------------------- what the session is told

  const SHORT_SHA := 12

  function BranchState(commit: Option<string>, words: Wording): string {
    if commit.Some? && RustTrim(commit.value) != "" then
      words.branchAt + commit.value[..if |commit.value| < SHORT_SHA then |commit.value| else SHORT_SHA]
    else
      words.branchPushed
  }

  function Instruction(transcript: seq<TranscriptMessage>, words: Wording): string {
    if transcript != [] && transcript[|transcript| - 1].role == User then
      words.replay + RustTrim(transcript[|transcript| - 1].content)
    else
      words.pickUp
  }

  function ResumeMessage(
    transcript: seq<TranscriptMessage>, fromLabel: string, toLabel: string, commit: Option<string>, words: Wording)
    : string
  {
    words.preamble
    + (fromLabel + " to " + toLabel + "; " + BranchState(commit, words) + ".")
    + Instruction(transcript, words)
  }

  /** Builder and recogniser agree: every handover is recognised once a session has written it. */
  lemma HandoverIsRecognised(
    transcript: seq<TranscriptMessage>, fromLabel: string, toLabel: string, commit: Option<string>, words: Wording)
    ensures var m := ResumeMessage(transcript, fromLabel, toLabel, commit, words);
            && StartsWith(m, words.preamble)
            && IsDeliveredHandover(Message(User, UserSend, m), words.preamble)
            && !IsDeliveredHandover(Message(User, Forked, m), words.preamble)
  {
    PrefixOfConcatenation(
      words.preamble, fromLabel + " to " + toLabel + "; " + BranchState(commit, words) + ".",
      Instruction(transcript, words));
  }

  lemma PrefixOfConcatenation(a: string, b: string, c: string)
    ensures StartsWith(a + b + c, a)
  {
  }

  /** A conversation that ends on a person's words has them repeated, whole, at the end of the handover. */
  ghost predicate ReplaysAsk(transcript: seq<TranscriptMessage>, content: string) {
    transcript != [] && transcript[|transcript| - 1].role == User ==>
      var ask := RustTrim(transcript[|transcript| - 1].content);
      |ask| <= |content| && content[|content| - |ask|..] == ask
  }

  /** A pending ask is replayed whole at the end of the handover. */
  lemma PendingAskIsReplayed(
    transcript: seq<TranscriptMessage>, fromLabel: string, toLabel: string, commit: Option<string>, words: Wording)
    ensures ReplaysAsk(transcript, ResumeMessage(transcript, fromLabel, toLabel, commit, words))
  {
    hide RustTrim, BranchState;
    if transcript != [] && transcript[|transcript| - 1].role == User {
      SuffixOfConcatenation(
        words.preamble, fromLabel + " to " + toLabel + "; " + BranchState(commit, words) + ".", words.replay,
        RustTrim(transcript[|transcript| - 1].content));
    }
  }

  lemma SuffixOfConcatenation(a: string, b: string, c: string, d: string)
    ensures var m := a + b + (c + d); |d| <= |m| && m[|m| - |d|..] == d
  {
  }

  /** A chat made of copied rows only, whatever they say, counts as never handed over. */
  lemma SeededRowsNeverCount(transcript: seq<TranscriptMessage>, preamble: string)
    ensures !HasDeliveredHandover(SeededRows(transcript), preamble)
    ensures transcript != [] ==> HasSeededHistory(SeededRows(transcript))
  {
    if transcript != [] {
      assert SeededRows(transcript)[0].source == Forked;
    }
  }

  function SeededRows(transcript: seq<TranscriptMessage>): (rows: seq<Message>)
    ensures |rows| == |transcript|
    ensures forall i :: 0 <= i < |rows| ==>
              rows[i] == Message(transcript[i].role, Forked, transcript[i].content)
  {
    seq(|transcript|, i requires 0 <= i < |transcript| =>
      Message(transcript[i].role, Forked, transcript[i].content))
  }
}
