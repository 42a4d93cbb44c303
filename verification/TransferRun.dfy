/** One run of `archductor remote transfer`, function by function, and any number of re-runs. */
module TransferRun {
  import opened Options
  import opened Text
  import opened TransferWorld
  import opened TransferDecisions
  import opened TransferRecord
  import opened RepositoryUrl
  import opened Transfer

  // ---------------------------------------------------------------- step 1: stop

  /** The source workspace by name, and the remote URL of its repository, from the source's own lists. */
  method FindSource(w: World, workspace: string) returns (r: Result<(Workspace, string), Failure>)
    requires w.Valid() && w.safe
    modifies w
    ensures w.Valid() && w.safe
    ensures var s, s' := old(w.view).source, w.view.source;
            && w.view == old(w.view).(source := s')
            && s' == s.(workspaces := s'.workspaces, repositories := s'.repositories)
            && (r.Ok? ==> s'.workspaces.Some? && s'.repositories.Some?
                          && WorkspaceNamed(s'.workspaces.value, workspace) == Some(r.value.0)
                          && RemoteUrlOf(s'.repositories.value, r.value.0.repository) == Some(r.value.1))
  {
    hide Summarised, TargetAgrees, SourceAgrees, NameInUse, HasDeliveredHandover, NextView, StepOk;
    var workspaces := w.AskSourceWorkspaces();
    if !workspaces.Answer? {
      return Err(if workspaces.Lost? then Transport else RefusedBy);
    }
    var remote := WorkspaceNamed(workspaces.value, workspace);
    if remote.None? {
      return Err(NotFound);
    }
    var repositories := w.AskSourceRepositories();
    if !repositories.Answer? {
      return Err(if repositories.Lost? then Transport else RefusedBy);
    }
    var url := RemoteUrlOf(repositories.value, remote.value.repository);
    if url.None? {
      return Err(NotFound);
    }
    return Ok((remote.value, url.value));
  }

  /** Asking one more chat changes nothing about those before it. */
  lemma {:induction false} ChatsOfAskedMore(
    listed: seq<ListedChat>, asked: map<ThreadId, Option<SessionId>>, id: ThreadId, holder: Option<SessionId>)
    requires AllAsked(listed, asked) && forall c <- listed :: c.id != id
    ensures AllAsked(listed, asked[id := holder]) && ChatsOf(listed, asked[id := holder]) == ChatsOf(listed, asked)
  {
    if listed != [] {
      var front := listed[..|listed| - 1];
      assert listed == front + [listed[|listed| - 1]];
      ChatsOfAskedMore(front, asked, id, holder);
    }
  }

  lemma ChatsOfOneMore(listed: seq<ListedChat>, asked: map<ThreadId, Option<SessionId>>, i: nat)
    requires i < |listed| && AllAsked(listed[..i], asked) && (listed[i].thread.archived || listed[i].id in asked)
    ensures AllAsked(listed[..i + 1], asked)
    ensures ChatsOf(listed[..i + 1], asked)
         == ChatsOf(listed[..i], asked)
            + if listed[i].thread.archived then []
              else [Chat(listed[i].id, listed[i].thread.provider, listed[i].thread.title, listed[i].thread.updatedAt,
                         asked[listed[i].id])]
  {
    assert listed[..i + 1] == listed[..i] + [listed[i]];
    assert listed[..i + 1][..i] == listed[..i];
  }

  lemma NoChats(asked: map<ThreadId, Option<SessionId>>)
    ensures AllAsked([], asked) && ChatsOf([], asked) == []
  {
  }

  /** The chats that are not archived, each asked for the session that holds it. */
  method SourceChats(w: World, workspace: string) returns (r: Result<seq<Chat>, Failure>)
    requires w.Valid() && w.safe && w.view.source.live == {}
    modifies w
    ensures w.Valid() && w.safe
    ensures var s, s' := old(w.view).source, w.view.source;
            && w.view == old(w.view).(source := s')
            && s' == s.(of := s'.of, chats := s'.chats, asked := s'.asked, live := s'.live)
            && (r.Ok? ==> s'.of == Some(workspace) && Surveyed(s') && r.value == ChatsOf(s'.chats, s'.asked)
                          && forall session :: session in s'.live <==> session in LiveSessions(r.value))
  {
    hide Summarised, TargetAgrees, SourceAgrees, HasDeliveredHandover, ChatsOf, AllAsked, NextView, StepOk;
    var threads := w.AskSourceChats(workspace);
    if !threads.Answer? {
      return Err(if threads.Lost? then Transport else RefusedBy);
    }
    var listed := threads.value;
    var chats := [];
    NoChats(map[]);
    assert listed[..0] == [];
    var i := 0;
    while i < |listed|
      invariant 0 <= i <= |listed|
      invariant w.Valid() && w.safe
      invariant var s, s' := old(w.view).source, w.view.source;
                && w.view == old(w.view).(source := s')
                && s' == s.(of := Some(workspace), chats := listed, asked := s'.asked, live := s'.live)
      invariant AllAsked(listed[..i], w.view.source.asked) && chats == ChatsOf(listed[..i], w.view.source.asked)
      invariant forall session :: session in w.view.source.live <==> session in LiveSessions(chats)
    {
      var thread := listed[i];
      if !thread.thread.archived {
        ghost var asked := w.view.source.asked;
        var session := w.AskLiveSession(thread.id);
        if !session.Answer? {
          return Err(if session.Lost? then Transport else RefusedBy);
        }
        ChatsOfAskedMore(listed[..i], asked, thread.id, session.value);
        var chat := Chat(thread.id, thread.thread.provider, thread.thread.title, thread.thread.updatedAt,
                         session.value);
        OneMoreSession(chats, chat);
        chats := chats + [chat];
      }
      ChatsOfOneMore(listed, w.view.source.asked, i);
      i := i + 1;
    }
    assert listed[..i] == listed;
    return Ok(chats);
  }

  lemma OneMoreSession(chats: seq<Chat>, chat: Chat)
    ensures forall s :: s in LiveSessions(chats + [chat]) <==> s in LiveSessions(chats) || chat.liveSession == Some(s)
  {
    assert (chats + [chat])[..|chats|] == chats;
  }

  /** Refuses while anything runs; under `--force`, kills and watches each session go. */
  method StopSourceSessions(w: World, chats: seq<Chat>, force: bool) returns (r: Result<(), Failure>)
    requires w.Valid() && w.safe && w.view.force == force && Surveyed(w.view.source) && w.view.source.moving.Some?
    requires forall s :: s in w.view.source.live <==> s in LiveSessions(chats)
    modifies w
    ensures w.Valid() && w.safe
    ensures var s, s' := old(w.view).source, w.view.source;
            && w.view == old(w.view).(source := s')
            && s' == s.(killed := s'.killed, ended := s'.ended, errored := s'.errored)
    ensures r.Ok? ==> MayChange(w.view) && Stopped(w.view.source)
    ensures !force && LiveSessions(chats) != [] ==> r == Err(SessionsStillLive) && w.log == old(w.log)
  {
    hide Summarised, TargetAgrees, SourceAgrees, HasDeliveredHandover, AllAsked, NextView, StepOk;
    var live := LiveSessions(chats);
    if live == [] {
      return Ok(());
    }
    if !force {
      return Err(SessionsStillLive);
    }
    var i := 0;
    while i < |live|
      invariant 0 <= i <= |live|
      invariant w.Valid() && w.safe
      invariant w.view == old(w.view).(source := old(w.view).source.(killed := w.view.source.killed))
      invariant forall j :: 0 <= j < i ==> live[j] in w.view.source.killed
    {
      assert live[i] in LiveSessions(chats);
      var killed := w.KillSession(live[i]);
      if killed.Lost? || killed.Refused? {
        return Err(if killed.Lost? then Transport else RefusedBy);
      }
      i := i + 1;
    }
    i := 0;
    while i < |live|
      invariant 0 <= i <= |live|
      invariant w.Valid() && w.safe
      invariant var s, s' := old(w.view).source, w.view.source;
                && w.view == old(w.view).(source := s')
                && s' == s.(killed := s'.killed, ended := s'.ended, errored := s'.errored)
      invariant forall j :: 0 <= j < |live| ==> live[j] in w.view.source.killed
      invariant forall j :: 0 <= j < i ==> live[j] in w.view.source.ended + w.view.source.errored
    {
      var _ :- WaitForSourceSessionExit(w, live[i]);
      i := i + 1;
    }
    return Ok(());
  }

  /** Polls until the daemon says the session is over, or will not say. */
  method WaitForSourceSessionExit(w: World, session: SessionId) returns (r: Result<(), Failure>)
    requires w.Valid() && w.safe
    modifies w
    ensures w.Valid() && w.safe
    ensures var s, s' := old(w.view).source, w.view.source;
            && w.view == old(w.view).(source := s.(ended := s'.ended, errored := s'.errored))
            && s.ended <= s'.ended && s.errored <= s'.errored
            && (r.Ok? ==> session in s'.ended + s'.errored)
  {
    hide Summarised, TargetAgrees, SourceAgrees, HasDeliveredHandover, NextView, StepOk;
    var patience: nat := *;
    while true
      invariant w.Valid() && w.safe && w.view == old(w.view)
      decreases patience
    {
      var over := w.AskSessionEnded(session);
      if over.Lost? {
        return Err(Transport);
      }
      if over == Answer(true) || over.Refused? {
        return Ok(());
      }
      if patience == 0 {
        return Err(StillRunning);
      }
      patience := patience - 1;
    }
  }

  // ---------------------------------------------------------------- step 2: publish

  /** Commits what there is, pushes, and reads back the head that was pushed. */
  method PublishSourceBranch(w: World, workspace: string) returns (r: Result<Option<string>, Failure>)
    requires w.Valid() && w.safe && MayChange(w.view) && Stopped(w.view.source)
    requires w.view.source.of == Some(workspace) && w.view.source.moving.Some?
    modifies w
    ensures w.Valid() && w.safe
    ensures var s, s' := old(w.view).source, w.view.source;
            && w.view == old(w.view).(source := s')
            && s' == s.(committed := s'.committed, pushed := s'.pushed, head := s'.head)
            && (s'.pushed == s.pushed || s'.pushed == Some(workspace))
    ensures r.Ok? ==> w.view.source.committed == w.view.source.pushed == Some(workspace)
                      && w.view.source.head == Some(r.value)
    ensures r.Ok? && r.value.Some? ==> r.value == HeadOf(w.source.workspaces, workspace)
  {
    hide Summarised, TargetAgrees, SourceAgrees, HasDeliveredHandover, AllAsked, HeadOf, NextView, StepOk;
    var changes := w.AskChanges(workspace);
    if !changes.Answer? {
      return Err(if changes.Lost? then Transport else RefusedBy);
    }
    var committed := w.CommitChanges(workspace);
    if !committed.Answer? || (committed.value.NothingStaged? && changes.value != 0) {
      return Err(if committed.Lost? then Transport else RefusedBy);
    }
    var pushed := w.PushBranch(workspace);
    if pushed.Lost? || pushed.Refused? {
      return Err(if pushed.Lost? then Transport else RefusedBy);
    }
    var head := w.AskSourceHead(workspace);
    if head.Lost? {
      return Err(Transport);
    }
    return Ok(if head.Answer? then head.value else None);
  }

  // ---------------------------------------------------------------- step 3: create or adopt

  /** What the target calls the repository, by its own list. */
  method TargetRepositoryName(w: World, url: string) returns (r: Result<Option<string>, Failure>)
    requires w.Valid() && w.safe
    modifies w
    ensures w.Valid() && w.safe
    ensures var t, t' := old(w.view).target, w.view.target;
            && w.view == old(w.view).(target := t.(repositories := t'.repositories, known := t'.known))
            && (t.repositories.Some? ==> t'.repositories == t.repositories)
            && (r.Ok? ==> t'.known.Some? && r.value == RepositoryName(t'.known.value, url)
                          && (t.repositories.None? ==> t'.repositories == t'.known))
  {
    hide Summarised, TargetAgrees, SourceAgrees, HasDeliveredHandover, RepositoryName, NextView, StepOk;
    var repositories := w.AskTargetRepositories();
    if !repositories.Answer? {
      return Err(if repositories.Lost? then Transport else RefusedBy);
    }
    return Ok(RepositoryName(repositories.value, url));
  }

  /** One look at a head, whatever it shows. */
  method WorkspaceHeadCommit(w: World, workspace: string) returns (r: Result<Option<string>, Failure>)
    requires w.Valid() && w.safe
    modifies w
    ensures w.Valid() && w.safe
    ensures var t, t' := old(w.view).target, w.view.target;
            && w.view == old(w.view).(target := t.(looks := t'.looks))
            && (r.Ok? ==> t'.looks == t.looks + [Look(workspace, r.value)])
    ensures r.Ok? && r.value.Some? ==> r.value == HeadOf(w.target.workspaces, workspace)
  {
    hide Summarised, TargetAgrees, SourceAgrees, HasDeliveredHandover, HeadOf, NextView, StepOk;
    var head := w.AskTargetHead(workspace);
    if head.Lost? {
      return Err(Transport);
    }
    return Ok(if head.Answer? then head.value else None);
  }

  method ListTarget(w: World, url: string) returns (r: Result<(seq<Workspace>, Option<string>), Failure>)
    requires w.Valid() && w.safe && w.view.target.repositories.None?
    modifies w
    ensures w.Valid() && w.safe
    ensures var t, t' := old(w.view).target, w.view.target;
            && w.view == old(w.view).(target := t')
            && t' == t.(workspaces := t'.workspaces, looks := t'.looks, repositories := t'.repositories,
                        known := t'.known)
            && (r.Ok? ==> t'.workspaces == Some(r.value.0) && t'.looks == [] && t'.repositories.Some?
                          && t'.known == t'.repositories && r.value.1 == RepositoryName(t'.repositories.value, url))
  {
    hide Summarised, TargetAgrees, SourceAgrees, HasDeliveredHandover, RepositoryName, NextView, StepOk;
    var workspaces := w.AskTargetWorkspaces();
    if !workspaces.Answer? {
      return Err(if workspaces.Lost? then Transport else RefusedBy);
    }
    var repository :- TargetRepositoryName(w, url);
    return Ok((workspaces.value, repository));
  }

  lemma CandidatesGrow(all: seq<Workspace>, repository: Option<string>, i: nat)
    requires i < |all|
    ensures Candidates(all[..i + 1], repository)
         == if IsCandidate(all[i], repository) then Candidates(all[..i], repository) + [all[i]]
            else Candidates(all[..i], repository)
  {
    assert all[..i + 1][..i] == all[..i];
  }

  lemma {:induction false} CandidatesArePrefix(all: seq<Workspace>, repository: Option<string>, i: nat)
    requires i <= |all|
    ensures Candidates(all[..i], repository) <= Candidates(all, repository)
    decreases |all| - i
  {
    hide Candidates, IsCandidate;
    if i < |all| {
      CandidatesGrow(all, repository, i);
      CandidatesArePrefix(all, repository, i + 1);
    } else {
      assert all[..i] == all;
    }
  }

  /** Every candidate so far was looked at, and none matched. */
  ghost predicate NoneOf(cands: seq<Workspace>, looks: seq<Look>, commit: string) {
    |looks| == |cands| && InStep(cands, looks) && forall j :: 0 <= j < |looks| ==> !HeadMatches(looks[j].head, commit)
  }

  lemma NoneOfMore(cands: seq<Workspace>, looks: seq<Look>, commit: string, w: Workspace, head: Option<string>)
    requires NoneOf(cands, looks, commit) && !HeadMatches(head, commit)
    ensures NoneOf(cands + [w], looks + [Look(w.name, head)], commit)
  {
    hide HeadMatches;
  }

  lemma NoneOfAll(cands: seq<Workspace>, looks: seq<Look>, commit: string)
    requires NoneOf(cands, looks, commit)
    ensures InStep(cands, looks) && |looks| == |cands| && FirstMatch(cands, looks, commit).None?
  {
    hide HeadMatches, FirstMatch;
    FirstMatchIs(cands, looks, commit);
  }

  /** A match at the last look is the first, when none before it matched. */
  lemma MatchIsFirst(
    all: seq<Workspace>, repository: Option<string>, i: nat, looks: seq<Look>, head: Option<string>, commit: string)
    requires i < |all| && IsCandidate(all[i], repository)
    requires NoneOf(Candidates(all[..i], repository), looks, commit) && HeadMatches(head, commit)
    ensures var cands, looks' := Candidates(all, repository), looks + [Look(all[i].name, head)];
            && InStep(cands, looks') && 0 < |looks'| <= |cands| && FirstMatch(cands, looks', commit) == Some(all[i])
  {
    hide HeadMatches, FirstMatch, IsCandidate, Candidates;
    var cands, looks' := Candidates(all, repository), looks + [Look(all[i].name, head)];
    CandidatesGrow(all, repository, i);
    CandidatesArePrefix(all, repository, i + 1);
    var before := Candidates(all[..i], repository);
    assert before + [all[i]] <= cands;
    assert forall j :: 0 <= j < |before| ==> cands[j] == (before + [all[i]])[j] == before[j];
    assert cands[|before|] == (before + [all[i]])[|before|];
    FirstMatchIs(cands, looks', commit);
  }

  /** Looks at the head of each workspace that could be this transfer's own, until one matches. */
  method FindOwnAttempt(w: World, all: seq<Workspace>, repository: Option<string>, commit: string)
    returns (r: Result<Option<Workspace>, Failure>)
    requires w.Valid() && w.safe && w.view.target.looks == []
    modifies w
    ensures w.Valid() && w.safe
    ensures w.view == old(w.view).(target := old(w.view).target.(looks := w.view.target.looks))
    ensures r.Ok? ==>
              var cands, looks := Candidates(all, repository), w.view.target.looks;
              && InStep(cands, looks) && r.value == FirstMatch(cands, looks, commit)
              && (if r.value.Some? then 0 < |looks| <= |cands| else |looks| == |cands|)
  {
    hide Summarised, TargetAgrees, SourceAgrees, HeadMatches, FirstMatch, HeadOf, NoneOf, InStep, IsCandidate,
         Candidates;
    assert all[..0] == [];
    NothingLookedAt(repository, commit);
    var i := 0;
    while i < |all|
      invariant 0 <= i <= |all|
      invariant w.Valid() && w.safe
      invariant w.view == old(w.view).(target := old(w.view).target.(looks := w.view.target.looks))
      invariant NoneOf(Candidates(all[..i], repository), w.view.target.looks, commit)
    {
      CandidatesGrow(all, repository, i);
      if IsCandidate(all[i], repository) {
        ghost var looks := w.view.target.looks;
        var head :- WorkspaceHeadCommit(w, all[i].name);
        if HeadMatches(head, commit) {
          MatchIsFirst(all, repository, i, looks, head, commit);
          return Ok(Some(all[i]));
        }
        NoneOfMore(Candidates(all[..i], repository), looks, commit, all[i], head);
      }
      i := i + 1;
    }
    assert all[..i] == all;
    NoneOfAll(Candidates(all, repository), w.view.target.looks, commit);
    return Ok(None);
  }

  lemma NothingLookedAt(repository: Option<string>, commit: string)
    ensures NoneOf(Candidates([], repository), [], commit)
  {
  }

  /** The verdict is what the target's own answers amount to. */
  method ExistingTargetWorkspace(w: World, q: Request, commit: Option<string>) returns (r: Result<TargetMatch, Failure>)
    requires w.Valid() && w.safe && w.view.target.repositories.None?
    modifies w
    ensures w.Valid() && w.safe
    ensures var t, t' := old(w.view).target, w.view.target;
            && w.view == old(w.view).(target := t')
            && t' == t.(workspaces := t'.workspaces, looks := t'.looks, repositories := t'.repositories,
                        known := t'.known)
    ensures r.Ok? ==> Verdict(w.view.target, q, commit, r.value)
  {
    hide Summarised, TargetAgrees, SourceAgrees, HeadMatches, NameInUse, HasDeliveredHandover, RepositoryName,
         FirstMatch, Candidates, HeadOf;
    var listing :- ListTarget(w, q.url);
    var (all, repository) := listing;

    var onBranch := FirstOnBranch(all, repository, q.branch);
    if onBranch.Some? && onBranch.value.archived {
      return Ok(Retired(onBranch.value.name, onBranch.value.branch));
    }
    if commit.None? {
      return Ok(if onBranch.Some? then Adopt(onBranch.value) else Absent);
    }
    var own :- FindOwnAttempt(w, all, repository, commit.value);
    if own.Some? {
      return Ok(Adopt(own.value));
    }
    if onBranch.Some? {
      ghost var looks := w.view.target.looks;
      var head :- WorkspaceHeadCommit(w, onBranch.value.name);
      LookingOnceMore(Candidates(all, repository), looks, Look(onBranch.value.name, head), commit.value);
      return Ok(if HeadMatches(head, commit.value) then Adopt(onBranch.value)
                else Diverged(onBranch.value.name, onBranch.value.branch, head));
    }
    return Ok(if NameInUse(all, q.name) then NameTaken(q.name) else Absent);
  }

  /** A look after the last candidate's matches no candidate. */
  lemma LookingOnceMore(cands: seq<Workspace>, looks: seq<Look>, look: Look, commit: string)
    requires |looks| == |cands| && InStep(cands, looks) && FirstMatch(cands, looks, commit).None?
    ensures InStep(cands, looks + [look]) && FirstMatch(cands, looks + [look], commit).None?
    ensures LastLook(cands, looks + [look]) == look.head
  {
    hide HeadMatches, FirstMatch;
    FirstMatchIs(cands, looks, commit);
    FirstMatchIs(cands, looks + [look], commit);
  }

  /** No chat has this id. */
  ghost predicate IsFree(id: ThreadId, chats: seq<ListedChat>) {
    forall c :: c in chats ==> c.id != id
  }

  ghost predicate DistinctChats(chats: seq<ListedChat>) {
    chats == [] || (IsFree(chats[0].id, chats[1..]) && DistinctChats(chats[1..]))
  }

  lemma {:induction false} DistinctFromIndices(chats: seq<ListedChat>)
    requires forall i, j :: 0 <= i < j < |chats| ==> chats[i].id != chats[j].id
    ensures DistinctChats(chats)
  {
    if chats != [] {
      var rest := chats[1..];
      assert forall j :: 0 <= j < |rest| ==> rest[j] == chats[j + 1];
      DistinctFromIndices(rest);
    }
  }

  lemma {:induction false} DistinctAt(chats: seq<ListedChat>, i: nat, j: nat)
    requires DistinctChats(chats) && i < j < |chats|
    ensures chats[i].id != chats[j].id
  {
    var rest := chats[1..];
    assert rest[j - 1] == chats[j] && rest[j - 1] in rest;
    if i > 0 {
      DistinctAt(rest, i - 1, j - 1);
    }
  }

  lemma DistinctIndices(chats: seq<ListedChat>)
    requires DistinctChats(chats)
    ensures forall i, j :: 0 <= i < j < |chats| ==> chats[i].id != chats[j].id
  {
    hide DistinctChats;
    forall i, j | 0 <= i < j < |chats|
      ensures chats[i].id != chats[j].id
    {
      DistinctAt(chats, i, j);
    }
  }

  lemma InsertedAre(c: ListedChat, sorted: seq<ListedChat>, x: ListedChat)
    ensures x in InsertChat(c, sorted) <==> x == c || x in sorted
  {
    hide InsertChat, NewerFirst;
    InsertChatKeeps(c, sorted);
    assert x in InsertChat(c, sorted) <==> x in multiset(InsertChat(c, sorted));
    assert x in sorted <==> x in multiset(sorted);
  }

  lemma {:induction false} InsertKeepsDistinct(c: ListedChat, sorted: seq<ListedChat>)
    requires DistinctChats(sorted) && IsFree(c.id, sorted)
    ensures DistinctChats(InsertChat(c, sorted))
  {
    hide NewerFirst;
    if sorted != [] && c.thread.updatedAt < sorted[0].thread.updatedAt {
      var rest := sorted[1..];
      assert sorted == [sorted[0]] + rest && sorted[0] in sorted;
      InsertKeepsDistinct(c, rest);
      forall x | x in InsertChat(c, rest)
        ensures x.id != sorted[0].id
      {
        InsertedAre(c, rest, x);
      }
      assert InsertChat(c, sorted)[1..] == InsertChat(c, rest);
    } else {
      assert InsertChat(c, sorted)[1..] == sorted;
    }
  }

  lemma {:induction false} SortKeepsDistinct(chats: seq<ListedChat>)
    requires DistinctChats(chats)
    ensures DistinctChats(NewestFirst(chats))
  {
    hide NewerFirst, InsertChat;
    if chats != [] {
      var rest := chats[1..];
      SortKeepsDistinct(rest);
      NewestFirstKeeps(rest);
      forall x | x in NewestFirst(rest)
        ensures x.id != chats[0].id
      {
        assert x in multiset(NewestFirst(rest)) && x in rest;
      }
      InsertKeepsDistinct(chats[0], NewestFirst(rest));
    }
  }

  lemma {:induction false} FilterKeepsDistinct(chats: seq<ListedChat>)
    requires DistinctChats(chats)
    ensures DistinctChats(KeepUnarchived(chats))
  {
    if chats != [] {
      FilterKeepsDistinct(chats[1..]);
      var kept := KeepUnarchived(chats[1..]);
      assert ([chats[0]] + kept)[1..] == kept;
    }
  }

  lemma LiveChatsAreDistinct(chats: seq<ListedChat>)
    requires forall i, j :: 0 <= i < j < |chats| ==> chats[i].id != chats[j].id
    ensures var live := LiveChats(chats); forall i, j :: 0 <= i < j < |live| ==> live[i].id != live[j].id
  {
    hide NewestFirst, KeepUnarchived, DistinctChats, NewerFirst;
    DistinctFromIndices(chats);
    FilterKeepsDistinct(chats);
    SortKeepsDistinct(KeepUnarchived(chats));
    DistinctIndices(LiveChats(chats));
  }

  /**
   * How far the search for the chat has got: none of the first `i` was handed over, and
   * `seeded` is the first with history.
   */
  ghost predicate Searched(live: seq<ListedChat>, t: TargetView, seeded: Option<ThreadId>, i: nat, preamble: string) {
    && i <= |live|
    && (forall j :: 0 <= j < i ==> live[j].id in t.asked && !Delivered(t.replies, live[j].id, preamble))
    && (forall j :: i <= j < |live| ==> live[j].id !in t.replies)
    && (seeded.None? ==> forall j :: 0 <= j < i ==> !Seeded(t.replies, live[j].id))
    && (seeded.Some? ==> FirstSeeded(live, t.replies) == seeded)
  }

  /** One chat further, which answered without a handover, or not at all. */
  lemma SearchedOneMore(
    live: seq<ListedChat>, t: TargetView, t': TargetView, seeded: Option<ThreadId>, i: nat,
    reply: Option<seq<Message>>, preamble: string)
    requires Searched(live, t, seeded, i, preamble) && i < |live|
    requires forall a, b :: 0 <= a < b < |live| ==> live[a].id != live[b].id
    requires t'.asked == t.asked + {live[i].id}
    requires t'.replies == if reply.Some? then t.replies[live[i].id := reply.value] else t.replies
    requires reply.Some? ==> !HasDeliveredHandover(reply.value, preamble)
    ensures var seeded' :=
              if seeded.None? && reply.Some? && HasSeededHistory(reply.value) then Some(live[i].id) else seeded;
            Searched(live, t', seeded', i + 1, preamble)
  {
    hide HasDeliveredHandover, HasSeededHistory;
    var seeded' := if seeded.None? && reply.Some? && HasSeededHistory(reply.value) then Some(live[i].id) else seeded;
    forall j | 0 <= j < |live| && j != i
      ensures live[j].id in t'.replies <==> live[j].id in t.replies
      ensures live[j].id in t.replies ==> t'.replies[live[j].id] == t.replies[live[j].id]
    {
      assert live[j].id != live[i].id by {
        if j < i {
        } else {
          assert live[i].id != live[j].id;
        }
      }
    }
    if seeded.Some? {
      var k :| 0 <= k < |live| && live[k].id == seeded.value && Seeded(t.replies, live[k].id);
      FirstSeededStays(live, t.replies, t'.replies, i);
    } else if seeded'.Some? {
      FirstSeededAt(live, t'.replies, i);
    }
  }

  lemma {:induction false} FirstSeededAt(live: seq<ListedChat>, replies: Replies, i: nat)
    requires i < |live| && Seeded(replies, live[i].id) && forall j :: 0 <= j < i ==> !Seeded(replies, live[j].id)
    ensures FirstSeeded(live, replies) == Some(live[i].id)
  {
    hide Seeded;
    if i > 0 {
      assert !Seeded(replies, live[0].id);
      FirstSeededAt(live[1..], replies, i - 1);
    }
  }

  /** Answers from later chats do not change which chat with history comes first. */
  lemma {:induction false} FirstSeededStays(live: seq<ListedChat>, before: Replies, after: Replies, i: nat)
    requires i < |live| && FirstSeeded(live, before).Some?
    requires forall j :: i <= j < |live| ==> live[j].id !in before
    requires forall j :: 0 <= j < |live| && j != i ==> (live[j].id in after <==> live[j].id in before)
    requires forall j :: 0 <= j < |live| && j != i && live[j].id in before ==> after[live[j].id] == before[live[j].id]
    ensures FirstSeeded(live, after) == FirstSeeded(live, before)
  {
    hide HasSeededHistory;
    if i > 0 && !Seeded(before, live[0].id) {
      assert forall j :: 0 <= j < |live[1..]| ==> live[1..][j] == live[j + 1];
      FirstSeededStays(live[1..], before, after, i - 1);
    }
  }

  lemma SearchEnds(live: seq<ListedChat>, t: TargetView, seeded: Option<ThreadId>, preamble: string)
    requires Searched(live, t, seeded, |live|, preamble)
    ensures LookedEnough(live, t.asked, t.replies, preamble)
    ensures ChooseThread(live, t.replies, preamble)
         == if seeded.Some? then seeded else if live == [] then None else Some(live[0].id)
  {
    hide Delivered, Seeded;
  }

  lemma SearchFinds(live: seq<ListedChat>, t: TargetView, t': TargetView, seeded: Option<ThreadId>, i: nat,
                    messages: seq<Message>, preamble: string)
    requires Searched(live, t, seeded, i, preamble) && i < |live|
    requires forall a, b :: 0 <= a < b < |live| ==> live[a].id != live[b].id
    requires t'.asked == t.asked + {live[i].id} && t'.replies == t.replies[live[i].id := messages]
    requires HasDeliveredHandover(messages, preamble)
    ensures LookedEnough(live, t'.asked, t'.replies, preamble)
    ensures ChooseThread(live, t'.replies, preamble) == Some(live[i].id)
  {
    hide HasDeliveredHandover;
    assert Delivered(t'.replies, live[i].id, preamble);
    forall j | 0 <= j < i
      ensures !Delivered(t'.replies, live[j].id, preamble) && live[j].id in t'.asked
    {
      assert live[j].id != live[i].id;
    }
    hide Delivered;
    HandedOverChatWins(live, t'.replies, i, preamble);
  }

  /** The chat of an adopted workspace to resume in, after reading its chats until one shows a handover. */
  method TargetThreadFor(w: World, workspace: string) returns (r: Result<Option<ThreadId>, Failure>)
    requires w.Valid() && w.safe && w.view.target.confirmed == {} && w.view.target.thread.None?
    modifies w
    ensures w.Valid() && w.safe
    ensures var t, t' := old(w.view).target, w.view.target;
            && w.view == old(w.view).(target := t', delivered := w.view.delivered)
            && t' == t.(of := t'.of, chats := t'.chats, asked := t'.asked, replies := t'.replies,
                        confirmed := t'.confirmed)
            && (r.Ok? ==>
                  && t'.of == Some(workspace)
                  && LookedEnough(LiveChats(t'.chats), t'.asked, t'.replies, w.view.preamble)
                  && r.value == ChooseThread(LiveChats(t'.chats), t'.replies, w.view.preamble)
                  && forall c :: c in t'.confirmed ==> r.value == Some(c) && c in w.view.delivered)
  {
    hide Summarised, TargetAgrees, SourceAgrees, HasSeededHistory, HasDeliveredHandover, NewestFirst, KeepUnarchived,
         NewerFirst, LookedEnough, ChooseThread, Searched;
    var threads := w.AskTargetChats(workspace);
    if !threads.Answer? {
      return Err(if threads.Lost? then Transport else RefusedBy);
    }
    LiveChatsAreDistinct(threads.value);
    var live := LiveChats(threads.value);
    hide LiveChats;
    var seeded: Option<ThreadId> := None;
    SearchStarts(live, w.view.target, w.view.preamble);
    var i := 0;
    while i < |live|
      invariant 0 <= i <= |live| && live == LiveChats(w.view.target.chats)
      invariant w.Valid() && w.safe && w.view.target.confirmed == {}
      invariant var t, t' := old(w.view).target, w.view.target;
                && w.view == old(w.view).(target := t')
                && t' == t.(of := Some(workspace), chats := threads.value, asked := t'.asked, replies := t'.replies)
      invariant Searched(live, w.view.target, seeded, i, w.view.preamble)
      invariant forall a, b :: 0 <= a < b < |live| ==> live[a].id != live[b].id
    {
      ghost var was := w.view.target;
      var reply := w.AskSnapshot(live[i].id);
      if reply.Lost? {
        return Err(Transport);
      }
      if reply.Answer? {
        var messages := reply.value.messages;
        if HasDeliveredHandover(messages, w.words.preamble) {
          SearchFinds(live, was, w.view.target, seeded, i, messages, w.view.preamble);
          return Ok(Some(live[i].id));
        }
        SearchedOneMore(live, was, w.view.target, seeded, i, Some(messages), w.view.preamble);
        if seeded.None? && HasSeededHistory(messages) {
          seeded := Some(live[i].id);
        }
      } else {
        SearchedOneMore(live, was, w.view.target, seeded, i, None, w.view.preamble);
      }
      i := i + 1;
    }
    SearchEnds(live, w.view.target, seeded, w.view.preamble);
    return Ok(if seeded.Some? then seeded else if live == [] then None else Some(live[0].id));
  }

  lemma SearchStarts(live: seq<ListedChat>, t: TargetView, preamble: string)
    requires t.replies == map[]
    ensures Searched(live, t, None, 0, preamble)
  {
  }

  datatype TargetSpec = TargetSpec(
    request: Request, commit: Option<string>, transcript: seq<TranscriptMessage>, title: string, provider: string,
    cloneInto: Option<string>)

  /**
   * The listing said nothing of this transfer's is there: clone if asked, then import. A
   * branch the target renamed is refused unless it was known to have the repository.
   */
  method ImportOnTarget(w: World, spec: TargetSpec) returns (r: Result<(string, Option<ThreadId>), Failure>)
    requires w.Valid() && w.safe && MayChange(w.view) && w.view.source.pushed.Some?
    requires w.view.source.head == Some(spec.commit) && Carries(w.view.source, spec.transcript)
    requires SourceUrl(w.view.source) == Some(spec.request.url)
    requires w.view.target.placed.Nowhere? && Verdict(w.view.target, spec.request, spec.commit, Absent)
    modifies w
    ensures w.Valid() && w.safe
    ensures var t, t' := old(w.view).target, w.view.target;
            && w.view == old(w.view).(target := t')
            && t' == t.(repositories := t'.repositories, known := t'.known, request := t'.request, placed := t'.placed)
            && (t'.request == t.request || t'.request == Some(spec.request))
    ensures var t := w.view.target;
            && (r.Ok? ==> Placed(t) && t.placed.Answered? && t.request == Some(spec.request)
                          && PlacedName(t.placed) == Some(r.value.0) && t.placed.seeded == r.value.1
                          && (r.value.1.Some? <==> spec.transcript != []))
            && (t.placed.Answered? ==> (r.Ok? <==> Placed(t)) && (r.Err? ==> r.error == BranchRenamed))
  {
    hide Summarised, TargetAgrees, SourceAgrees, NameInUse, Verdict, RepositoryName, Carries, SourceUrl, AllAsked;
    ghost var listed := w.view;
    if spec.cloneInto.Some? {
      var cloned := w.CloneRepository(spec.request.url, spec.cloneInto.value);
      if cloned.Lost? || cloned.Refused? {
        return Err(if cloned.Lost? then Transport else RefusedBy);
      }
    }
    VerdictGiven(listed.target, spec.request, spec.commit, Absent);
    var known :- TargetRepositoryName(w, spec.request.url);
    VerdictLooksAt(listed.target, w.view.target, spec.request, spec.commit, Absent);
    ImportAllowed(w.view, spec.request, spec.commit, spec.transcript);
    var answer := w.ImportWorkspace(spec.request, spec.commit, spec.provider, spec.title, spec.transcript);
    if !answer.Answer? {
      return Err(if answer.Lost? then Transport else RefusedBy);
    }
    if answer.value.branch != spec.request.branch && known.None? {
      return Err(BranchRenamed);
    }
    return Ok((answer.value.workspace, answer.value.thread));
  }

  lemma VerdictGiven(t: TargetView, q: Request, commit: Option<string>, verdict: TargetMatch)
    requires Verdict(t, q, commit, verdict)
    ensures t.workspaces.Some? && t.repositories.Some?
  {
  }

  /** A verdict stands as long as the listings and looks it was reached from do. */
  lemma VerdictLooksAt(t: TargetView, t': TargetView, q: Request, commit: Option<string>, verdict: TargetMatch)
    requires Verdict(t, q, commit, verdict)
    requires t'.workspaces == t.workspaces && t'.repositories == t.repositories && t'.looks == t.looks
    ensures Verdict(t', q, commit, verdict)
  {
    hide Settled, Decide, RepositoryName;
  }

  lemma ImportAllowed(v: View, q: Request, commit: Option<string>, transcript: seq<TranscriptMessage>)
    requires MayChange(v) && v.source.head == Some(commit) && v.target.placed.Nowhere? && v.target.known.Some?
    requires SourceUrl(v.source) == Some(q.url) && Carries(v.source, transcript) && Verdict(v.target, q, commit, Absent)
    ensures TargetStepOk(v, ImportSent(q, commit, transcript))
  {
    hide AllAsked, SourceUrl, Carries, Verdict;
  }

  lemma AdoptAllowed(v: View, q: Request, commit: Option<string>, existing: Workspace)
    requires MayChange(v) && v.source.head == Some(commit) && v.target.placed.Nowhere?
    requires SourceUrl(v.source) == Some(q.url) && Verdict(v.target, q, commit, Adopt(existing))
    ensures TargetStepOk(v, Adopted(q, existing))
    ensures NextTarget(v.target, Adopted(q, existing), v.preamble)
         == v.target.(request := Some(q), placed := Existing(existing))
  {
    hide AllAsked, SourceUrl, Verdict;
  }

  /** Before step 3: nothing is known of the target, and everything step 3 needs of the source is. */
  ghost predicate ReadyToPlace(v: View, spec: TargetSpec) {
    && MayChange(v) && v.source.pushed.Some? && v.source.head == Some(spec.commit) && Carries(v.source, spec.transcript)
    && SourceUrl(v.source) == Some(spec.request.url) && v.target == NO_TARGET
  }

  /** After it: the workspace is on the target, and the chat it comes with is known. */
  ghost predicate IsPlaced(v: View, spec: TargetSpec, name: string, thread: Option<ThreadId>) {
    && v.target.request == Some(spec.request) && PlacedName(v.target.placed) == Some(name)
    && ThreadKnown(v.target, v.preamble) && OwnThread(v.target, v.preamble) == thread
    && (v.target.placed.Answered? ==> (thread.Some? <==> spec.transcript != []))
    && (forall c :: c in v.target.confirmed ==> thread == Some(c) && c in v.delivered)
  }

  /** Nothing of the target was touched yet but to place the workspace. */
  predicate OnlyPlacing(t: TargetView) {
    t.thread.None? && t.firstLook.None? && t.created.None? && t.spawned == {} && t.queued == {}
  }

  method CreateOnTarget(w: World, spec: TargetSpec) returns (r: Result<(string, Option<ThreadId>), Failure>)
    requires w.Valid() && w.safe && ReadyToPlace(w.view, spec)
    modifies w
    ensures w.Valid() && w.safe
    ensures w.view == old(w.view).(target := w.view.target, delivered := w.view.delivered) && OnlyPlacing(w.view.target)
    ensures w.view.target.request.None? || w.view.target.request == Some(spec.request)
    ensures r.Ok? ==> IsPlaced(w.view, spec, r.value.0, r.value.1)
  {
    hide Summarised, TargetAgrees, SourceAgrees, HeadMatches, Decide, NameInUse, Verdict, RepositoryName, Carries,
         SourceUrl, AllAsked, ChooseThread, LookedEnough, LiveChats;
    var found :- ExistingTargetWorkspace(w, spec.request, spec.commit);
    match found
    case Adopt(existing) =>
      AdoptAllowed(w.view, spec.request, spec.commit, existing);
      w.RecordTarget(Adopted(spec.request, existing));
      var thread :- TargetThreadFor(w, existing.name);
      return Ok((existing.name, thread));
    case Diverged(_, _, _) => return Err(IsDiverged);
    case Retired(_, _) => return Err(IsRetired);
    case NameTaken(_) => return Err(IsNameTaken);
    case Absent =>
      r := ImportOnTarget(w, spec);
  }

  // ---------------------------------------------------------------- step 4: resume

  /** What one look at a chat leaves in the record, whatever it showed. */
  ghost predicate LookedAt(v: View, v': View, thread: ThreadId) {
    && v' == v.(target := v'.target, delivered := v'.delivered)
    && v'.target == v.target.(asked := v'.target.asked, replies := v'.target.replies, firstLook := v'.target.firstLook,
                              confirmed := v'.target.confirmed)
    && (v.target.firstLook.Some? || v.target.thread != Some(thread) ==> v'.target.firstLook == v.target.firstLook)
    && v.target.confirmed <= v'.target.confirmed <= v.target.confirmed + {thread}
    && v.delivered <= v'.delivered
  }

  method TransferMessageDelivered(w: World, thread: ThreadId) returns (r: Result<bool, Failure>)
    requires w.Valid() && w.safe
    modifies w
    ensures w.Valid() && w.safe && LookedAt(old(w.view), w.view, thread)
    ensures r.Ok? ==> thread.row < w.target.nextThread
    ensures r == Ok(true) ==> thread in w.view.target.confirmed && thread in w.view.delivered
    ensures r == Ok(false) ==> thread !in old(w.view).delivered && w.view.delivered == old(w.view).delivered
                               && w.view.target.confirmed == old(w.view).target.confirmed
    ensures r.Ok? && w.view.target.thread == Some(thread) && old(w.view).target.firstLook.None? ==>
              w.view.target.firstLook == Some(r.value)
  {
    hide Summarised, TargetAgrees, SourceAgrees, HasDeliveredHandover;
    var reply := w.AskSnapshot(thread);
    if !reply.Answer? {
      return Err(if reply.Lost? then Transport else RefusedBy);
    }
    return Ok(HasDeliveredHandover(reply.value.messages, w.words.preamble));
  }

  datatype TargetLiveness = TargetLive | TargetGone | TargetUnknown

  method TargetSessionLiveness(w: World, thread: ThreadId) returns (r: Result<TargetLiveness, Failure>)
    requires w.Valid() && w.safe
    modifies w
    ensures w.Valid() && w.safe && LookedAt(old(w.view), w.view, thread)
  {
    hide Summarised, TargetAgrees, SourceAgrees, HasDeliveredHandover;
    var reply := w.AskSnapshot(thread);
    if !reply.Answer? {
      return Err(if reply.Lost? then Transport else RefusedBy);
    }
    var session := reply.value.session;
    return Ok(if session == Some(Gone) then TargetGone
              else if session == Some(Live) then TargetLive else TargetUnknown);
  }

  lemma LooksAddUp(v: View, v': View, v'': View, thread: ThreadId)
    requires LookedAt(v, v', thread) && LookedAt(v', v'', thread)
    ensures LookedAt(v, v'', thread)
  {
  }

  /** Polls for the message row; gives up when the session that should take it has died. */
  method AwaitDelivery(w: World, thread: ThreadId) returns (r: Result<(), Failure>)
    requires w.Valid() && w.safe
    modifies w
    ensures w.Valid() && w.safe && LookedAt(old(w.view), w.view, thread)
    ensures r.Ok? ==> thread in w.view.target.confirmed
  {
    hide Summarised, TargetAgrees, SourceAgrees, HasDeliveredHandover;
    var patience: nat := *;
    var sessionSeenLive := false;
    assert LookedAt(w.view, w.view, thread);
    hide LookedAt;
    while true
      invariant w.Valid() && w.safe && LookedAt(old(w.view), w.view, thread)
      decreases patience
    {
      ghost var before := w.view;
      var delivered := TransferMessageDelivered(w, thread);
      LooksAddUp(old(w.view), before, w.view, thread);
      if delivered.Err? {
        return Err(delivered.error);
      }
      if delivered.value {
        return Ok(());
      }
      ghost var between := w.view;
      var liveness := TargetSessionLiveness(w, thread);
      LooksAddUp(old(w.view), between, w.view, thread);
      if liveness.Err? {
        return Err(liveness.error);
      }
      if liveness.value.TargetLive? {
        sessionSeenLive := true;
      } else if liveness.value.TargetGone? || sessionSeenLive {
        return Err(SessionGone);
      }
      if patience == 0 {
        return Err(NotDelivered);
      }
      patience := patience - 1;
    }
  }

  lemma HandoverAllowed(v: View, thread: ThreadId, content: string)
    requires MayHandOver(v, thread) && thread in v.target.spawned && StartsWith(content, v.preamble)
    requires v.source.transcript.Some? && ReplaysAsk(v.source.transcript.value, content)
    ensures TargetStepOk(v, QueueSent(thread, content))
  {
    hide MayHandOver, ReplaysAsk;
  }

  /** Before a chat is resumed: it was just chosen, and no other chat was seen handed over. */
  predicate ReadyToResume(v: View, workspace: string, thread: ThreadId, transcript: seq<TranscriptMessage>) {
    && MayChange(v) && v.source.pushed.Some? && v.source.transcript == Some(transcript)
    && PlacedName(v.target.placed) == Some(workspace)
    && v.target.thread == Some(thread) && v.target.firstLook.None? && v.target.confirmed <= {thread}
    && v.target.confirmed <= v.delivered && v.target.spawned == {} && v.target.queued == {}
  }

  /** Resuming touches nothing but what is known of the chat. */
  ghost predicate OnlyResuming(v: View, v': View) {
    && v' == v.(target := v'.target, delivered := v'.delivered, handed := v'.handed)
    && v'.target == v.target.(asked := v'.target.asked, replies := v'.target.replies, firstLook := v'.target.firstLook,
                              confirmed := v'.target.confirmed, spawned := v'.target.spawned,
                              queued := v'.target.queued)
  }

  /**
   * Success means the handover was seen delivered: by the first look, and then nothing was
   * sent, or else after this very message was queued.
   */
  method ResumeOnTarget(w: World, fromLabel: string, toLabel: string, workspace: string, thread: ThreadId,
                        provider: string, transcript: seq<TranscriptMessage>, commit: Option<string>)
    returns (r: Result<(), Failure>)
    requires w.Valid() && w.safe && ReadyToResume(w.view, workspace, thread, transcript)
    modifies w
    ensures w.Valid() && w.safe && OnlyResuming(old(w.view), w.view)
    ensures var message := ResumeMessage(transcript, fromLabel, toLabel, commit, w.words);
            && w.view.handed == old(w.view).handed
               + (if thread in w.view.target.queued then {(thread, message)} else {})
            && w.view.target.queued <= {thread} && w.view.target.spawned <= {thread}
    ensures provider == "shell" ==> w.view.target.queued == {} && w.view.target.spawned == {}
    ensures r.Ok? ==> Confirmed(w.view.target)
  {
    hide Summarised, TargetAgrees, SourceAgrees, ResumeMessage, ReplaysAsk, HasDeliveredHandover, AllAsked;
    var already :- TransferMessageDelivered(w, thread);
    if already {
      return Ok(());
    }
    if provider == "shell" {
      return Err(ShellProvider);
    }
    assert MayHandOver(w.view, thread);
    var spawned := w.EnsureSession(workspace, thread);
    if !spawned.Answer? {
      return Err(if spawned.Lost? then Transport else RefusedBy);
    }
    var message := ResumeMessage(transcript, fromLabel, toLabel, commit, w.words);
    HandoverIsRecognised(transcript, fromLabel, toLabel, commit, w.words);
    PendingAskIsReplayed(transcript, fromLabel, toLabel, commit, w.words);
    HandoverAllowed(w.view, thread, message);
    var queued := w.QueueInput(thread, message);
    if !queued.Answer? {
      return Err(if queued.Lost? then Transport else RefusedBy);
    }
    r := AwaitDelivery(w, thread);
  }

  /** The chat the conversation goes on in, opening one when there was nothing to seed it with. */
  method ChatToResume(w: World, spec: TargetSpec, workspace: string, thread: Option<ThreadId>)
    returns (r: Result<ThreadId, Failure>)
    requires w.Valid() && w.safe && MayChange(w.view) && w.view.source.pushed.Some?
    requires w.view.source.transcript == Some(spec.transcript) && IsPlaced(w.view, spec, workspace, thread)
    modifies w
    ensures w.Valid() && w.safe
    ensures w.view == old(w.view).(target := old(w.view).target.(created := w.view.target.created))
    ensures r.Ok? ==> Some(r.value) == if thread.Some? then thread else w.view.target.created
    ensures thread.None? && spec.transcript != [] ==> r == Err(NoHistory) && w.log == old(w.log)
  {
    hide Summarised, TargetAgrees, SourceAgrees, AllAsked, ThreadKnown, OwnThread;
    if thread.Some? {
      return Ok(thread.value);
    }
    if spec.transcript != [] {
      return Err(NoHistory);
    }
    assert TargetStepOk(w.view, CreateChatSent(workspace));
    var chat := w.CreateChat(workspace, spec.provider, spec.title);
    if !chat.Answer? {
      return Err(if chat.Lost? then Transport else RefusedBy);
    }
    return Ok(chat.value);
  }

  // ---------------------------------------------------------------- the whole run

  datatype TransferOptions = TransferOptions(
    workspace: string, chat: Option<ThreadId>, name: Option<string>, branch: Option<string>,
    cloneInto: Option<string>, force: bool)

  /** What the source gave up: the workspace, its published head, and the chat that moves with it. */
  datatype Taken = Taken(
    remote: Workspace, url: string, moving: Option<Chat>, transcript: Transcript, commit: Option<string>)

  /** After steps 1 and 2: the workspace asked for is stopped and published, and the right chat was read. */
  ghost predicate IsTaken(v: View, o: TransferOptions, taken: Taken) {
    && MayChange(v) && Stopped(v.source) && MovesRight(v, ThreadOf(taken.moving))
    && v.source.moving == Some(ThreadOf(taken.moving)) && Carries(v.source, taken.transcript.messages)
    && v.source.of == v.source.committed == v.source.pushed == Some(o.workspace)
    && v.source.workspaces.Some? && WorkspaceNamed(v.source.workspaces.value, o.workspace) == Some(taken.remote)
    && SourceUrl(v.source) == Some(taken.url) && v.source.head == Some(taken.commit)
  }

  /** A run has begun, with these options. */
  predicate HasBegun(v: View, o: TransferOptions) {
    v.source == NO_SOURCE && v.target == NO_TARGET && v.force == o.force && v.choice == o.chat && v.archived.None?
  }

  /** Publishing leaves what was found and read as it was. */
  lemma TakenOncePublished(v: View, v': View, o: TransferOptions, taken: Taken)
    requires var s, s' := v.source, v'.source;
             v' == v.(source := s') && s' == s.(committed := s'.committed, pushed := s'.pushed, head := s'.head)
             && s'.of == s'.committed == s'.pushed == Some(o.workspace) && s'.head == Some(taken.commit)
             && s.workspaces.Some? && WorkspaceNamed(s.workspaces.value, o.workspace) == Some(taken.remote)
             && s.repositories.Some? && RemoteUrlOf(s.repositories.value, taken.remote.repository) == Some(taken.url)
             && s.moving == Some(ThreadOf(taken.moving))
    requires MayChange(v) && Stopped(v.source) && MovesRight(v, ThreadOf(taken.moving))
    requires Carries(v.source, taken.transcript.messages)
    ensures IsTaken(v', o, taken)
  {
    hide AllAsked, WorkspaceNamed, RemoteUrlOf, ChatsOf, MovingChat, ThreadOf;
  }

  /** Steps 1 and 2, after deciding which chat moves. */
  method TakeFromSource(w: World, o: TransferOptions) returns (r: Result<Taken, Failure>)
    requires w.Valid() && w.safe && HasBegun(w.view, o)
    modifies w
    ensures w.Valid() && w.safe && w.view == old(w.view).(source := w.view.source)
    ensures w.view.source.pushed.Some? ==> MayChange(w.view) && Stopped(w.view.source)
    ensures r.Ok? ==> IsTaken(w.view, o, r.value)
  {
    hide Summarised, TargetAgrees, SourceAgrees, ChatsOf, LatestChat, LiveSessions, NameInUse, AllAsked, WorkspaceNamed,
         RemoteUrlOf, HasDeliveredHandover, HeadOf, IsTaken;
    var source :- FindSource(w, o.workspace);
    var (remote, url) := source;
    var chats :- SourceChats(w, o.workspace);
    var moving := if o.chat.Some? then ChatWithId(chats, o.chat.value) else LatestChat(chats);
    if o.chat.Some? && moving.None? {
      return Err(NotFound);
    }
    w.RecordSource(Moving(ThreadOf(moving)));

    var _ :- StopSourceSessions(w, chats, o.force);

    var transcript := Transcript([], "Transferred chat");
    if moving.Some? {
      var reply := w.AskTranscript(moving.value.thread);
      if !reply.Answer? {
        return Err(if reply.Lost? then Transport else RefusedBy);
      }
      transcript := reply.value;
    }

    ghost var read := w.view;
    var commit :- PublishSourceBranch(w, o.workspace);
    TakenOncePublished(read, w.view, o, Taken(remote, url, moving, transcript, commit));
    return Ok(Taken(remote, url, moving, transcript, commit));
  }

  function SpecOf(o: TransferOptions, taken: Taken): TargetSpec {
    TargetSpec(
      Request(taken.url,
              if o.name.Some? then o.name.value else taken.remote.name,
              if o.branch.Some? then o.branch.value else taken.remote.branch),
      taken.commit, taken.transcript.messages, taken.transcript.title,
      if taken.moving.Some? then taken.moving.value.provider else "", o.cloneInto)
  }

  /** What the target was asked for is what the options and the source's own listing call for. */
  ghost predicate AsAsked(v: View, o: TransferOptions) {
    v.target.request.Some? ==>
      && v.source.workspaces.Some?
      && var remote := WorkspaceNamed(v.source.workspaces.value, o.workspace);
         && remote.Some? && SourceUrl(v.source) == Some(v.target.request.value.url)
         && v.target.request.value.name == (if o.name.Some? then o.name.value else o.workspace)
         && v.target.request.value.branch == (if o.branch.Some? then o.branch.value else remote.value.branch)
  }

  /** A moved chat was seen handed over; with none to move, nothing was sent to any chat. */
  ghost predicate Handed(v: View) {
    && v.source.moving.Some? && Placed(v.target)
    && (v.source.moving.value.Some? ==> Confirmed(v.target))
    && (v.source.moving.value.None? ==> v.target.queued == {} && v.target.spawned == {})
  }

  /** Steps 3 and 4. */
  method HandToTarget(w: World, fromLabel: string, toLabel: string, o: TransferOptions, taken: Taken)
    returns (r: Result<(), Failure>)
    requires w.Valid() && w.safe && IsTaken(w.view, o, taken) && w.view.target == NO_TARGET
    modifies w
    ensures w.Valid() && w.safe
    ensures w.view == old(w.view).(target := w.view.target, delivered := w.view.delivered, handed := w.view.handed)
    ensures AsAsked(w.view, o)
    ensures r.Ok? ==> Handed(w.view)
  {
    hide Summarised, TargetAgrees, SourceAgrees, ResumeMessage, AllAsked, SourceUrl, NameInUse, HasDeliveredHandover,
         ThreadKnown, OwnThread, MovesRight, Stopped, AsAsked, NextTarget;
    var spec := SpecOf(o, taken);
    SpecIsAsAsked(w.view, o, taken);
    var created :- CreateOnTarget(w, spec);
    PlacedWithItsChat(w.view, spec, created.0, created.1);
    if taken.moving.None? {
      return Ok(());
    }
    ghost var placed := w.view;
    var chosen :- ChatToResume(w, spec, created.0, created.1);
    ChoiceAllowed(placed, w.view, spec, created.0, created.1, chosen);
    w.RecordTarget(ThreadChosen(chosen));
    r := ResumeOnTarget(w, fromLabel, toLabel, created.0, chosen, spec.provider, spec.transcript, spec.commit);
  }

  lemma NamedAs(s: SourceView, workspace: string, remote: Workspace)
    requires s.workspaces.Some? && WorkspaceNamed(s.workspaces.value, workspace) == Some(remote)
    ensures remote.name == workspace
  {
  }

  lemma SpecIsAsAsked(v: View, o: TransferOptions, taken: Taken)
    requires IsTaken(v, o, taken)
    ensures forall v': View :: v'.source == v.source
                               && (v'.target.request.None? || v'.target.request == Some(SpecOf(o, taken).request))
                               ==> AsAsked(v', o)
  {
    hide MayChange, Stopped, MovesRight, Carries, SourceUrl;
    NamedAs(v.source, o.workspace, taken.remote);
  }

  lemma PlacedWithItsChat(v: View, spec: TargetSpec, name: string, thread: Option<ThreadId>)
    requires IsPlaced(v, spec, name, thread)
    ensures Placed(v.target)
  {
  }

  /** The chat a placed workspace comes with, or else the one just opened in it, may be chosen. */
  lemma ChoiceAllowed(v: View, v': View, spec: TargetSpec, name: string, thread: Option<ThreadId>, chosen: ThreadId)
    requires IsPlaced(v, spec, name, thread) && v' == v.(target := v.target.(created := v'.target.created))
    requires Some(chosen) == if thread.Some? then thread else v'.target.created
    ensures TargetStepOk(v', ThreadChosen(chosen))
    ensures NextTarget(v'.target, ThreadChosen(chosen), v'.preamble)
         == v'.target.(thread := Some(chosen), firstLook := None)
    ensures Placed(v'.target)
    ensures v'.target.confirmed <= {chosen} && v'.target.confirmed <= v'.delivered
  {
    hide ChooseThread, LookedEnough, LiveChats, RepositoryName;
  }

  /** All but the last step: what has to be true before the source is retired. */
  ghost predicate Moved(v: View, o: TransferOptions) {
    && MayChange(v) && Stopped(v.source) && Handed(v) && v.force == o.force && v.choice == o.chat
    && MovesRight(v, v.source.moving.value)
    && v.source.of == v.source.committed == v.source.pushed == Some(o.workspace)
  }

  /** What a finished run has done, whichever branch it took. */
  ghost predicate Finished(v: View, o: TransferOptions) {
    Moved(v, o) && v.archived == Some(o.workspace)
  }

  method MoveAcross(w: World, fromLabel: string, toLabel: string, o: TransferOptions) returns (r: Result<(), Failure>)
    requires w.Valid() && w.safe && HasBegun(w.view, o)
    modifies w
    ensures w.Valid() && w.safe && w.view.runs == old(w.view).runs
    ensures r.Ok? ==> Moved(w.view, o)
    ensures w.view.source.pushed.Some? ==> MayChange(w.view) && Stopped(w.view.source)
    ensures AsAsked(w.view, o)
  {
    hide Summarised, TargetAgrees, SourceAgrees, NameInUse, HasDeliveredHandover, Carries, ChatsOf, SourceUrl, AllAsked;
    var taken :- TakeFromSource(w, o);
    r := HandToTarget(w, fromLabel, toLabel, o, taken);
  }

  lemma BeginningIsAllowed(v: View, force: bool, choice: Option<ThreadId>, m: Moment)
    ensures var e := RunStarted(force, choice);
            && StepOk(v, e) && Truthful(v, e, m)
            && NextView(v, e) == v.(runs := v.runs + 1, force := force, choice := choice, source := NO_SOURCE,
                                    target := NO_TARGET, archived := None)
  {
  }

  method TransferWorkspace(w: World, fromLabel: string, toLabel: string, o: TransferOptions)
    returns (r: Result<(), Failure>)
    requires w.Valid() && w.safe
    modifies w
    ensures w.Valid() && w.safe && w.view.runs == old(w.view).runs + 1
    ensures r.Ok? ==> Finished(w.view, o)
    ensures w.view.source.pushed.Some? ==> MayChange(w.view) && Stopped(w.view.source)
    ensures AsAsked(w.view, o)
  {
    hide Summarised, TargetAgrees, SourceAgrees, NameInUse, HasDeliveredHandover, NextView, StepOk, Truthful, AllAsked,
         SourceUrl, Placed, Confirmed, ChatsOf, MovingChat;
    BeginningIsAllowed(w.view, o.force, o.chat, w.Now());
    w.Record(RunStarted(o.force, o.chat));
    var _ :- MoveAcross(w, fromLabel, toLabel, o);
    var archived := w.ArchiveWorkspace(o.workspace);
    if !archived.Answer? {
      return Err(if archived.Lost? then Transport else RefusedBy);
    }
    return Ok(());
  }

  // ---------------------------------------------------------------- two daemons, or one

  /** Where a daemon keeps its token, and the token: what it answers when asked who it is. */
  datatype Access = Access(tokenPath: string, token: string)

  function Identity(a: Access): string {
    a.tokenPath + "\n" + a.token
  }

  predicate IsLine(s: string) {
    '\n' !in s
  }

  /** Neither part holds a newline, so one identity is one path and one token. */
  lemma IdentityIsThePair(a: Access, b: Access)
    requires IsLine(a.tokenPath) && IsLine(b.tokenPath)
    ensures Identity(a) == Identity(b) <==> a == b
  {
    var s, t := Identity(a), Identity(b);
    var i, j := |a.tokenPath|, |b.tokenPath|;
    assert s[i] == '\n' && t[j] == '\n';
    assert forall k :: 0 <= k < i ==> s[k] == a.tokenPath[k] && s[k] in a.tokenPath;
    assert forall k :: 0 <= k < j ==> t[k] == b.tokenPath[k] && t[k] in b.tokenPath;
    if s == t {
      assert i == j;
      assert a.tokenPath == s[..i] && b.tokenPath == t[..j];
      assert a.token == s[i + 1..] && b.token == t[j + 1..];
    }
  }

  /** Two answers that differ are two daemons; without both, two addresses have to do. */
  predicate AreTwoDaemons(from: Option<Access>, to: Option<Access>, fromAddress: string, toAddress: string) {
    if from.Some? && to.Some? then Identity(from.value) != Identity(to.value) else fromAddress != toAddress
  }

  /** A daemon that says who it is, is never both ends, whatever it is called; nothing is sent to it. */
  method RunRemoteTransfer(w: World, from: Option<Access>, to: Option<Access>, fromAddress: string, toAddress: string,
                           o: TransferOptions)
    returns (r: Result<(), Failure>)
    requires w.Valid() && w.safe
    modifies w
    ensures w.Valid() && w.safe
    ensures r.Ok? ==> Finished(w.view, o) && AsAsked(w.view, o)
    ensures from.Some? && from == to ==> r == Err(SameDaemon)
    ensures from.None? && fromAddress == toAddress ==> r == Err(SameDaemon)
    ensures r == Err(SameDaemon) || w.view.runs == old(w.view).runs + 1
    ensures !AreTwoDaemons(from, to, fromAddress, toAddress) ==> r == Err(SameDaemon) && w.log == old(w.log)
  {
    hide Summarised, TargetAgrees, SourceAgrees, NameInUse, HasDeliveredHandover, Finished, AsAsked;
    if !AreTwoDaemons(from, to, fromAddress, toAddress) {
      return Err(SameDaemon);
    }
    r := TransferWorkspace(w, fromAddress, toAddress, o);
  }

  /** The command run any number of times, with any options, whatever became of the runs before. */
  method RunAgainAndAgain(w: World, runs: nat)
    requires w.Valid() && w.safe
    modifies w
    ensures w.Valid() && w.safe
  {
    hide Summarised, TargetAgrees, SourceAgrees;
    var i := 0;
    while i < runs
      invariant w.Valid() && w.safe
    {
      var o: TransferOptions, from: Option<Access>, to: Option<Access>, a: string, b: string := *, *, *, *, *;
      w.Elapse();
      var _ := RunRemoteTransfer(w, from, to, a, b, o);
      i := i + 1;
    }
  }
}
