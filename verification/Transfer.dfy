/**
 * `archductor remote transfer`: stop, publish, create or adopt, resume, retire.
 *
 * A request can fail before it reaches the daemon, be refused, be carried out with its
 * answer lost, or be answered; the daemons keep changing around every request.
 */
module Transfer {
  import opened Options
  import opened TransferWorld
  import opened TransferDecisions
  import opened TransferRecord

  datatype Reply<+T> = Answer(value: T) | Refused | Odd | Lost

  datatype Failure =
    | Transport
    | NotFound
    | SessionsStillLive
    | StillRunning
    | RefusedBy
    | IsDiverged
    | IsRetired
    | IsNameTaken
    | BranchRenamed
    | ShellProvider
    | SessionGone
    | NotDelivered
    | NoHistory
    | SameDaemon

  datatype Snapshot = Snapshot(messages: seq<Message>, session: Option<Liveness>)
  datatype Liveness = Live | Gone

  datatype ImportAnswer = ImportAnswer(workspace: string, branch: string, thread: Option<ThreadId>)

  datatype CommitReply = Committed | NothingStaged

  datatype Transcript = Transcript(messages: seq<TranscriptMessage>, title: string)

  /** A chat's rows, and whether its session, if it has one, still runs. */
  function SnapshotOf(d: Daemon, thread: ThreadId): Snapshot
    requires thread in d.threads
  {
    var session := d.threads[thread].session;
    Snapshot(
      d.threads[thread].messages,
      if session.None? then None else if Running(d, session.value) then Some(Live) else Some(Gone))
  }

  function ArchiveNamed(all: seq<Workspace>, name: string): seq<Workspace> {
    seq(|all|, i requires 0 <= i < |all| => if all[i].name == name then all[i].(archived := true) else all[i])
  }

  lemma EndedAreNotRunning(d: Daemon, v: View)
    requires SourceAgrees(d, v)
    ensures SessionsIn(d) !! v.source.ended
  {
  }

  lemma SeededRowsAreCopies(transcript: seq<TranscriptMessage>, preamble: string)
    ensures var rows := SeededRows(transcript);
            forall i :: 0 <= i < |rows| ==> !IsDeliveredHandover(rows[i], preamble)
  {
  }

  ghost predicate Summarised(log: seq<Event>, history: seq<Moment>, view: View, safe: bool, preamble: string) {
    && view == ViewOf(log, preamble) && safe == Safe(log, preamble)
    && |history| == |log| && Witnessed(log, history, preamble)
    && view.preamble == preamble
  }

  /** The chats of a workspace, each once, in no particular order. */
  method ListChats(threads: map<ThreadId, Thread>, workspace: string) returns (listed: seq<ListedChat>)
    ensures Lists(listed, threads, workspace)
  {
    listed := [];
    var rest := threads.Keys;
    while rest != {}
      invariant rest <= threads.Keys
      invariant forall c :: c in listed <==>
                  c.id in threads && c.id !in rest && c.thread == threads[c.id] && c.thread.workspace == workspace
      invariant forall i, j :: 0 <= i < j < |listed| ==> listed[i].id != listed[j].id
    {
      var id :| id in rest;
      rest := rest - {id};
      if threads[id].workspace == workspace {
        listed := listed + [ListedChat(id, threads[id])];
      }
    }
  }

  class World {
    var source: Daemon
    var target: Daemon

    /** Every handover other transfers have made on the target, before this record and since. */
    ghost var foreign: set<(ThreadId, string)>

    /** The events, and both ends as they were at each. */
    ghost var log: seq<Event>
    ghost var history: seq<Moment>

    /** What the record says, and whether every event in it was allowed; kept beside it. */
    ghost var view: View
    ghost var safe: bool

    const words: Wording

    constructor (source: Daemon, target: Daemon, ghost foreign: set<(ThreadId, string)>, words: Wording)
      requires Genuine(target, foreign, words.preamble) && AreGiven(foreign, target)
      ensures Valid() && safe && log == [] && view == EmptyView(words.preamble)
      ensures this.source == source && this.target == target && this.foreign == foreign
    {
      this.source, this.target, this.foreign, this.words := source, target, foreign, words;
      this.log, this.history, this.view, this.safe := [], [], EmptyView(words.preamble), true;
      new;
      assert {} + foreign == foreign;
    }

    /** The record is true of the two daemons, and the two summaries of it are up to date. */
    ghost predicate Valid()
      reads this
    {
      && Summarised(log, history, view, safe, words.preamble) && view.preamble == words.preamble
      && TargetAgrees(target, view, foreign) && SourceAgrees(source, view)
    }

    ghost function Now(): Moment
      reads this
    {
      Moment(source, target, foreign)
    }

    /** Any number of things happen on either daemon. */
    method Elapse()
      requires Valid()
      modifies this`source, this`target, this`foreign
      ensures Valid() && old(foreign) <= foreign && target.nextThread >= old(target.nextThread)
    {
      hide Summarised, TargetAgrees, SourceAgrees, Apply, Permitted;
      var steps: nat := *;
      while steps > 0
        invariant Valid() && old(foreign) <= foreign && target.nextThread >= old(target.nextThread)
      {
        var onTarget: bool, a: EnvAction := *, *;
        if onTarget && Permitted(a, words.preamble) {
          TargetStep(a);
        } else if !onTarget {
          SourceStep(a);
        }
        steps := steps - 1;
      }
    }

    method TargetStep(a: EnvAction)
      requires Valid() && Permitted(a, words.preamble)
      modifies this`target, this`foreign
      ensures Valid() && target == Apply(old(target), a)
      ensures foreign == ForeignAfter(old(target), a, old(foreign)) && target.nextThread >= old(target.nextThread)
    {
      hide TargetAgrees, SourceAgrees, Safe, ViewOf, Witnessed, Apply, Permitted;
      assert view.preamble == words.preamble;
      EnvironmentAgrees(target, a, view, foreign);
      foreign := ForeignAfter(target, a, foreign);
      target := Apply(target, a);
    }

    method SourceStep(a: EnvAction)
      requires Valid()
      modifies this`source
      ensures Valid() && source == Apply(old(source), a)
    {
      hide Summarised, TargetAgrees, Apply;
      EnvironmentKeepsEnded(source, a, view.source.ended);
      source := Apply(source, a);
    }

    /** Write one event down; what it says was seen has to be so now. */
    ghost method Record(e: Event)
      requires Summarised(log, history, view, safe, words.preamble) && Truthful(view, e, Now())
      modifies this`log, this`history, this`view, this`safe
      ensures Summarised(log, history, view, safe, words.preamble)
      ensures log == old(log) + [e] && view == NextView(old(view), e) && (safe <==> old(safe) && StepOk(old(view), e))
      ensures old(Valid()) && IsNeutral(e) ==> Valid()
    {
      hide NextView, StepOk, Safe, ViewOf, TargetAgrees, SourceAgrees, Truthful, Witnessed;
      RecordedViews(view, e);
      Appended(log, history, e, Now(), words.preamble);
      if Valid() && IsNeutral(e) {
        NeutralEvents(view, e);
        AgreementsLookAt(source, target, view, NextView(view, e), foreign);
      }
      log, history := log + [e], history + [Now()];
      view, safe := NextView(view, e), safe && StepOk(view, e);
    }

    /** Only what is known of the source changes. */
    ghost method RecordSource(e: Event)
      requires Valid() && IsSourceEvent(e) && !e.SawEnded? && Truthful(view, e, Now())
      modifies this`log, this`history, this`view, this`safe
      ensures Valid() && log == old(log) + [e]
      ensures view == old(view).(source := NextSource(old(view).source, e))
      ensures safe <==> old(safe) && SourceStepOk(old(view), e)
    {
      hide Summarised, TargetAgrees, SourceAgrees, NextView, StepOk, NextSource, SourceStepOk, Truthful;
      SourceEvents(view, e);
      Record(e);
    }

    /** Only what is known of the target changes. */
    ghost method RecordTarget(e: Event)
      requires Valid() && IsTargetEvent(e) && Truthful(view, e, Now())
      modifies this`log, this`history, this`view, this`safe
      ensures Valid() && log == old(log) + [e]
      ensures view == old(view).(target := NextTarget(old(view).target, e, old(view).preamble))
      ensures safe <==> old(safe) && TargetStepOk(old(view), e)
    {
      hide Summarised, TargetAgrees, SourceAgrees, NextView, StepOk, NextTarget, TargetStepOk, Truthful;
      TargetEvents(view, e);
      Record(e);
    }

    /** A request that taught the run nothing. */
    ghost method RecordAsked()
      requires Valid()
      modifies this`log, this`history, this`view, this`safe
      ensures Valid() && log == old(log) + [Asked]
      ensures view == old(view) && safe == old(safe)
    {
      hide Summarised, TargetAgrees, SourceAgrees, NextView, StepOk;
      AskedChangesNothing(view);
      NeverRefused(view, ThreadId(0), Now());
      Record(Asked);
    }

    // -------------------------------------------------------------- requests to the source

    method AskSourceWorkspaces() returns (r: Reply<seq<Workspace>>)
      requires Valid()
      modifies this
      ensures Valid() && (r.Answer? ==> r.value == source.workspaces)
      ensures log == old(log) + [if r.Answer? then SawSourceWorkspaces(r.value) else Asked]
      ensures safe == old(safe)
      ensures view == old(view).(source :=
                if r.Answer? then old(view).source.(workspaces := Some(r.value))
                else old(view).source)
    {
      hide Summarised, TargetAgrees, SourceAgrees, NextView, StepOk;
      Elapse();
      r := *;
      if r.Answer? {
        r := Answer(source.workspaces);
      }
      if r.Answer? {
        RecordSource(SawSourceWorkspaces(r.value));
      } else {
        RecordAsked();
      }
    }

    method AskSourceRepositories() returns (r: Reply<seq<Repository>>)
      requires Valid()
      modifies this
      ensures Valid() && (r.Answer? ==> r.value == source.repositories)
      ensures log == old(log) + [if r.Answer? then SawSourceRepositories(r.value) else Asked]
      ensures safe == old(safe)
      ensures view == old(view).(source :=
                if r.Answer? then old(view).source.(repositories := Some(r.value))
                else old(view).source)
    {
      hide Summarised, TargetAgrees, SourceAgrees, NextView, StepOk;
      Elapse();
      r := *;
      if r.Answer? {
        r := Answer(source.repositories);
      }
      if r.Answer? {
        RecordSource(SawSourceRepositories(r.value));
      } else {
        RecordAsked();
      }
    }

    method AskSourceChats(workspace: string) returns (r: Reply<seq<ListedChat>>)
      requires Valid()
      modifies this
      ensures Valid() && (r.Answer? ==> Lists(r.value, source.threads, workspace))
      ensures log == old(log) + [if r.Answer? then SawChats(workspace, r.value) else Asked]
      ensures safe == old(safe)
      ensures view == old(view).(source :=
                if r.Answer? then old(view).source.(of := Some(workspace), chats := r.value, asked := map[])
                else old(view).source)
    {
      hide Summarised, TargetAgrees, SourceAgrees, NextView, StepOk, Lists;
      Elapse();
      r := *;
      if r.Answer? {
        var listed := ListChats(source.threads, workspace);
        r := Answer(listed);
      }
      if r.Answer? {
        RecordSource(SawChats(workspace, r.value));
      } else {
        RecordAsked();
      }
    }

    /** The session holding a source chat, unless its status is terminal. */
    method AskLiveSession(thread: ThreadId) returns (r: Reply<Option<SessionId>>)
      requires Valid()
      modifies this
      ensures Valid() && (r.Answer? ==> thread in source.threads && r.value == LiveHolder(source, thread))
      ensures log == old(log) + [if r.Answer? then SawSession(thread, r.value) else Asked]
      ensures safe == old(safe)
      ensures view == old(view).(source :=
                if r.Answer? then AfterAnswer(old(view).source, thread, r.value)
                else old(view).source)
    {
      hide Summarised, TargetAgrees, SourceAgrees, NextView, StepOk, LiveHolder;
      Elapse();
      r := *;
      if r.Answer? {
        r := if thread in source.threads then Answer(LiveHolder(source, thread)) else Refused;
      }
      if r.Answer? {
        RecordSource(SawSession(thread, r.value));
      } else {
        RecordAsked();
      }
    }

    /** Asks a session to stop; whether and when it does, only `AskSessionEnded` can tell. */
    method KillSession(session: SessionId) returns (r: Reply<()>)
      requires Valid()
      modifies this
      ensures Valid() && log == old(log) + [KillSent(session)]
      ensures view == old(view).(source := old(view).source.(killed := old(view).source.killed + {session}))
      ensures old(safe) && MayKill(old(view), session) ==> safe
    {
      hide Summarised, TargetAgrees, SourceAgrees, NextView, StepOk, SourceStepOk, NextSource, MayKill;
      Elapse();
      r := *;
      var carriedOut: bool := *;
      if !r.Refused? && carriedOut {
        SourceStep(SessionEnded(session));
      }
      KillChanges(view, session);
      RecordSource(KillSent(session));
    }

    /** Whether a session is over, or an error, which says only that the daemon would not tell. */
    method AskSessionEnded(session: SessionId) returns (r: Reply<bool>)
      requires Valid()
      modifies this
      ensures Valid() && (r.Answer? ==> session in source.sessions && (r.value <==> !source.sessions[session]))
      ensures log == old(log) + [if r == Answer(true) then SawEnded(session)
                                     else if r.Refused? then SawError(session) else Asked]
      ensures safe == old(safe)
      ensures view == old(view).(source := if r == Answer(true) then
                                             old(view).source.(ended := old(view).source.ended + {session})
                                           else if r.Refused? then
                                             old(view).source.(errored := old(view).source.errored + {session})
                                           else old(view).source)
    {
      hide Summarised, TargetAgrees, NextView, StepOk;
      Elapse();
      r := *;
      if r.Answer? {
        r := if session in source.sessions then Answer(!source.sessions[session]) else Refused;
      }
      if r == Answer(true) {
        ghost var was := view;
        SourceEvents(view, SawEnded(session));
        Record(SawEnded(session));
        SameTarget(target, was, view, foreign);
      } else if r.Refused? {
        RecordSource(SawError(session));
      } else {
        RecordAsked();
      }
    }

    /** Every row of the chat, in order; only where it came from is left behind. */
    method AskTranscript(thread: ThreadId) returns (r: Reply<Transcript>)
      requires Valid()
      modifies this
      ensures Valid()
      ensures log == old(log) + [if r.Answer? then SawTranscript(thread, r.value.messages) else Asked]
      ensures old(safe) && old(view).source.moving == Some(Some(thread)) && Stopped(old(view).source) ==> safe
      ensures view == old(view).(source :=
                if r.Answer? then old(view).source.(transcript := Some(r.value.messages))
                else old(view).source)
      ensures r.Answer? ==> thread in source.threads && r.value.title == source.threads[thread].title
                            && r.value.messages == TranscriptOf(source.threads[thread].messages)
    {
      hide Summarised, TargetAgrees, SourceAgrees, NextView, StepOk, TranscriptOf;
      Elapse();
      r := *;
      if r.Answer? {
        if thread !in source.threads {
          r := Refused;
        } else {
          r := Answer(Transcript(TranscriptOf(source.threads[thread].messages), source.threads[thread].title));
        }
      }
      if r.Answer? {
        RecordSource(SawTranscript(thread, r.value.messages));
      } else {
        RecordAsked();
      }
    }

    method AskChanges(workspace: string) returns (r: Reply<nat>)
      requires Valid()
      modifies this
      ensures Valid() && log == old(log) + [Asked]
      ensures view == old(view) && safe == old(safe)
    {
      hide Summarised, TargetAgrees, SourceAgrees, NextView, StepOk;
      Elapse();
      r := *;
      RecordAsked();
    }

    method CommitChanges(workspace: string) returns (r: Reply<CommitReply>)
      requires Valid()
      modifies this
      ensures Valid() && log == old(log) + [CommitSent(workspace, SessionsIn(source))]
      ensures view == old(view).(source := old(view).source.(committed := Some(workspace)))
      ensures old(safe) && MayCommit(old(view), workspace) ==> safe
      ensures SessionsIn(source) !! old(view).source.ended
    {
      hide Summarised, TargetAgrees, SourceAgrees, NextView, StepOk, SessionsIn;
      Elapse();
      r := *;
      EndedAreNotRunning(source, view);
      RecordSource(CommitSent(workspace, SessionsIn(source)));
    }

    method PushBranch(workspace: string) returns (r: Reply<()>)
      requires Valid()
      modifies this
      ensures Valid() && log == old(log) + [PushSent(workspace, SessionsIn(source))]
      ensures view == old(view).(source := old(view).source.(pushed := Some(workspace)))
      ensures old(safe) && MayPush(old(view), workspace) ==> safe
      ensures SessionsIn(source) !! old(view).source.ended
    {
      hide Summarised, TargetAgrees, SourceAgrees, NextView, StepOk, SessionsIn;
      Elapse();
      r := *;
      EndedAreNotRunning(source, view);
      RecordSource(PushSent(workspace, SessionsIn(source)));
    }

    /** The head of the workspace, or nothing when the daemon answers anything else. */
    method AskSourceHead(workspace: string) returns (r: Reply<Option<string>>)
      requires Valid()
      modifies this
      ensures Valid() && (r.Answer? ==> r.value == HeadOf(source.workspaces, workspace))
      ensures log == old(log) + [if r.Lost? then Asked
                                 else SawSourceHead(workspace, if r.Answer? then r.value else None)]
      ensures old(safe) && old(view).source.pushed == Some(workspace) ==> safe
      ensures view == old(view).(source := if r.Lost? then old(view).source
                                           else old(view).source.(head := Some(if r.Answer? then r.value else None)))
    {
      hide Summarised, TargetAgrees, SourceAgrees, NextView, StepOk, HeadOf;
      Elapse();
      r := *;
      if r.Answer? {
        r := Answer(HeadOf(source.workspaces, workspace));
      }
      if r.Lost? {
        RecordAsked();
      } else {
        RecordSource(SawSourceHead(workspace, if r.Answer? then r.value else None));
      }
    }

    method ArchiveWorkspace(workspace: string) returns (r: Reply<()>)
      requires Valid()
      modifies this
      ensures Valid() && log == old(log) + [ArchiveSent(workspace)]
      ensures view == old(view).(archived := Some(workspace))
      ensures old(safe) && MayArchive(old(view), workspace) ==> safe
    {
      hide Summarised, TargetAgrees, NextView, StepOk, MayArchive;
      Elapse();
      r := *;
      var carriedOut: bool := *;
      if r.Answer? || (r.Lost? && carriedOut) {
        source := source.(workspaces := ArchiveNamed(source.workspaces, workspace));
      }
      ArchiveChanges(view, workspace);
      Record(ArchiveSent(workspace));
    }

    // -------------------------------------------------------------- requests to the target

    method AskTargetWorkspaces() returns (r: Reply<seq<Workspace>>)
      requires Valid()
      modifies this
      ensures Valid() && (r.Answer? ==> r.value == target.workspaces)
      ensures log == old(log) + [if r.Answer? then SawWorkspaces(r.value) else Asked]
      ensures safe == old(safe)
      ensures view == old(view).(target :=
                if r.Answer? then old(view).target.(workspaces := Some(r.value), looks := [])
                else old(view).target)
    {
      hide Summarised, TargetAgrees, SourceAgrees, NextView, StepOk;
      Elapse();
      r := *;
      if r.Answer? {
        r := Answer(target.workspaces);
      }
      if r.Answer? {
        RecordTarget(SawWorkspaces(r.value));
      } else {
        RecordAsked();
      }
    }

    method AskTargetRepositories() returns (r: Reply<seq<Repository>>)
      requires Valid()
      modifies this
      ensures Valid() && (r.Answer? ==> r.value == target.repositories)
      ensures log == old(log) + [if r.Answer? then SawRepositories(r.value) else Asked]
      ensures safe == old(safe)
      ensures view == old(view).(target :=
                if r.Answer? then AfterRepositories(old(view).target, r.value)
                else old(view).target)
    {
      hide Summarised, TargetAgrees, SourceAgrees, NextView, StepOk;
      Elapse();
      r := *;
      if r.Answer? {
        r := Answer(target.repositories);
      }
      if r.Answer? {
        RecordTarget(SawRepositories(r.value));
      } else {
        RecordAsked();
      }
    }

    /** The head of a workspace on the target; an answer of any other kind shows none. */
    method AskTargetHead(workspace: string) returns (r: Reply<Option<string>>)
      requires Valid()
      modifies this
      ensures Valid() && (r.Answer? ==> r.value == HeadOf(target.workspaces, workspace))
      ensures log == old(log) + [if r.Lost? then Asked else SawHead(workspace, if r.Answer? then r.value else None)]
      ensures safe == old(safe)
      ensures view == old(view).(target := if r.Lost? then old(view).target
                                           else AfterHead(old(view).target, workspace,
                                                          if r.Answer? then r.value else None))
    {
      hide Summarised, TargetAgrees, SourceAgrees, NextView, StepOk, HeadOf;
      Elapse();
      r := *;
      if r.Answer? {
        r := Answer(HeadOf(target.workspaces, workspace));
      }
      if r.Lost? {
        RecordAsked();
      } else {
        RecordTarget(SawHead(workspace, if r.Answer? then r.value else None));
      }
    }

    method AskTargetChats(workspace: string) returns (r: Reply<seq<ListedChat>>)
      requires Valid()
      modifies this
      ensures Valid() && (r.Answer? ==> Lists(r.value, target.threads, workspace))
      ensures log == old(log) + [if r.Answer? then SawTargetChats(workspace, r.value) else Asked]
      ensures safe == old(safe)
      ensures view == old(view).(target :=
                if r.Answer? then
                  old(view).target.(of := Some(workspace), chats := r.value, asked := {}, replies := map[])
                else old(view).target)
    {
      hide Summarised, TargetAgrees, SourceAgrees, NextView, StepOk, Lists;
      Elapse();
      r := *;
      if r.Answer? {
        var listed := ListChats(target.threads, workspace);
        r := Answer(listed);
      }
      if r.Answer? {
        RecordTarget(SawTargetChats(workspace, r.value));
      } else {
        RecordAsked();
      }
    }

    method CloneRepository(url: string, dest: string) returns (r: Reply<()>)
      requires Valid()
      modifies this
      ensures Valid() && log == old(log) + [CloneSent]
      ensures view == old(view).(target := old(view).target.(known := None))
      ensures old(safe) && MayChange(old(view)) && old(view).source.pushed.Some? ==> safe
    {
      hide Summarised, SourceAgrees, NextView, StepOk, GenuineThread, HasDeliveredHandover, TargetStepOk, NextTarget;
      Elapse();
      r := *;
      if !r.Refused? {
        var name: string := *;
        target := target.(repositories := target.repositories + [Repository(name, Some(url))]);
      }
      TargetChanges(view);
      RecordTarget(CloneSent);
    }

    /** A chat nobody has sent anything to appears under the next id. */
    method AddChat(chat: Thread) returns (id: ThreadId)
      requires Valid() && Permitted(NewChat(chat), words.preamble)
      modifies this`target, this`foreign
      ensures Valid() && id !in old(target.threads) && id in target.threads && target.threads[id] == chat
      ensures id.row >= old(target.nextThread) && NeverHanded(id, view.handed) && NeverHanded(id, foreign)
      ensures target.workspaces == old(target.workspaces) && foreign == old(foreign)
    {
      hide Summarised, TargetAgrees, SourceAgrees, Permitted;
      NextIdIsFree(target, view, foreign);
      id := ThreadId(target.nextThread);
      TargetStep(NewChat(chat));
    }

    /** Puts a workspace on the target, under the name asked for when that is free. */
    method AddWorkspace(name: string, repository: string, versioned: string, branch: string, head: Option<string>)
      returns (kept: string)
      requires Valid()
      modifies this`target
      ensures Valid() && target.threads == old(target.threads) && target.nextThread == old(target.nextThread)
      ensures NameInUse(target.workspaces, name) && NameInUse(target.workspaces, kept)
      ensures !old(NameInUse(target.workspaces, name)) ==> kept == name
    {
      hide Summarised, SourceAgrees, GenuineThread, HasDeliveredHandover;
      kept := if NameInUse(target.workspaces, name) then versioned else name;
      ghost var before := target.workspaces;
      var w := Workspace(kept, repository, branch, false, head);
      target := target.(workspaces := target.workspaces + [w]);
      assert target.workspaces[|before|].name == kept;
      if i :| 0 <= i < |before| && before[i].name == name {
        assert target.workspaces[i].name == name;
      }
    }

    /** The workspace, and the chat unless that step fails. */
    method CarryOutImport(q: Request, commit: Option<string>, provider: string, title: string,
                          transcript: seq<TranscriptMessage>, seeded: bool)
      returns (kept: string, branch: string, thread: Option<ThreadId>)
      requires Valid()
      modifies this`target, this`foreign
      ensures Valid() && NameInUse(target.workspaces, q.name) && NameInUse(target.workspaces, kept)
      ensures foreign == old(foreign)
      ensures thread.Some? <==> transcript != [] && seeded
      ensures thread.Some? ==>
                && thread.value in target.threads && target.threads[thread.value].messages == SeededRows(transcript)
                && thread.value.row >= old(target.nextThread)
                && NeverHanded(thread.value, view.handed) && NeverHanded(thread.value, foreign)
    {
      hide Summarised, TargetAgrees, SourceAgrees, NameInUse, HasDeliveredHandover;
      var repository: string, versioned: string := *, *;
      branch, thread := *, None;
      kept := AddWorkspace(q.name, repository, versioned, branch, commit);
      if transcript != [] && seeded {
        SeededRowsAreCopies(transcript, words.preamble);
        var id := AddChat(Thread(kept, provider, title, 0, false, SeededRows(transcript), [], [], None));
        thread := Some(id);
      }
    }

    /**
     * The workspace, then the chat when there is a transcript to seed it with. A free name
     * is kept and a taken one versioned; the chat can fail after the workspace exists.
     */
    method ImportWorkspace(q: Request, commit: Option<string>, provider: string, title: string,
                           transcript: seq<TranscriptMessage>) returns (r: Reply<ImportAnswer>)
      requires Valid()
      modifies this
      ensures Valid()
      ensures var sent := ImportSent(q, commit, transcript);
              if r.Answer? then
                log == old(log) + [sent] + [Imported(r.value.workspace, r.value.branch, r.value.thread)]
              else log == old(log) + [sent]
      ensures old(safe) && TargetStepOk(old(view), ImportSent(q, commit, transcript)) ==> safe
      ensures view == old(view).(target := old(view).target.(
                        request := Some(q),
                        placed := if r.Answer? then Answered(r.value.workspace, r.value.branch, r.value.thread)
                                  else Sent))
      ensures r.Answer? ==> NameInUse(target.workspaces, q.name) && NameInUse(target.workspaces, r.value.workspace)
      ensures r.Answer? ==> (r.value.thread.Some? <==> transcript != [])
      ensures r.Answer? && r.value.thread.Some? ==>
                && r.value.thread.value in target.threads
                && target.threads[r.value.thread.value].messages == SeededRows(transcript)
                && r.value.thread.value !in old(target.threads)
                && NeverHanded(r.value.thread.value, old(view).handed)
                && NeverHanded(r.value.thread.value, old(foreign))
    {
      hide Summarised, TargetAgrees, SourceAgrees, NextView, StepOk, NameInUse, HasDeliveredHandover, Verdict, Carries,
           TargetStepOk, NextTarget, NeverHanded;
      OldIdsAreGiven(target, view, foreign);
      Elapse();
      ImportChanges(view);
      RecordTarget(ImportSent(q, commit, transcript));
      r := *;
      var created: bool, seeded: bool := *, *;
      if !created && !r.Answer? {
        return;
      }
      var kept, branch, thread := CarryOutImport(q, commit, provider, title, transcript, seeded || r.Answer?);
      if r.Answer? {
        r := Answer(ImportAnswer(kept, branch, thread));
        NotHandedBefore(thread, old(foreign), foreign);
        ImportChanges(view);
        RecordTarget(Imported(kept, branch, thread));
      }
    }

    method CreateChat(workspace: string, provider: string, title: string) returns (r: Reply<ThreadId>)
      requires Valid()
      modifies this
      ensures Valid()
      ensures if r.Answer? then
                log == old(log) + [CreateChatSent(workspace)] + [ChatCreated(r.value)]
              else log == old(log) + [CreateChatSent(workspace)]
      ensures old(safe) && TargetStepOk(old(view), CreateChatSent(workspace)) ==> safe
      ensures view == old(view).(target :=
                if r.Answer? then old(view).target.(created := Some(r.value))
                else old(view).target)
      ensures r.Answer? ==> r.value in target.threads && target.threads[r.value].messages == []
    {
      hide Summarised, TargetAgrees, SourceAgrees, NextView, StepOk, HasDeliveredHandover, ThreadKnown, OwnThread,
           TargetStepOk, NextTarget;
      Elapse();
      CreateChanges(view);
      RecordTarget(CreateChatSent(workspace));
      r := *;
      var carriedOut: bool := *;
      if r.Answer? || (r.Lost? && carriedOut) {
        var id := AddChat(Thread(workspace, provider, title, 0, false, [], [], [], None));
        if r.Answer? {
          r := Answer(id);
          CreateChanges(view);
          RecordTarget(ChatCreated(id));
        }
      }
    }

    /** Looking at a chat is always allowed, and shows no less than any look before it did. */
    method AskSnapshot(thread: ThreadId) returns (r: Reply<Snapshot>)
      requires Valid()
      modifies this
      ensures Valid() && (r.Answer? ==> thread in target.threads && r.value == SnapshotOf(target, thread))
      ensures log == old(log) + [if r.Answer? then SawThread(thread, r.value.messages)
                    else if r.Lost? then Asked else SawNoThread(thread)]
      ensures safe == old(safe)
      ensures r.Answer? ==> thread.row < target.nextThread
      ensures r.Answer? && thread in old(view).delivered ==> HasDeliveredHandover(r.value.messages, old(view).preamble)
      ensures if r.Answer? then
                var shows := HasDeliveredHandover(r.value.messages, old(view).preamble);
                view == old(view).(target := AfterLook(old(view).target, thread, r.value.messages, shows),
                                   delivered := old(view).delivered + if shows then {thread} else {})
              else if r.Lost? then view == old(view)
              else view == old(view).(target := old(view).target.(asked := old(view).target.asked + {thread}))
    {
      hide TargetAgrees, NextView, StepOk, Truthful, Safe, ViewOf, Witnessed, HasDeliveredHandover, AfterLook;
      Elapse();
      OldIdsAreGiven(target, view, foreign);
      r := *;
      NeverRefused(view, thread, Now());
      if r.Answer? && thread in target.threads {
        r := Answer(SnapshotOf(target, thread));
        SnapshotAgrees(target, view, thread, Now());
        LookChanges(view, thread, r.value.messages);
        Record(SawThread(thread, r.value.messages));
      } else if r.Lost? {
        RecordAsked();
      } else {
        r := if r.Answer? then Refused else r;
        LookChanges(view, thread, []);
        Record(SawNoThread(thread));
      }
    }

    method EnsureSession(workspace: string, thread: ThreadId) returns (r: Reply<()>)
      requires Valid()
      modifies this
      ensures Valid() && log == old(log) + [SpawnSent(workspace, thread)] && target.nextThread >= old(target.nextThread)
      ensures view == old(view).(target := old(view).target.(spawned := old(view).target.spawned + {thread}))
      ensures old(safe) && MayHandOver(old(view), thread) && PlacedName(old(view).target.placed) == Some(workspace)
              ==> safe
    {
      hide Summarised, TargetAgrees, SourceAgrees, NextView, StepOk, MayHandOver, TargetStepOk, NextTarget, Apply;
      Elapse();
      r := *;
      var id: SessionId := *;
      if !r.Refused? {
        TargetStep(SessionStarted(id));
      }
      TargetChanges(view);
      RecordTarget(SpawnSent(workspace, thread));
    }

    method QueueInput(thread: ThreadId, content: string) returns (r: Reply<()>)
      requires Valid() && thread.row < target.nextThread
      modifies this
      ensures Valid() && log == old(log) + [QueueSent(thread, content)]
      ensures view == old(view).(target := old(view).target.(queued := old(view).target.queued + {thread}),
                                 handed := old(view).handed + {(thread, content)})
      ensures old(safe) && TargetStepOk(old(view), QueueSent(thread, content)) ==> safe
      ensures r.Answer? && thread in target.threads ==>
                target.threads[thread].queue != []
                && target.threads[thread].queue[|target.threads[thread].queue| - 1] == content
    {
      hide TargetAgrees, NextView, StepOk, TargetStepOk, Truthful, Safe, ViewOf, Witnessed;
      Elapse();
      r := *;
      var carriedOut: bool := *;
      HandingOverAgrees(target, view, thread, content, foreign);
      RecordableWithoutSeeing(view, QueueSent(thread, content), Now());
      QueueChanges(view, thread, content);
      Record(QueueSent(thread, content));
      if r.Answer? || carriedOut {
        target := Enqueue(target, thread, content);
      }
    }
  }

  lemma NextIdIsFree(d: Daemon, v: View, foreign: set<(ThreadId, string)>)
    requires TargetAgrees(d, v, foreign)
    ensures ThreadId(d.nextThread) !in d.threads
    ensures NeverHanded(ThreadId(d.nextThread), v.handed) && NeverHanded(ThreadId(d.nextThread), foreign)
  {
    hide GenuineThread, StillShows;
  }

  lemma NotHandedBefore(t: Option<ThreadId>, before: set<(ThreadId, string)>, after: set<(ThreadId, string)>)
    requires before <= after
    ensures t.Some? && NeverHanded(t.value, after) ==> NeverHanded(t.value, before)
  {
  }

  lemma OldIdsAreGiven(d: Daemon, v: View, foreign: set<(ThreadId, string)>)
    requires TargetAgrees(d, v, foreign)
    ensures forall t :: t in d.threads ==> t.row < d.nextThread
  {
    hide GenuineThread, StillShows;
  }

  lemma RecordedViews(v: View, e: Event)
    ensures NextView(v, e).preamble == v.preamble
  {
    hide HasDeliveredHandover;
  }

  lemma SameTarget(d: Daemon, v: View, v': View, foreign: set<(ThreadId, string)>)
    requires TargetAgrees(d, v, foreign)
    requires v'.preamble == v.preamble && v'.handed == v.handed && v'.delivered == v.delivered
    ensures TargetAgrees(d, v', foreign)
  {
    hide Genuine, StillShows, AreGiven;
  }

  lemma RecordableWithoutSeeing(v: View, e: Event, m: Moment)
    requires e.QueueSent?
    ensures Truthful(v, e, m)
  {
  }

  /** A look that fails, or fails to find a chat, is always allowed. */
  lemma NeverRefused(v: View, t: ThreadId, m: Moment)
    ensures StepOk(v, Asked) && Truthful(v, Asked, m)
    ensures StepOk(v, SawNoThread(t)) && Truthful(v, SawNoThread(t), m)
  {
  }
}
