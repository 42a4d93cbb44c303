/**
 * The record of everything a transfer sent and saw: which events it allows next, and that
 * what it says was seen was so, on the two daemons, at that moment.
 */
module TransferRecord {
  import opened Options
  import opened Text
  import opened TransferWorld
  import opened TransferDecisions
  import opened RepositoryUrl

  /** Both ends when an event was written down, and every handover other transfers had made by then. */
  datatype Moment = Moment(source: Daemon, target: Daemon, foreign: set<(ThreadId, string)>)

  datatype Event =
    | RunStarted(force: bool, choice: Option<ThreadId>)
    | Asked
    | SawSourceWorkspaces(workspaces: seq<Workspace>)
    | SawSourceRepositories(repositories: seq<Repository>)
    | SawChats(workspace: string, chats: seq<ListedChat>)
    | SawSession(thread: ThreadId, holder: Option<SessionId>)
    | Moving(moved: Option<ThreadId>)
    | KillSent(session: SessionId)
    | SawEnded(session: SessionId)
    | SawError(session: SessionId)
    | SawTranscript(thread: ThreadId, transcript: seq<TranscriptMessage>)
    | CommitSent(workspace: string, running: set<SessionId>)
    | PushSent(workspace: string, running: set<SessionId>)
    | SawSourceHead(workspace: string, commit: Option<string>)
    | SawWorkspaces(workspaces: seq<Workspace>)
    | SawRepositories(repositories: seq<Repository>)
    | SawHead(workspace: string, head: Option<string>)
    | Adopted(request: Request, existing: Workspace)
    | CloneSent
    | ImportSent(request: Request, commit: Option<string>, transcript: seq<TranscriptMessage>)
    | Imported(workspace: string, branch: string, seeded: Option<ThreadId>)
    | SawTargetChats(workspace: string, chats: seq<ListedChat>)
    | SawThread(thread: ThreadId, messages: seq<Message>)
    | SawNoThread(thread: ThreadId)
    | CreateChatSent(workspace: string)
    | ChatCreated(thread: ThreadId)
    | ThreadChosen(thread: ThreadId)
    | SpawnSent(workspace: string, thread: ThreadId)
    | QueueSent(thread: ThreadId, content: string)
    | ArchiveSent(workspace: string)

  /** The repository, name and branch a workspace is wanted under on the target. */
  datatype Request = Request(url: string, name: string, branch: string)

  // ---------------------------------------------------------------- what the record says so far

  /** Of the source, in the run in progress. */
  datatype SourceView = SourceView(
    workspaces: Option<seq<Workspace>>,
    repositories: Option<seq<Repository>>,
    of: Option<string>,
    chats: seq<ListedChat>,
    asked: map<ThreadId, Option<SessionId>>,
    live: set<SessionId>,
    ended: set<SessionId>,
    errored: set<SessionId>,
    killed: set<SessionId>,
    moving: Option<Option<ThreadId>>,
    transcript: Option<seq<TranscriptMessage>>,
    committed: Option<string>,
    pushed: Option<string>,
    head: Option<Option<string>>)

  /** Where the workspace is on the target. */
  datatype Placement =
    | Nowhere
    | Existing(workspace: Workspace)
    | Sent
    | Answered(name: string, branch: string, seeded: Option<ThreadId>)

  /** Of the target, in the run in progress. `known` is its last list of repositories since anything was cloned. */
  datatype TargetView = TargetView(
    workspaces: Option<seq<Workspace>>,
    repositories: Option<seq<Repository>>,
    known: Option<seq<Repository>>,
    looks: seq<Look>,
    request: Option<Request>,
    placed: Placement,
    of: Option<string>,
    chats: seq<ListedChat>,
    asked: set<ThreadId>,
    replies: Replies,
    created: Option<ThreadId>,
    thread: Option<ThreadId>,
    firstLook: Option<bool>,
    confirmed: set<ThreadId>,
    spawned: set<ThreadId>,
    queued: set<ThreadId>)

  /** `handed` and `delivered` span every run; the rest is about the run in progress. */
  datatype View = View(
    preamble: string,
    runs: nat,
    handed: set<(ThreadId, string)>,
    delivered: set<ThreadId>,
    force: bool,
    choice: Option<ThreadId>,
    source: SourceView,
    target: TargetView,
    archived: Option<string>)

  const NO_SOURCE := SourceView(None, None, None, [], map[], {}, {}, {}, {}, None, None, None, None, None)
  const NO_TARGET := TargetView(None, None, None, [], None, Nowhere, None, [], {}, map[], None, None, None, {}, {}, {})

  function EmptyView(preamble: string): View {
    View(preamble, 0, {}, {}, false, None, NO_SOURCE, NO_TARGET, None)
  }

  /** A chat said which live session holds it, if any. */
  function AfterAnswer(s: SourceView, thread: ThreadId, holder: Option<SessionId>): SourceView {
    s.(asked := s.asked[thread := holder], live := s.live + if holder.Some? then {holder.value} else {})
  }

  function NextSource(s: SourceView, e: Event): SourceView {
    match e
    case SawSourceWorkspaces(all) => s.(workspaces := Some(all))
    case SawSourceRepositories(all) => s.(repositories := Some(all))
    case SawChats(workspace, chats) => s.(of := Some(workspace), chats := chats, asked := map[])
    case SawSession(thread, holder) => AfterAnswer(s, thread, holder)
    case Moving(moved) => s.(moving := Some(moved))
    case KillSent(session) => s.(killed := s.killed + {session})
    case SawEnded(session) => s.(ended := s.ended + {session})
    case SawError(session) => s.(errored := s.errored + {session})
    case SawTranscript(_, transcript) => s.(transcript := Some(transcript))
    case CommitSent(workspace, _) => s.(committed := Some(workspace))
    case PushSent(workspace, _) => s.(pushed := Some(workspace))
    case SawSourceHead(_, commit) => s.(head := Some(commit))
    case _ => s
  }

  ghost function NextTarget(t: TargetView, e: Event, preamble: string): TargetView {
    match e
    case SawWorkspaces(all) => t.(workspaces := Some(all), looks := [])
    case SawRepositories(all) => AfterRepositories(t, all)
    case SawHead(workspace, head) => AfterHead(t, workspace, head)
    case Adopted(request, existing) => t.(request := Some(request), placed := Existing(existing))
    case CloneSent => t.(known := None)
    case ImportSent(request, _, _) => t.(request := Some(request), placed := Sent)
    case Imported(workspace, branch, seeded) => t.(placed := Answered(workspace, branch, seeded))
    case SawTargetChats(workspace, chats) => t.(of := Some(workspace), chats := chats, asked := {}, replies := map[])
    case SawThread(thread, messages) => AfterLook(t, thread, messages, HasDeliveredHandover(messages, preamble))
    case SawNoThread(thread) => t.(asked := t.asked + {thread})
    case ChatCreated(thread) => t.(created := Some(thread))
    case ThreadChosen(thread) => t.(thread := Some(thread), firstLook := None)
    case SpawnSent(_, thread) => t.(spawned := t.spawned + {thread})
    case QueueSent(thread, _) => t.(queued := t.queued + {thread})
    case _ => t
  }

  function AfterRepositories(t: TargetView, all: seq<Repository>): TargetView {
    t.(repositories := if t.repositories.None? then Some(all) else t.repositories, known := Some(all))
  }

  function AfterHead(t: TargetView, workspace: string, head: Option<string>): TargetView {
    t.(looks := t.looks + [Look(workspace, head)])
  }

  /** A chat was read; `shows` says whether it shows a handover. */
  function AfterLook(t: TargetView, thread: ThreadId, messages: seq<Message>, shows: bool): TargetView {
    t.(asked := t.asked + {thread},
       replies := t.replies[thread := messages],
       firstLook := if t.thread == Some(thread) && t.firstLook.None? then Some(shows) else t.firstLook,
       confirmed := if shows then t.confirmed + {thread} else t.confirmed)
  }

  function NextHanded(v: View, e: Event): set<(ThreadId, string)> {
    if e.QueueSent? then v.handed + {(e.thread, e.content)} else v.handed
  }

  ghost function NextDelivered(v: View, e: Event): set<ThreadId> {
    if e.SawThread? && HasDeliveredHandover(e.messages, v.preamble) then v.delivered + {e.thread} else v.delivered
  }

  ghost function NextView(v: View, e: Event): View {
    match e
    case RunStarted(force, choice) =>
      v.(runs := v.runs + 1, force := force, choice := choice, source := NO_SOURCE, target := NO_TARGET,
         archived := None)
    case ArchiveSent(workspace) => v.(archived := Some(workspace))
    case _ =>
      v.(source := NextSource(v.source, e),
         target := NextTarget(v.target, e, v.preamble),
         handed := NextHanded(v, e),
         delivered := NextDelivered(v, e))
  }

  ghost function ViewOf(log: seq<Event>, preamble: string): View {
    if log == [] then EmptyView(preamble) else NextView(ViewOf(log[..|log| - 1], preamble), log[|log| - 1])
  }

  // ---------------------------------------------------------------- what may come next

  /** The source's chats were listed, and every one that is not archived was asked for its session. */
  predicate Surveyed(s: SourceView) {
    s.of.Some? && AllAsked(s.chats, s.asked)
  }

  /** A running session stops everything but reads unless the operator said `--force`. */
  predicate MayChange(v: View) {
    Surveyed(v.source) && (v.force || v.source.live == {})
  }

  /** Every session seen live was told to stop and then seen gone. */
  predicate Stopped(s: SourceView) {
    Surveyed(s) && s.live <= s.killed && s.live <= s.ended + s.errored
  }

  /**
   * Under `--force`, once every chat was asked and the one that moves was decided, a session
   * seen live is told to stop.
   */
  predicate MayKill(v: View, session: SessionId) {
    v.force && Surveyed(v.source) && v.source.moving.Some? && session in v.source.live
  }

  predicate MayCommit(v: View, workspace: string) {
    MayChange(v) && Stopped(v.source) && v.source.of == Some(workspace) && v.source.moving.Some?
  }

  predicate MayPush(v: View, workspace: string) {
    MayChange(v) && Stopped(v.source) && v.source.of == v.source.committed == Some(workspace)
  }

  /** The chat that moves is the one asked for, or else the latest. */
  predicate MovesRight(v: View, moved: Option<ThreadId>) {
    Surveyed(v.source) && moved == ThreadOf(MovingChat(ChatsOf(v.source.chats, v.source.asked), v.choice))
  }

  /** The conversation that goes along: none, or all that the moving chat held after the stop. */
  predicate Carries(s: SourceView, transcript: seq<TranscriptMessage>) {
    if s.moving == Some(None) then transcript == [] else s.moving.Some? && s.transcript == Some(transcript)
  }

  /** The remote URL of the repository the pushed workspace belongs to. */
  function SourceUrl(s: SourceView): Option<string> {
    if s.pushed.None? || s.workspaces.None? || s.repositories.None? then None
    else
      var w := WorkspaceNamed(s.workspaces.value, s.pushed.value);
      if w.None? then None else RemoteUrlOf(s.repositories.value, w.value.repository)
  }

  /** What the listing and the looks taken at it amount to. */
  predicate Verdict(t: TargetView, q: Request, commit: Option<string>, verdict: TargetMatch) {
    && t.workspaces.Some? && t.repositories.Some?
    && var repository := RepositoryName(t.repositories.value, q.url);
       && Settled(t.workspaces.value, repository, q.branch, commit, t.looks)
       && Decide(t.workspaces.value, repository, q.branch, q.name, commit, t.looks) == verdict
  }

  /**
   * The workspace is there for this transfer: adopted, or imported on the branch asked for.
   * Another branch will do only where the target was known to have the repository.
   */
  predicate Placed(t: TargetView) {
    match t.placed
    case Existing(_) => true
    case Answered(_, branch, _) =>
      t.request.Some? && t.known.Some? && KeptBranch(t.request.value, t.known.value, branch)
    case _ => false
  }

  predicate KeptBranch(q: Request, known: seq<Repository>, branch: string) {
    branch == q.branch || RepositoryName(known, q.url).Some?
  }

  function PlacedName(p: Placement): Option<string> {
    match p
    case Existing(w) => Some(w.name)
    case Answered(name, _, _) => Some(name)
    case _ => None
  }

  /** An adopted workspace's chats were listed, and enough of them read to choose. */
  predicate ChatsRead(t: TargetView, preamble: string) {
    t.of == PlacedName(t.placed) && LookedEnough(LiveChats(t.chats), t.asked, t.replies, preamble)
  }

  /** The chat the workspace comes with: the one an import seeded, or the one chosen among those there. */
  function OwnThread(t: TargetView, preamble: string): Option<ThreadId> {
    match t.placed
    case Existing(_) => ChooseThread(LiveChats(t.chats), t.replies, preamble)
    case Answered(_, _, seeded) => seeded
    case _ => None
  }

  predicate ThreadKnown(t: TargetView, preamble: string) {
    Placed(t) && (t.placed.Existing? ==> ChatsRead(t, preamble))
  }

  /** What must be true of the record for an event on the source to be allowed. */
  predicate SourceStepOk(v: View, e: Event) {
    match e
    case Moving(moved) => MovesRight(v, moved)
    case KillSent(session) => MayKill(v, session)
    case SawTranscript(thread, _) => v.source.moving == Some(Some(thread)) && Stopped(v.source)
    case CommitSent(workspace, running) => MayCommit(v, workspace) && running !! v.source.ended
    case PushSent(workspace, running) => MayPush(v, workspace) && running !! v.source.ended
    case SawSourceHead(workspace, _) => v.source.pushed == Some(workspace)
    case ArchiveSent(workspace) => MayArchive(v, workspace)
    case _ => true
  }

  /** The source is retired only for a workspace that is on the target, with its chat handed over if one moves. */
  predicate MayArchive(v: View, workspace: string) {
    && MayChange(v) && v.source.pushed == Some(workspace) && Placed(v.target)
    && (v.source.moving == Some(None) || Confirmed(v.target))
  }

  /** The chosen chat was seen handed over: before anything was sent, or after this run's message was queued. */
  predicate Confirmed(t: TargetView) {
    && t.thread.Some? && t.thread.value in t.confirmed && t.firstLook.Some?
    && (t.firstLook.value <==> t.thread.value !in t.queued)
  }

  /**
   * A session is started and a message queued only for a chat first seen without a handover,
   * when no chat shows one.
   */
  predicate MayHandOver(v: View, t: ThreadId) {
    && MayChange(v) && v.source.pushed.Some?
    && v.target.thread == Some(t) && v.target.firstLook == Some(false)
    && v.target.confirmed == {} && t !in v.delivered
  }

  /** What must be true of the record for an event on the target to be allowed. */
  ghost predicate TargetStepOk(v: View, e: Event) {
    match e
    case CloneSent => MayChange(v) && v.source.pushed.Some?
    case Adopted(request, existing) =>
      && MayChange(v) && v.source.head.Some? && v.target.placed.Nowhere? && SourceUrl(v.source) == Some(request.url)
      && Verdict(v.target, request, v.source.head.value, Adopt(existing))
    case ImportSent(request, commit, transcript) =>
      && MayChange(v) && v.source.head == Some(commit) && v.target.placed.Nowhere? && v.target.known.Some?
      && SourceUrl(v.source) == Some(request.url) && Carries(v.source, transcript)
      && Verdict(v.target, request, commit, Absent)
    case Imported(_, _, _) => v.target.placed.Sent?
    case CreateChatSent(workspace) =>
      && MayChange(v) && v.source.pushed.Some? && v.source.transcript == Some([])
      && PlacedName(v.target.placed) == Some(workspace)
      && ThreadKnown(v.target, v.preamble) && OwnThread(v.target, v.preamble).None?
    case ThreadChosen(t) =>
      && ThreadKnown(v.target, v.preamble)
      && var own := OwnThread(v.target, v.preamble);
         Some(t) == if own.Some? then own else v.target.created
    case SawThread(t, messages) => t in v.delivered ==> HasDeliveredHandover(messages, v.preamble)
    case SpawnSent(workspace, t) => MayHandOver(v, t) && PlacedName(v.target.placed) == Some(workspace)
    case QueueSent(t, c) =>
      && MayHandOver(v, t) && t in v.target.spawned
      && StartsWith(c, v.preamble) && v.source.transcript.Some? && ReplaysAsk(v.source.transcript.value, c)
    case _ => true
  }

  ghost predicate StepOk(v: View, e: Event) {
    SourceStepOk(v, e) && TargetStepOk(v, e)
  }

  ghost predicate Safe(log: seq<Event>, preamble: string) {
    log == [] || (Safe(log[..|log| - 1], preamble) && StepOk(ViewOf(log[..|log| - 1], preamble), log[|log| - 1]))
  }

  // ---------------------------------------------------------------- that it is true

  /** A chat shows only handovers somebody made there. */
  ghost predicate RowsAccounted(t: ThreadId, messages: seq<Message>, known: set<(ThreadId, string)>, preamble: string) {
    forall i :: 0 <= i < |messages| && IsDeliveredHandover(messages[i], preamble) ==> (t, messages[i].content) in known
  }

  ghost predicate NeverHanded(t: ThreadId, known: set<(ThreadId, string)>) {
    forall c :: (t, c) !in known
  }

  /** What an event says was seen is so at that moment. */
  ghost predicate Truthful(v: View, e: Event, m: Moment) {
    match e
    case SawSourceWorkspaces(all) => all == m.source.workspaces
    case SawSourceRepositories(all) => all == m.source.repositories
    case SawChats(workspace, chats) => Lists(chats, m.source.threads, workspace)
    case SawSession(t, holder) => t in m.source.threads && holder == LiveHolder(m.source, t)
    case SawEnded(s) => s in m.source.sessions && !m.source.sessions[s]
    case SawTranscript(t, transcript) =>
      t in m.source.threads && transcript == TranscriptOf(m.source.threads[t].messages)
    case CommitSent(_, running) => running == SessionsIn(m.source)
    case PushSent(_, running) => running == SessionsIn(m.source)
    case SawSourceHead(workspace, commit) => commit.Some? ==> commit == HeadOf(m.source.workspaces, workspace)
    case SawWorkspaces(all) => all == m.target.workspaces
    case SawRepositories(all) => all == m.target.repositories
    case SawHead(workspace, head) => head.Some? ==> head == HeadOf(m.target.workspaces, workspace)
    case Imported(workspace, _, seeded) =>
      && NameInUse(m.target.workspaces, workspace)
      && (seeded.Some? ==>
            seeded.value in m.target.threads && NeverHanded(seeded.value, v.handed)
            && NeverHanded(seeded.value, m.foreign))
    case SawTargetChats(workspace, chats) => Lists(chats, m.target.threads, workspace)
    case SawThread(t, messages) =>
      && t in m.target.threads && messages == m.target.threads[t].messages
      && RowsAccounted(t, messages, v.handed + m.foreign, v.preamble)
    case ChatCreated(t) => t in m.target.threads
    case _ => true
  }

  ghost predicate Witnessed(log: seq<Event>, history: seq<Moment>, preamble: string) {
    && |history| == |log|
    && (log == []
        || (Witnessed(log[..|log| - 1], history[..|log| - 1], preamble)
            && Truthful(ViewOf(log[..|log| - 1], preamble), log[|log| - 1], history[|log| - 1])))
  }

  lemma Appended(log: seq<Event>, history: seq<Moment>, e: Event, m: Moment, preamble: string)
    requires |history| == |log|
    ensures ViewOf(log + [e], preamble) == NextView(ViewOf(log, preamble), e)
    ensures Safe(log + [e], preamble) <==> Safe(log, preamble) && StepOk(ViewOf(log, preamble), e)
    ensures Witnessed(log + [e], history + [m], preamble) <==>
            Witnessed(log, history, preamble) && Truthful(ViewOf(log, preamble), e, m)
  {
    hide StepOk, Truthful, NextView;
    assert (log + [e])[..|log|] == log;
    assert (history + [m])[..|log|] == history;
  }

  // ---------------------------------------------------------------- one event at a time

  predicate IsSourceEvent(e: Event) {
    e.SawSourceWorkspaces? || e.SawSourceRepositories? || e.SawChats? || e.SawSession? || e.Moving? || e.KillSent?
    || e.SawEnded? || e.SawError? || e.SawTranscript? || e.CommitSent? || e.PushSent? || e.SawSourceHead?
  }

  /** Events on the source change what is known of the source, and nothing else. */
  lemma SourceEvents(v: View, e: Event)
    requires IsSourceEvent(e)
    ensures NextView(v, e) == v.(source := NextSource(v.source, e))
    ensures StepOk(v, e) <==> SourceStepOk(v, e)
  {
    hide HasDeliveredHandover, NextSource, SourceStepOk;
  }

  lemma AskedChangesNothing(v: View)
    ensures NextView(v, Asked) == v && StepOk(v, Asked)
  {
    hide HasDeliveredHandover;
  }

  /** What one look at a chat changes. */
  lemma LookChanges(v: View, t: ThreadId, messages: seq<Message>)
    ensures var shows := HasDeliveredHandover(messages, v.preamble);
            NextView(v, SawThread(t, messages))
            == v.(target := AfterLook(v.target, t, messages, shows),
                  delivered := if shows then v.delivered + {t} else v.delivered)
    ensures StepOk(v, SawThread(t, messages)) <==> (t in v.delivered ==> HasDeliveredHandover(messages, v.preamble))
    ensures NextView(v, SawNoThread(t)) == v.(target := v.target.(asked := v.target.asked + {t}))
    ensures StepOk(v, SawNoThread(t))
  {
    hide HasDeliveredHandover, AfterLook;
  }

  predicate IsTargetEvent(e: Event) {
    e.SawWorkspaces? || e.SawRepositories? || e.SawHead? || e.Adopted? || e.CloneSent? || e.ImportSent? || e.Imported?
    || e.SawTargetChats? || e.CreateChatSent? || e.ChatCreated? || e.ThreadChosen? || e.SpawnSent?
  }

  /** These events on the target change what is known of the target, and nothing else. */
  lemma TargetEvents(v: View, e: Event)
    requires IsTargetEvent(e)
    ensures NextView(v, e) == v.(target := NextTarget(v.target, e, v.preamble))
    ensures StepOk(v, e) <==> TargetStepOk(v, e)
  {
    hide HasDeliveredHandover, NextTarget, TargetStepOk;
  }

  lemma ImportChanges(v: View)
    ensures forall q, commit, transcript ::
              NextTarget(v.target, ImportSent(q, commit, transcript), v.preamble)
              == v.target.(request := Some(q), placed := Sent)
    ensures forall name, branch, seeded ::
              NextTarget(v.target, Imported(name, branch, seeded), v.preamble)
              == v.target.(placed := Answered(name, branch, seeded))
    ensures forall name, branch, seeded :: TargetStepOk(v, Imported(name, branch, seeded)) <==> v.target.placed.Sent?
  {
    hide HasDeliveredHandover;
  }

  lemma CreateChanges(v: View)
    ensures forall name :: NextTarget(v.target, CreateChatSent(name), v.preamble) == v.target
    ensures forall t :: NextTarget(v.target, ChatCreated(t), v.preamble) == v.target.(created := Some(t))
    ensures forall t :: TargetStepOk(v, ChatCreated(t))
  {
    hide HasDeliveredHandover;
  }

  /** What the other requests to the target that are not looks change, and when they are allowed. */
  lemma TargetChanges(v: View)
    ensures NextTarget(v.target, CloneSent, v.preamble) == v.target.(known := None)
    ensures TargetStepOk(v, CloneSent) <==> MayChange(v) && v.source.pushed.Some?
    ensures forall name, t :: NextTarget(v.target, SpawnSent(name, t), v.preamble)
                              == v.target.(spawned := v.target.spawned + {t})
    ensures forall name, t :: TargetStepOk(v, SpawnSent(name, t)) <==>
                              MayHandOver(v, t) && PlacedName(v.target.placed) == Some(name)
  {
    hide HasDeliveredHandover, MayHandOver, PlacedName, MayChange;
  }

  lemma KillChanges(v: View, session: SessionId)
    ensures NextSource(v.source, KillSent(session)) == v.source.(killed := v.source.killed + {session})
    ensures SourceStepOk(v, KillSent(session)) <==> MayKill(v, session)
  {
    hide Surveyed;
  }

  lemma ArchiveChanges(v: View, workspace: string)
    ensures NextView(v, ArchiveSent(workspace)) == v.(archived := Some(workspace))
    ensures StepOk(v, ArchiveSent(workspace)) <==> MayArchive(v, workspace)
  {
    hide MayArchive;
  }

  lemma QueueChanges(v: View, t: ThreadId, content: string)
    ensures NextView(v, QueueSent(t, content))
         == v.(target := v.target.(queued := v.target.queued + {t}), handed := v.handed + {(t, content)})
    ensures StepOk(v, QueueSent(t, content)) <==> TargetStepOk(v, QueueSent(t, content))
  {
    hide TargetStepOk, HasDeliveredHandover;
  }

  // ---------------------------------------------------------------- both ends against the record

  /** Handovers are made only to ids the daemon had given out by then. */
  ghost predicate AreGiven(known: set<(ThreadId, string)>, d: Daemon) {
    forall t, c :: (t, c) in known ==> t.row < d.nextThread
  }

  /** The target agrees with the record: every preamble on it is accounted for, and what was seen is still there. */
  ghost predicate TargetAgrees(d: Daemon, v: View, foreign: set<(ThreadId, string)>) {
    && Genuine(d, v.handed + foreign, v.preamble)
    && AreGiven(v.handed, d) && AreGiven(foreign, d)
    && StillShows(d, v.delivered, v.preamble)
  }

  ghost predicate SourceAgrees(d: Daemon, v: View) {
    StillEnded(d, v.source.ended)
  }

  /** Most events change neither what was handed over, nor what was seen delivered, nor what was seen ended. */
  predicate IsNeutral(e: Event) {
    !e.QueueSent? && !e.SawThread? && !e.SawEnded?
  }

  lemma NeutralEvents(v: View, e: Event)
    requires IsNeutral(e)
    ensures var v' := NextView(v, e);
            && v'.preamble == v.preamble && v'.handed == v.handed && v'.delivered == v.delivered
            && v'.source.ended <= v.source.ended
  {
    hide HasDeliveredHandover, NextTarget, NextSource;
    OnlySeenEndsEnd(v.source, e);
  }

  lemma OnlySeenEndsEnd(s: SourceView, e: Event)
    ensures !e.SawEnded? ==> NextSource(s, e).ended == s.ended
  {
  }

  lemma AgreementsLookAt(source: Daemon, target: Daemon, v: View, v': View, foreign: set<(ThreadId, string)>)
    requires TargetAgrees(target, v, foreign) && SourceAgrees(source, v)
    requires v'.preamble == v.preamble && v'.handed == v.handed && v'.delivered == v.delivered
    requires v'.source.ended <= v.source.ended
    ensures TargetAgrees(target, v', foreign) && SourceAgrees(source, v')
  {
    hide Genuine, StillShows, AreGiven;
  }

  /** Looking at a chat never surprises: what it shows was handed over, and what was seen is still there. */
  lemma SnapshotAgrees(d: Daemon, v: View, t: ThreadId, m: Moment)
    requires TargetAgrees(d, v, m.foreign) && t in d.threads && m.target == d
    ensures var e := SawThread(t, d.threads[t].messages);
            && StepOk(v, e) && Truthful(v, e, m)
            && TargetAgrees(d, NextView(v, e), m.foreign) && NextView(v, e).source == v.source
  {
    hide HasDeliveredHandover, IsDeliveredHandover, AreGiven;
    assert GenuineThread(t, d.threads[t], v.handed + m.foreign, v.preamble);
  }

  /** Handing a chat its message, carried out or not, keeps its preambles accounted for. */
  lemma HandingOverAgrees(d: Daemon, v: View, t: ThreadId, content: string, foreign: set<(ThreadId, string)>)
    requires TargetAgrees(d, v, foreign) && t.row < d.nextThread
    ensures var v' := NextView(v, QueueSent(t, content));
            && TargetAgrees(d, v', foreign) && TargetAgrees(Enqueue(d, t, content), v', foreign)
            && v'.source == v.source
  {
    hide Genuine, StillShows, HasDeliveredHandover;
    var v' := NextView(v, QueueSent(t, content));
    KnownMayGrow(d, v.handed + foreign, v'.handed + foreign, v.preamble);
    EnqueueKeepsTarget(d, t, content, v'.handed + foreign, v.delivered, v.preamble);
  }

  /** The handovers other transfers have made once this happened: a chat that is gone takes none. */
  ghost function ForeignAfter(d: Daemon, a: EnvAction, foreign: set<(ThreadId, string)>): set<(ThreadId, string)> {
    if a.ForeignHandover? && a.thread in d.threads then foreign + {(a.thread, a.input)} else foreign
  }

  lemma HandedAreGiven(d: Daemon, a: EnvAction, v: View, foreign: set<(ThreadId, string)>)
    requires TargetAgrees(d, v, foreign)
    ensures Apply(d, a).nextThread >= d.nextThread
    ensures AreGiven(v.handed, Apply(d, a)) && AreGiven(ForeignAfter(d, a, foreign), Apply(d, a))
  {
    hide StillShows, GenuineThread;
  }

  /** Whatever happens on the target, another transfer's handover included, it goes on agreeing with the record. */
  lemma EnvironmentAgrees(d: Daemon, a: EnvAction, v: View, foreign: set<(ThreadId, string)>)
    requires Permitted(a, v.preamble) && TargetAgrees(d, v, foreign)
    ensures TargetAgrees(Apply(d, a), v, ForeignAfter(d, a, foreign))
    ensures Apply(d, a).nextThread >= d.nextThread
  {
    hide Genuine, StillShows, HasDeliveredHandover, Permitted;
    var more := ForeignAfter(d, a, foreign);
    HandedAreGiven(d, a, v, foreign);
    if a.ForeignHandover? && a.thread !in d.threads {
      return;
    }
    KnownMayGrow(d, v.handed + foreign, v.handed + more, v.preamble);
    EnvironmentKeepsTarget(d, a, v.handed + more, v.delivered, v.preamble);
  }
}
