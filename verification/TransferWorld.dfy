/**
 * The two daemons a transfer talks to, what happens on them without being asked,
 * and the record of everything a transfer sent and saw.
 */
module TransferWorld {
  import opened Options
  import opened Text

  datatype Role = User | Agent | OtherRole(name: string)

  /** How a row came to be: copied from another chat, written by a session off its queue, or otherwise. */
  datatype RowSource = Forked | UserSend | OtherSource(tag: string)

  /** The fixed text of a handover. Nothing below depends on what it says. */
  datatype Wording = Wording(preamble: string, branchAt: string, branchPushed: string, replay: string, pickUp: string)

  // ---------------------------------------------------------------- daemon state

  /** Keys of two different tables: a chat's id is never a session's. */
  datatype ThreadId = ThreadId(row: int)
  datatype SessionId = SessionId(row: int)

  datatype Message = Message(role: Role, source: RowSource, content: string)

  /** A row as one daemon hands it to another. */
  datatype TranscriptMessage = TranscriptMessage(role: Role, content: string)

  /** A chat. `inFlight` holds inputs a session has claimed off the queue and not yet written. */
  datatype Thread = Thread(
    workspace: string,
    provider: string,
    title: string,
    updatedAt: int,
    archived: bool,
    messages: seq<Message>,
    queue: seq<string>,
    inFlight: seq<string>,
    session: Option<SessionId>)

  datatype Workspace = Workspace(name: string, repository: string, branch: string, archived: bool, head: Option<string>)

  datatype Repository = Repository(name: string, remoteUrl: Option<string>)

  /** `sessions` maps a session id to whether it is still running; ids are never reused. */
  datatype Daemon = Daemon(
    repositories: seq<Repository>,
    workspaces: seq<Workspace>,
    threads: map<ThreadId, Thread>,
    nextThread: int,
    sessions: map<SessionId, bool>)

  predicate Running(d: Daemon, session: SessionId) {
    session in d.sessions && d.sessions[session]
  }

  /** The row that proves a transfer message reached a session on this daemon. */
  predicate IsDeliveredHandover(m: Message, preamble: string) {
    m.role == User && m.source != Forked && StartsWith(m.content, preamble)
  }

  predicate HasDeliveredHandover(messages: seq<Message>, preamble: string) {
    exists i :: 0 <= i < |messages| && IsDeliveredHandover(messages[i], preamble)
  }

  predicate HasSeededHistory(messages: seq<Message>) {
    exists i :: 0 <= i < |messages| && messages[i].source == Forked
  }

  predicate NameInUse(workspaces: seq<Workspace>, name: string) {
    exists i :: 0 <= i < |workspaces| && workspaces[i].name == name
  }

  predicate BranchInUse(workspaces: seq<Workspace>, repository: string, branch: string) {
    exists i :: 0 <= i < |workspaces| && workspaces[i].repository == repository && workspaces[i].branch == branch
  }

  // ---------------------------------------------------------------- environment

  /** What sessions, agents, operators and other transfers do to a daemon between two requests. */
  datatype EnvAction =
    | Claim(thread: ThreadId)
    | WriteClaimed(thread: ThreadId)
    | WriteUnrecorded(thread: ThreadId)
    | Requeue(thread: ThreadId)
    | RowAdded(thread: ThreadId, row: Message)
    | OperatorInput(thread: ThreadId, input: string)
    | ForeignHandover(thread: ThreadId, input: string)
    | NewChat(chat: Thread)
    | MarkChat(thread: ThreadId, isArchived: bool, touched: int, running: Option<SessionId>)
    | DeleteChat(thread: ThreadId)
    | SessionStarted(id: SessionId)
    | SessionEnded(id: SessionId)
    | Workspaces(all: seq<Workspace>, repos: seq<Repository>)

  /**
   * No one but a transfer, this one or another, types the preamble, and a chat nobody sent
   * anything to starts out with copied rows only.
   */
  predicate Permitted(a: EnvAction, preamble: string) {
    match a
    case RowAdded(_, row) => !IsDeliveredHandover(row, preamble)
    case OperatorInput(_, input) => !StartsWith(input, preamble)
    case NewChat(chat) =>
      && chat.queue == [] && chat.inFlight == []
      && forall i :: 0 <= i < |chat.messages| ==> !IsDeliveredHandover(chat.messages[i], preamble)
    case _ => true
  }

  function ApplyToThread(t: Thread, a: EnvAction): Thread {
    match a
    case Claim(_) =>
      if t.queue == [] then t else t.(queue := t.queue[1..], inFlight := t.inFlight + [t.queue[0]])
    case WriteClaimed(_) =>
      if t.inFlight == [] then t
      else t.(inFlight := t.inFlight[1..],
              messages := t.messages + [Message(User, UserSend, t.inFlight[0])])
    case WriteUnrecorded(_) =>
      if t.inFlight == [] then t else t.(inFlight := t.inFlight[1..])
    case Requeue(_) =>
      if t.inFlight == [] then t else t.(inFlight := t.inFlight[1..], queue := [t.inFlight[0]] + t.queue)
    case RowAdded(_, row) => t.(messages := t.messages + [row])
    case OperatorInput(_, input) => t.(queue := t.queue + [input])
    case ForeignHandover(_, input) => t.(queue := t.queue + [input])
    case MarkChat(_, isArchived, touched, running) =>
      t.(archived := isArchived, updatedAt := touched, session := running)
    case _ => t
  }

  function Apply(d: Daemon, a: EnvAction): Daemon {
    match a
    case NewChat(chat) => d.(threads := d.threads[ThreadId(d.nextThread) := chat], nextThread := d.nextThread + 1)
    case DeleteChat(thread) => d.(threads := map t | t in d.threads && t != thread :: d.threads[t])
    case SessionStarted(id) => if id in d.sessions then d else d.(sessions := d.sessions[id := true])
    case SessionEnded(id) => if id in d.sessions then d.(sessions := d.sessions[id := false]) else d
    case Workspaces(all, repos) => d.(workspaces := all, repositories := repos)
    case _ =>
      if a.thread in d.threads then d.(threads := d.threads[a.thread := ApplyToThread(d.threads[a.thread], a)]) else d
  }

  // ---------------------------------------------------------------- what a daemon answers

  datatype ListedChat = ListedChat(id: ThreadId, thread: Thread)

  /** The chats of a workspace, each once. */
  ghost predicate Lists(chats: seq<ListedChat>, threads: map<ThreadId, Thread>, workspace: string) {
    && (forall c :: c in chats <==> c.id in threads && c.thread == threads[c.id] && c.thread.workspace == workspace)
    && (forall i, j :: 0 <= i < j < |chats| ==> chats[i].id != chats[j].id)
  }

  function WorkspaceNamed(all: seq<Workspace>, name: string): (r: Option<Workspace>)
    ensures r.None? <==> !NameInUse(all, name)
    ensures r.Some? ==> r.value in all && r.value.name == name
  {
    if all == [] then None else if all[0].name == name then Some(all[0]) else WorkspaceNamed(all[1..], name)
  }

  function HeadOf(all: seq<Workspace>, name: string): Option<string> {
    var w := WorkspaceNamed(all, name);
    if w.Some? then w.value.head else None
  }

  function RemoteUrlOf(repositories: seq<Repository>, name: string): Option<string> {
    if repositories == [] then None
    else if repositories[0].name == name then repositories[0].remoteUrl
    else RemoteUrlOf(repositories[1..], name)
  }

  /** The session holding a chat, unless its status is terminal. */
  function LiveHolder(d: Daemon, thread: ThreadId): Option<SessionId>
    requires thread in d.threads
  {
    var session := d.threads[thread].session;
    if session.Some? && Running(d, session.value) then session else None
  }

  ghost function SessionsIn(d: Daemon): set<SessionId> {
    set s | s in d.sessions && d.sessions[s]
  }

  /** Rows as a transcript carries them: where each came from is left behind. */
  function TranscriptOf(rows: seq<Message>): (transcript: seq<TranscriptMessage>)
    ensures |transcript| == |rows|
    ensures forall i :: 0 <= i < |rows| ==> transcript[i] == TranscriptMessage(rows[i].role, rows[i].content)
  {
    seq(|rows|, i requires 0 <= i < |rows| => TranscriptMessage(rows[i].role, rows[i].content))
  }

  // ---------------------------------------------------------------- what daemons keep

  /** Every preamble in a chat, typed or still queued, is a handover somebody is known to have made there. */
  ghost predicate GenuineThread(id: ThreadId, t: Thread, known: set<(ThreadId, string)>, preamble: string) {
    && (forall i :: 0 <= i < |t.messages| && IsDeliveredHandover(t.messages[i], preamble) ==>
          (id, t.messages[i].content) in known)
    && (forall i :: 0 <= i < |t.queue| && StartsWith(t.queue[i], preamble) ==> (id, t.queue[i]) in known)
    && (forall i :: 0 <= i < |t.inFlight| && StartsWith(t.inFlight[i], preamble) ==> (id, t.inFlight[i]) in known)
  }

  ghost predicate Genuine(d: Daemon, known: set<(ThreadId, string)>, preamble: string) {
    forall t :: t in d.threads ==> t.row < d.nextThread && GenuineThread(t, d.threads[t], known, preamble)
  }

  /** A handover once seen in a chat stays there as long as the chat does, and no other chat takes its id. */
  ghost predicate StillShows(d: Daemon, delivered: set<ThreadId>, preamble: string) {
    forall t :: t in delivered ==>
      t.row < d.nextThread && (t in d.threads ==> HasDeliveredHandover(d.threads[t].messages, preamble))
  }

  ghost predicate StillEnded(d: Daemon, ended: set<SessionId>) {
    forall s :: s in ended ==> s in d.sessions && !d.sessions[s]
  }

  lemma RowsOnlyGrow(t: Thread, a: EnvAction, preamble: string)
    ensures t.messages <= ApplyToThread(t, a).messages
    ensures HasDeliveredHandover(t.messages, preamble) ==> HasDeliveredHandover(ApplyToThread(t, a).messages, preamble)
  {
    var t' := ApplyToThread(t, a);
    assert t.messages <= t'.messages;
    if i :| 0 <= i < |t.messages| && IsDeliveredHandover(t.messages[i], preamble) {
      assert IsDeliveredHandover(t'.messages[i], preamble);
    }
  }

  /** A step keeps to what is known, if a handover it makes is known too. */
  ghost predicate Accounted(a: EnvAction, known: set<(ThreadId, string)>) {
    a.ForeignHandover? ==> (a.thread, a.input) in known
  }

  lemma StaysGenuine(id: ThreadId, t: Thread, a: EnvAction, known: set<(ThreadId, string)>, preamble: string)
    requires Permitted(a, preamble) && Accounted(a, known) && GenuineThread(id, t, known, preamble)
    requires a.ForeignHandover? ==> a.thread == id
    ensures GenuineThread(id, ApplyToThread(t, a), known, preamble)
  {
    var t' := ApplyToThread(t, a);
    if a.Claim? && t.queue != [] {
      assert t.queue[0] in t.queue;
    }
    forall i | 0 <= i < |t'.messages| && IsDeliveredHandover(t'.messages[i], preamble)
      ensures (id, t'.messages[i].content) in known
    {
      if i < |t.messages| {
        assert t'.messages[i] == t.messages[i];
      }
    }
    forall i | 0 <= i < |t'.queue| && StartsWith(t'.queue[i], preamble)
      ensures (id, t'.queue[i]) in known
    {
      if a.Requeue? && t.inFlight != [] && i > 0 {
        assert t'.queue[i] == t.queue[i - 1];
      } else if a.Claim? && t.queue != [] {
        assert t'.queue[i] == t.queue[i + 1];
      }
    }
  }

  /** Nothing that happens on the target makes up a handover, or loses one that was seen. */
  lemma EnvironmentKeepsTarget(
    d: Daemon, a: EnvAction, known: set<(ThreadId, string)>, delivered: set<ThreadId>, preamble: string)
    requires Permitted(a, preamble) && Accounted(a, known)
    requires Genuine(d, known, preamble) && StillShows(d, delivered, preamble)
    ensures Genuine(Apply(d, a), known, preamble) && StillShows(Apply(d, a), delivered, preamble)
    ensures Apply(d, a).nextThread >= d.nextThread
  {
    hide GenuineThread, HasDeliveredHandover;
    var d' := Apply(d, a);
    forall t | t in d'.threads
      ensures t.row < d'.nextThread && GenuineThread(t, d'.threads[t], known, preamble)
      ensures t in delivered ==> HasDeliveredHandover(d'.threads[t].messages, preamble)
    {
      if t in d.threads && d'.threads[t] != d.threads[t] {
        StaysGenuine(t, d.threads[t], a, known, preamble);
        RowsOnlyGrow(d.threads[t], a, preamble);
      } else if t !in d.threads {
        NewChatIsGenuine(t, d'.threads[t], known, preamble);
      }
    }
  }

  lemma NewChatIsGenuine(t: ThreadId, chat: Thread, known: set<(ThreadId, string)>, preamble: string)
    requires Permitted(NewChat(chat), preamble)
    ensures GenuineThread(t, chat, known, preamble)
  {
  }

  lemma EnvironmentKeepsEnded(d: Daemon, a: EnvAction, ended: set<SessionId>)
    requires StillEnded(d, ended)
    ensures StillEnded(Apply(d, a), ended)
  {
  }

  lemma KnownMayGrow(d: Daemon, known: set<(ThreadId, string)>, more: set<(ThreadId, string)>, preamble: string)
    requires Genuine(d, known, preamble) && known <= more
    ensures Genuine(d, more, preamble)
  {
    forall t | t in d.threads
      ensures GenuineThread(t, d.threads[t], more, preamble)
    {
      assert GenuineThread(t, d.threads[t], known, preamble);
    }
  }

  function Enqueue(d: Daemon, t: ThreadId, content: string): Daemon {
    if t in d.threads then d.(threads := d.threads[t := d.threads[t].(queue := d.threads[t].queue + [content])]) else d
  }

  /** Putting a known handover in a chat's queue keeps its preambles accounted for. */
  lemma EnqueueKeepsTarget(d: Daemon, t: ThreadId, content: string, known: set<(ThreadId, string)>,
                           delivered: set<ThreadId>, preamble: string)
    requires Genuine(d, known, preamble) && StillShows(d, delivered, preamble) && (t, content) in known
    ensures Genuine(Enqueue(d, t, content), known, preamble) && StillShows(Enqueue(d, t, content), delivered, preamble)
  {
    EnvironmentKeepsTarget(d, ForeignHandover(t, content), known, delivered, preamble);
  }

  // ---------------------------------------------------------------- an empty queue proves nothing

  function SentRows(messages: seq<Message>): multiset<string> {
    if messages == [] then
      multiset{}
    else
      var last := messages[|messages| - 1];
      SentRows(messages[..|messages| - 1]) + if last.source == UserSend then multiset{last.content} else multiset{}
  }

  /** Everything that was ever queued in a chat: still queued, claimed, or written. */
  function Ledger(t: Thread): multiset<string> {
    multiset(t.queue) + (multiset(t.inFlight) + SentRows(t.messages))
  }

  /** A claim, a write and a requeue move an input; none of them loses or copies it. */
  lemma InputsAreConserved(t: Thread, a: EnvAction)
    requires a.Claim? || a.WriteClaimed? || a.Requeue?
    ensures Ledger(ApplyToThread(t, a)) == Ledger(t)
  {
    match a
    case Claim(_) => ClaimConserves(t.queue, t.inFlight, SentRows(t.messages));
    case Requeue(_) => RequeueConserves(t.queue, t.inFlight, SentRows(t.messages));
    case WriteClaimed(_) => WriteConserves(t.inFlight, t.messages);
  }

  lemma HeadAndTail(s: seq<string>)
    requires s != []
    ensures multiset(s) == multiset{s[0]} + multiset(s[1..])
  {
    assert s == [s[0]] + s[1..];
  }

  lemma ClaimConserves(queue: seq<string>, inFlight: seq<string>, sent: multiset<string>)
    ensures queue != [] ==>
              multiset(queue[1..]) + (multiset(inFlight + [queue[0]]) + sent)
              == multiset(queue) + (multiset(inFlight) + sent)
  {
    if queue != [] {
      HeadAndTail(queue);
    }
  }

  lemma RequeueConserves(queue: seq<string>, inFlight: seq<string>, sent: multiset<string>)
    ensures inFlight != [] ==>
              multiset([inFlight[0]] + queue) + (multiset(inFlight[1..]) + sent)
              == multiset(queue) + (multiset(inFlight) + sent)
  {
    if inFlight != [] {
      HeadAndTail(inFlight);
    }
  }

  lemma WriteConserves(inFlight: seq<string>, messages: seq<Message>)
    ensures inFlight != [] ==>
              multiset(inFlight[1..]) + SentRows(messages + [Message(User, UserSend, inFlight[0])])
              == multiset(inFlight) + SentRows(messages)
  {
    if inFlight != [] {
      HeadAndTail(inFlight);
      var row := Message(User, UserSend, inFlight[0]);
      assert (messages + [row])[..|messages|] == messages;
    }
  }

  /** A claimed handover leaves an empty queue with nothing delivered, and can come back. */
  lemma EmptyQueueIsNotDelivery(t: Thread, id: ThreadId, handover: string, preamble: string)
    requires t.queue == [handover] && t.inFlight == [] && !HasDeliveredHandover(t.messages, preamble)
    requires StartsWith(handover, preamble)
    ensures var claimed := ApplyToThread(t, Claim(id));
            && claimed.queue == [] && !HasDeliveredHandover(claimed.messages, preamble)
            && ApplyToThread(claimed, Requeue(id)) == t
            && HasDeliveredHandover(ApplyToThread(claimed, WriteClaimed(id)).messages, preamble)
  {
    var claimed := ApplyToThread(t, Claim(id));
    assert claimed.inFlight == [handover] && claimed.inFlight[1..] == [];
    var written := ApplyToThread(claimed, WriteClaimed(id));
    assert IsDeliveredHandover(written.messages[|t.messages|], preamble);
  }
}
