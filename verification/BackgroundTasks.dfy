/**
 * Background tasks: claimed transitions of the supervisor and of manual ticks, cancels that
 * wait for the claim, and writers that do not take it, while agents work and checks run.
 */
module BackgroundTasks {
  import opened Options

  datatype TaskId = TaskId(row: int)

  datatype Status =
    | Pending | Running | Checking | Summarizing | OpeningPr
    | Ready | Failed | Cancelled
    | Unrecognised(text: string)

  predicate IsTerminal(s: Status) {
    s.Ready? || s.Failed? || s.Cancelled?
  }

  datatype Detail =
    | WaitingForAgent | AgentRunning | ChecksSkipped | NoChecks | RunningChecks(keys: seq<string>)
    | WaitingOnChecks(count: nat) | ChecksFinished | PreparingPr | ReadyWithoutPr | PrReady(output: string)
    | CancelledByRequest

  datatype Task = Task(
    workspace: Option<string>, status: Status, runChecks: bool, openPr: bool, detail: Detail, error: Option<string>)

  // ---------------------------------------------------------------- one step, on its own

  /** How many checks still run, when the store can say. */
  datatype CheckCount = NotListed | Counted(count: nat)

  /** What the world answers during one step. */
  datatype Facts = Facts(agentActive: bool, checks: seq<string>, running: CheckCount, summarySaved: bool,
                         prOpened: bool)

  /** Whether the agent or a check keeps the task where it is. */
  predicate IsHeld(t: Task, f: Facts) {
    ((t.status.Pending? || t.status.Running?) && f.agentActive)
    || (t.status.Checking? && f.running.Counted? && f.running.count > 0)
  }

  function StatusAfter(t: Task, f: Facts): Status {
    if IsTerminal(t.status) then t.status
    else if t.workspace.None? then Failed
    else
      match t.status
      case Pending => if f.agentActive then Pending else AfterAgent(t, f)
      case Running => if f.agentActive then Running else AfterAgent(t, f)
      case Checking => if f.running.NotListed? then Failed else if f.running.count > 0 then Checking else Summarizing
      case Summarizing => if !f.summarySaved then Failed else if t.openPr then OpeningPr else Ready
      case OpeningPr => if f.prOpened then Ready else Failed
      case _ => Failed
  }

  function AfterAgent(t: Task, f: Facts): Status {
    if t.runChecks && f.checks != [] then Checking else Summarizing
  }

  /** How far along a task is; a status nobody knows is as far from the end as a new task. */
  function Rank(s: Status): nat {
    match s
    case Checking => 1
    case Summarizing => 2
    case OpeningPr => 3
    case Ready => 4
    case Failed => 4
    case Cancelled => 4
    case _ => 0
  }

  const LAST_RANK := 4

  lemma TerminalIsLastRank(s: Status)
    ensures IsTerminal(s) <==> Rank(s) == LAST_RANK
  {
  }

  /** An advance that nothing holds brings a task strictly closer to its end; a held one leaves it. */
  lemma AdvanceRaisesRank(t: Task, f: Facts)
    requires !IsTerminal(t.status) && t.workspace.Some?
    ensures IsHeld(t, f) ==> StatusAfter(t, f) == t.status
    ensures !IsHeld(t, f) ==> Rank(StatusAfter(t, f)) > Rank(t.status)
  {
  }

  function Run(t: Task, facts: seq<Facts>): Task {
    if facts == [] then t
    else
      var before := Run(t, facts[..|facts| - 1]);
      before.(status := StatusAfter(before, facts[|facts| - 1]))
  }

  /** How many of the advances found the task held. */
  function HeldCount(t: Task, facts: seq<Facts>): nat {
    if facts == [] then
      0
    else
      var front, last := facts[..|facts| - 1], facts[|facts| - 1];
      HeldCount(t, front) + if IsHeld(Run(t, front), last) then 1 else 0
  }

  /** The rank after any number of advances counts those that were not held. */
  lemma {:induction false} RankCountsAdvances(t: Task, facts: seq<Facts>)
    ensures Rank(Run(t, facts).status) >= Rank(t.status)
    ensures Rank(Run(t, facts).status) < LAST_RANK ==>
              Rank(Run(t, facts).status) >= Rank(t.status) + (|facts| - HeldCount(t, facts))
    ensures Run(t, facts).workspace == t.workspace
  {
    if facts != [] {
      var front, last := facts[..|facts| - 1], facts[|facts| - 1];
      RankCountsAdvances(t, front);
      var before := Run(t, front);
      if !IsTerminal(before.status) && before.workspace.Some? {
        AdvanceRaisesRank(before, last);
      }
    }
  }

  /** Four advances that nothing holds end any task, and each held one costs one more. */
  lemma FourFreeAdvancesEndATask(t: Task, facts: seq<Facts>)
    requires |facts| >= LAST_RANK + HeldCount(t, facts)
    ensures IsTerminal(Run(t, facts).status)
  {
    RankCountsAdvances(t, facts);
    TerminalIsLastRank(Run(t, facts).status);
  }

  /** Nobody works, and at advance `k` no more than `n - k` checks still run: at least one ends between any two. */
  ghost predicate ChecksRunOut(facts: seq<Facts>, n: nat) {
    forall k :: 0 <= k < |facts| ==>
      && !facts[k].agentActive
      && (facts[k].running.Counted? && facts[k].running.count > 0 ==> facts[k].running.count + k <= n)
  }

  lemma {:induction false} HeldOnlyByChecks(t: Task, facts: seq<Facts>, n: nat)
    requires ChecksRunOut(facts, n)
    ensures HeldCount(t, facts) <= if |facts| < n then |facts| else n
  {
    if facts != [] {
      var front := facts[..|facts| - 1];
      assert forall k :: 0 <= k < |front| ==> front[k] == facts[k];
      HeldOnlyByChecks(t, front, n);
    }
  }

  /** With an idle agent, checks that end one after the other delay a task's end by no more advances than there were. */
  lemma ChecksOnlyDelay(t: Task, facts: seq<Facts>, n: nat)
    requires ChecksRunOut(facts, n) && |facts| >= LAST_RANK + n
    ensures IsTerminal(Run(t, facts).status)
  {
    HeldOnlyByChecks(t, facts, n);
    FourFreeAdvancesEndATask(t, facts);
  }

  /** Four are needed: a task that runs checks and opens a pull request is not done after three. */
  lemma ThreeAreNotEnough(f: Facts)
    requires !f.agentActive && f.checks != [] && f.running == Counted(0) && f.summarySaved && f.prOpened
    ensures var t := Task(Some("berlin"), Pending, true, true, WaitingForAgent, None);
            Run(t, [f, f, f]).status == OpeningPr && Run(t, [f, f, f, f]).status == Ready
  {
    var t := Task(Some("berlin"), Pending, true, true, WaitingForAgent, None);
    var one, two, three, four := [f], [f, f], [f, f, f], [f, f, f, f];
    assert one[..0] == [] && two[..1] == one && three[..2] == two && four[..3] == three;
    assert Run(t, one) == t.(status := Checking);
    assert Run(t, two) == t.(status := Summarizing);
    assert Run(t, three) == t.(status := OpeningPr);
  }

  // ---------------------------------------------------------------- the world a step reads

  /**
   * Agents, checks and remotes, workspace by workspace: where input is queued or an agent
   * works, which checks are configured, which of them start and how many run, and what a
   * summary, a push and a pull request will come to. A missing entry is an error answer.
   */
  datatype Outside = Outside(
    queued: set<string>,
    busy: set<string>,
    checks: map<string, seq<string>>,
    startable: set<string>,
    running: map<string, nat>,
    summaries: set<string>,
    pushes: set<string>,
    pullRequests: map<string, string>)

  /** Whether the agent of a task has something left to do. */
  predicate IsWorking(o: Outside, workspace: Option<string>) {
    workspace.Some? && (workspace.value in o.queued || workspace.value in o.busy)
  }

  function ChecksOf(o: Outside, workspace: string): seq<string> {
    if workspace in o.checks then o.checks[workspace] else []
  }

  function FactsOf(o: Outside, workspace: Option<string>, active: bool): Facts {
    if workspace.None? then Facts(active, [], NotListed, false, false)
    else
      var w := workspace.value;
      Facts(active, ChecksOf(o, w), if w in o.running then Counted(o.running[w]) else NotListed, w in o.summaries,
            w in o.pushes && w in o.pullRequests)
  }

  /** What the row says was started: each check by its key, with a word on those that did not start. */
  function Started(o: Outside, keys: seq<string>): seq<string> {
    if keys == [] then []
    else
      var key := keys[|keys| - 1];
      Started(o, keys[..|keys| - 1]) + [if key in o.startable then key else key + " (failed to start)"]
  }

  function OneMoreRunning(o: Outside, workspace: string): Outside {
    if workspace in o.running then o.(running := o.running[workspace := o.running[workspace] + 1]) else o
  }

  /** Each check that starts is one more that runs. */
  function AfterStarting(o: Outside, workspace: string, keys: seq<string>): (o': Outside)
    ensures o' == o.(running := o'.running) && o'.running.Keys == o.running.Keys
    ensures forall w :: w in o.running ==>
              o'.running[w] >= o.running[w] && (w != workspace ==> o'.running[w] == o.running[w])
  {
    if keys == [] then o
    else
      var before := AfterStarting(o, workspace, keys[..|keys| - 1]);
      if keys[|keys| - 1] in o.startable then OneMoreRunning(before, workspace) else before
  }

  function DetailAfter(t: Task, o: Outside, workspace: string): Detail {
    var checks := ChecksOf(o, workspace);
    match t.status
    case Checking =>
      if workspace in o.running && o.running[workspace] > 0 then WaitingOnChecks(o.running[workspace])
      else ChecksFinished
    case Summarizing => if t.openPr then PreparingPr else ReadyWithoutPr
    case OpeningPr => if workspace in o.pullRequests then PrReady(o.pullRequests[workspace]) else t.detail
    case _ =>
      if !t.runChecks then ChecksSkipped
      else if checks == [] then NoChecks
      else RunningChecks(Started(o, checks))
  }

  const NO_WORKSPACE := "background task has no workspace"
  const STEP_FAILED := "step failed"

  /** The row one advance leaves, when nothing else happens. */
  function Advanced(t: Task, o: Outside, active: bool): Task {
    var status := StatusAfter(t, FactsOf(o, t.workspace, active));
    if IsTerminal(t.status) || IsHeldByAgent(t, active) then t
    else if status.Failed? then
      t.(status := Failed, error := Some(if t.workspace.None? then NO_WORKSPACE else STEP_FAILED))
    else if t.workspace.None? then t
    else t.(status := status, detail := DetailAfter(t, o, t.workspace.value))
  }

  predicate IsHeldByAgent(t: Task, active: bool) {
    t.workspace.Some? && active && (t.status.Pending? || t.status.Running?)
  }

  /** The checks one advance leaves running. */
  function OutsideAfter(t: Task, o: Outside, active: bool): (o': Outside)
    ensures o' == o.(running := o'.running) && o'.running.Keys == o.running.Keys
    ensures forall w :: w in o.running && Some(w) != t.workspace ==> o'.running[w] == o.running[w]
  {
    if t.workspace.Some? && (t.status.Pending? || t.status.Running?) && !active && t.runChecks then
      AfterStarting(o, t.workspace.value, ChecksOf(o, t.workspace.value))
    else o
  }

  /** An advance takes a task to the status its facts call for, and touches nothing its next step depends on. */
  lemma AdvancedIs(t: Task, o: Outside, active: bool)
    ensures var t' := Advanced(t, o, active);
            && t'.status == StatusAfter(t, FactsOf(o, t.workspace, active))
            && t'.workspace == t.workspace && t'.runChecks == t.runChecks && t'.openPr == t.openPr
  {
  }

  // ---------------------------------------------------------------- a whole pass

  datatype Snapshot = Snapshot(rows: map<TaskId, Task>, outside: Outside)

  function AdvancedIn(s: Snapshot, id: TaskId): Snapshot {
    if id !in s.rows then s
    else
      var t, active := s.rows[id], IsWorking(s.outside, s.rows[id].workspace);
      Snapshot(s.rows[id := Advanced(t, s.outside, active)], OutsideAfter(t, s.outside, active))
  }

  /** Every task listed is advanced once, in that order, as the agents and checks then are. */
  function Ticked(s: Snapshot, listed: seq<TaskId>): Snapshot {
    if listed == [] then s else AdvancedIn(Ticked(s, listed[..|listed| - 1]), listed[|listed| - 1])
  }

  predicate Alone(rows: map<TaskId, Task>, id: TaskId) {
    id in rows && forall other :: other in rows && other != id ==>
                    rows[other].workspace != rows[id].workspace || rows[id].workspace.None?
  }

  /** What a pass never changes: where agents work, what is configured, and to which workspace a task belongs. */
  ghost predicate Alike(s: Snapshot, s': Snapshot) {
    && s'.rows.Keys == s.rows.Keys
    && s'.outside == s.outside.(running := s'.outside.running) && s'.outside.running.Keys == s.outside.running.Keys
    && forall id :: id in s.rows ==> s'.rows[id].workspace == s.rows[id].workspace
  }

  lemma AdvancedInIsAlike(s: Snapshot, id: TaskId)
    ensures Alike(s, AdvancedIn(s, id))
  {
    hide Advanced;
    if id in s.rows {
      AdvancedIs(s.rows[id], s.outside, IsWorking(s.outside, s.rows[id].workspace));
    }
  }

  lemma {:induction false} TickedIsAlike(s: Snapshot, listed: seq<TaskId>)
    ensures Alike(s, Ticked(s, listed))
  {
    hide AdvancedIn;
    if listed != [] {
      var front := listed[..|listed| - 1];
      TickedIsAlike(s, front);
      AdvancedInIsAlike(Ticked(s, front), listed[|listed| - 1]);
    }
  }

  /** A pass leaves a pending or running task as it is while input waits for its agent or the agent works. */
  lemma {:induction false} WorkingTaskIsHeld(s: Snapshot, listed: seq<TaskId>, id: TaskId)
    requires id in s.rows && (s.rows[id].status.Pending? || s.rows[id].status.Running?)
    requires IsWorking(s.outside, s.rows[id].workspace)
    ensures Alike(s, Ticked(s, listed)) && Ticked(s, listed).rows[id] == s.rows[id]
  {
    if listed != [] {
      WorkingTaskIsHeld(s, listed[..|listed| - 1], id);
      AdvancedInIsAlike(Ticked(s, listed[..|listed| - 1]), listed[|listed| - 1]);
    }
  }

  /** What is so of a task until its turn in the pass: its row and its own checks are untouched. */
  lemma {:induction false} UntouchedBefore(s: Snapshot, listed: seq<TaskId>, id: TaskId)
    requires Alone(s.rows, id) && id !in listed
    ensures Alike(s, Ticked(s, listed)) && Ticked(s, listed).rows[id] == s.rows[id]
    ensures s.rows[id].workspace.Some? && s.rows[id].workspace.value in s.outside.running ==>
              Ticked(s, listed).outside.running[s.rows[id].workspace.value]
              == s.outside.running[s.rows[id].workspace.value]
  {
    hide Advanced, OutsideAfter, IsWorking;
    if listed != [] {
      var front, last := listed[..|listed| - 1], listed[|listed| - 1];
      assert last in listed && id !in front;
      UntouchedBefore(s, front, id);
      AdvancedInIsAlike(Ticked(s, front), last);
    }
  }

  lemma AdvancedLooksAt(t: Task, o: Outside, o': Outside, active: bool)
    requires o' == o.(running := o'.running) && o'.running.Keys == o.running.Keys
    requires t.workspace.Some? && t.workspace.value in o.running ==>
               o'.running[t.workspace.value] == o.running[t.workspace.value]
    ensures Advanced(t, o', active) == Advanced(t, o, active)
  {
    if t.workspace.Some? {
      StartedLooksAt(o, o', ChecksOf(o, t.workspace.value));
    }
  }

  lemma {:induction false} StartedLooksAt(o: Outside, o': Outside, keys: seq<string>)
    requires o'.startable == o.startable
    ensures Started(o', keys) == Started(o, keys)
  {
    if keys != [] {
      StartedLooksAt(o, o', keys[..|keys| - 1]);
    }
  }

  predicate Distinct(listed: seq<TaskId>) {
    forall i, j :: 0 <= i < j < |listed| ==> listed[i] != listed[j]
  }

  /** A pass advances a task with a workspace of its own exactly once, whatever the others do. */
  lemma {:induction false} TickAdvancesOnce(s: Snapshot, listed: seq<TaskId>, id: TaskId)
    requires Alone(s.rows, id) && Distinct(listed) && (id in listed || IsTerminal(s.rows[id].status))
    ensures Alike(s, Ticked(s, listed))
    ensures Ticked(s, listed).rows[id] == Advanced(s.rows[id], s.outside, IsWorking(s.outside, s.rows[id].workspace))
  {
    hide Advanced, OutsideAfter;
    TickedIsAlike(s, listed);
    if id !in listed {
      UntouchedBefore(s, listed, id);
      TerminalStays(s.rows[id], s.outside, IsWorking(s.outside, s.rows[id].workspace));
    } else {
      var front, last := listed[..|listed| - 1], listed[|listed| - 1];
      TickedIsAlike(s, front);
      if last == id {
        assert forall i :: 0 <= i < |front| ==> front[i] == listed[i] != last;
        UntouchedBefore(s, front, id);
        AdvancedLooksAt(s.rows[id], s.outside, Ticked(s, front).outside, IsWorking(s.outside, s.rows[id].workspace));
      } else {
        TickAdvancesOnce(s, front, id);
      }
    }
  }

  lemma TerminalStays(t: Task, o: Outside, active: bool)
    requires IsTerminal(t.status)
    ensures Advanced(t, o, active) == t
  {
  }

  /** What a task finds in each of a number of passes. */
  function FactsThrough(outsides: seq<Outside>, workspace: Option<string>): (facts: seq<Facts>)
    ensures |facts| == |outsides|
    ensures forall k :: 0 <= k < |outsides| ==>
              facts[k] == FactsOf(outsides[k], workspace, IsWorking(outsides[k], workspace))
  {
    seq(|outsides|, k requires 0 <= k < |outsides| =>
      FactsOf(outsides[k], workspace, IsWorking(outsides[k], workspace)))
  }

  /** The two rows go on alike. */
  predicate AsFarAs(t: Task, t': Task) {
    t'.status == t.status && t'.workspace == t.workspace && t'.runChecks == t.runChecks && t'.openPr == t.openPr
  }

  lemma OneMorePass(t: Task, t': Task, outsides: seq<Outside>)
    requires outsides != []
    requires var front := outsides[..|outsides| - 1]; AsFarAs(Run(t, FactsThrough(front, t.workspace)), t')
    ensures var o := outsides[|outsides| - 1];
            AsFarAs(Run(t, FactsThrough(outsides, t.workspace)), Advanced(t', o, IsWorking(o, t.workspace)))
  {
    hide Advanced, StatusAfter, IsWorking, FactsOf, Run;
    var o, facts := outsides[|outsides| - 1], FactsThrough(outsides, t.workspace);
    FactsOfFront(outsides, t.workspace);
    RunKeepsWorkspace(t, facts);
    AdvancedIs(t', o, IsWorking(o, t.workspace));
    StatusLooksAt(Run(t, facts[..|facts| - 1]), t', facts[|facts| - 1]);
  }

  lemma RunKeepsWorkspace(t: Task, facts: seq<Facts>)
    requires facts != []
    ensures var before := Run(t, facts[..|facts| - 1]);
            && before.workspace == t.workspace
            && Run(t, facts) == before.(status := StatusAfter(before, facts[|facts| - 1]))
  {
    RankCountsAdvances(t, facts[..|facts| - 1]);
  }

  lemma FactsOfFront(outsides: seq<Outside>, workspace: Option<string>)
    requires outsides != []
    ensures FactsThrough(outsides, workspace)[..|outsides| - 1] == FactsThrough(outsides[..|outsides| - 1], workspace)
  {
    hide FactsOf, IsWorking;
  }

  lemma StatusLooksAt(t: Task, t': Task, f: Facts)
    requires AsFarAs(t, t')
    ensures StatusAfter(t', f) == StatusAfter(t, f)
  {
  }

  // ---------------------------------------------------------------- the record

  datatype Event =
    | Created(id: TaskId, openPr: bool)
    | Wrote(id: TaskId, from: Status, to: Status, claimed: bool)
    | SummarySaved(id: TaskId)
    | PrAsked(id: TaskId)

  /** `broken` are the tasks over by a write that held no claim, which may have landed inside a step. */
  datatype View = View(
    wantsPr: set<TaskId>, known: set<TaskId>, summarised: set<TaskId>, asked: set<TaskId>, over: set<TaskId>,
    broken: set<TaskId>)

  const NOTHING := View({}, {}, {}, {}, {}, {})

  ghost function NextView(v: View, e: Event): View {
    match e
    case Created(id, openPr) => v.(known := v.known + {id}, wantsPr := if openPr then v.wantsPr + {id} else v.wantsPr)
    case Wrote(id, _, to, claimed) =>
      if !IsTerminal(to) then v
      else v.(over := v.over + {id}, broken := if claimed then v.broken else v.broken + {id})
    case SummarySaved(id) => v.(summarised := v.summarised + {id})
    case PrAsked(id) => v.(asked := v.asked + {id})
  }

  ghost function ViewOf(log: seq<Event>): View {
    if log == [] then NOTHING else NextView(ViewOf(log[..|log| - 1]), log[|log| - 1])
  }

  /** A step under way goes on unless its task is over, and does not notice a write made without the claim. */
  ghost predicate MayAct(v: View, id: TaskId) {
    id in v.over ==> id in v.broken
  }

  ghost predicate StepOk(v: View, e: Event) {
    match e
    case Created(id, _) => id !in v.known
    case Wrote(id, from, to, claimed) =>
      && id in v.known && id !in v.over && !IsTerminal(from) && (!claimed ==> to.Running? || to.Failed?)
      && (to.Ready? ==> id in v.summarised && (id in v.wantsPr ==> id in v.asked))
    case SummarySaved(id) => id in v.known && MayAct(v, id)
    case PrAsked(id) => id in v.wantsPr && id in v.summarised && id !in v.asked && MayAct(v, id)
  }

  ghost predicate Safe(log: seq<Event>) {
    log == [] || (Safe(log[..|log| - 1]) && StepOk(ViewOf(log[..|log| - 1]), log[|log| - 1]))
  }

  lemma Appended(log: seq<Event>, e: Event)
    ensures ViewOf(log + [e]) == NextView(ViewOf(log), e)
    ensures Safe(log + [e]) <==> Safe(log) && StepOk(ViewOf(log), e)
  {
    assert (log + [e])[..|log|] == log;
  }

  // ---------------------------------------------------------------- the store

  /** The guard every status write carries in its own statement. */
  function GuardedStatus(t: Task, status: Status, detail: Detail): Task {
    if IsTerminal(t.status) then t else t.(status := status, detail := detail)
  }

  function GuardedFailure(t: Task, error: string): Task {
    if IsTerminal(t.status) then t else t.(status := Failed, error := Some(error))
  }

  /** A row and the record agree; a task a pull request was asked for is over, or in the hands of the claim. */
  ghost predicate RowAgrees(id: TaskId, t: Task, v: View, claim: Option<TaskId>) {
    && (t.openPr <==> id in v.wantsPr)
    && (id in v.over <==> IsTerminal(t.status))
    && (id in v.broken ==> t.status.Failed?)
    && (t.status.OpeningPr? ==> t.openPr && id in v.summarised)
    && (id in v.asked ==> IsTerminal(t.status) || claim == Some(id))
  }

  ghost predicate Agrees(rows: map<TaskId, Task>, v: View, claim: Option<TaskId>) {
    && v.known == rows.Keys
    && v.asked <= v.known && v.wantsPr <= v.known && v.over <= v.known && v.broken <= v.known
    && forall id :: id in rows ==> RowAgrees(id, rows[id], v, claim)
  }

  /** An event concerns one row: writing that row so that it agrees keeps the store agreeing. */
  lemma OneRowAtATime(rows: map<TaskId, Task>, v: View, claim: Option<TaskId>, t: Task, e: Event)
    requires Agrees(rows, v, claim)
    requires e.id in rows || e.Created?
    requires RowAgrees(e.id, t, NextView(v, e), claim)
    ensures Agrees(rows[e.id := t], NextView(v, e), claim)
  {
    var rows', v' := rows[e.id := t], NextView(v, e);
    forall id | id in rows' ensures RowAgrees(id, rows'[id], v', claim) {
      if id != e.id {
        assert RowAgrees(id, rows[id], v, claim);
      }
    }
  }

  class Store {
    var rows: map<TaskId, Task>
    var nextRow: int

    /** The task whose transition holds the claim. */
    var claim: Option<TaskId>

    /** Agents, checks and remotes. */
    var outside: Outside

    ghost var log: seq<Event>
    ghost var view: View

    constructor (outside: Outside)
      ensures Valid() && claim == None && rows == map[] && log == [] && this.outside == outside
    {
      rows, nextRow, claim := map[], 0, None;
      this.outside := outside;
      log, view := [], NOTHING;
    }

    ghost predicate Valid()
      reads this
    {
      Recorded(log, view) && Agrees(rows, view, claim) && forall id :: id in rows ==> id.row < nextRow
    }

    /** Writes an event down and the row it is about. */
    method Put(ghost e: Event, id: TaskId, t: Task)
      requires Valid() && e.id == id && StepOk(view, e)
      requires id in rows || (e.Created? && id.row < nextRow)
      requires RowAgrees(id, t, NextView(view, e), claim)
      modifies this`rows, this`log, this`view
      ensures Valid() && rows == old(rows)[id := t] && log == old(log) + [e] && view == NextView(old(view), e)
    {
      OneRowAtATime(rows, view, claim, t, e);
      Appended(log, e);
      log, view := log + [e], NextView(view, e);
      rows := rows[id := t];
    }

    /** One guarded statement: a terminal row is not touched. */
    method SetStatus(id: TaskId, status: Status, detail: Detail, ghost claimed: bool := true)
      requires Valid() && id in rows && (!claimed ==> status.Running?)
      requires !IsTerminal(rows[id].status) && status.OpeningPr? ==> rows[id].openPr && id in view.summarised
      requires !IsTerminal(rows[id].status) && status.Ready? ==>
                 id in view.summarised && (rows[id].openPr ==> id in view.asked)
      modifies this`rows, this`log, this`view
      ensures Valid() && rows == old(rows)[id := GuardedStatus(old(rows[id]), status, detail)]
      ensures old(log) <= log && OnlyEnded(old(view), view, id, claimed, rows[id])
    {
      var t := rows[id];
      assert RowAgrees(id, t, view, claim);
      if IsTerminal(t.status) {
        rows := rows[id := t];
      } else {
        Put(Wrote(id, t.status, status, claimed), id, t.(status := status, detail := detail));
      }
    }

    method FailTask(id: TaskId, error: string, ghost claimed: bool := true)
      requires Valid() && id in rows
      modifies this`rows, this`log, this`view
      ensures Valid() && rows == old(rows)[id := GuardedFailure(old(rows[id]), error)]
      ensures old(log) <= log && OnlyEnded(old(view), view, id, claimed, rows[id])
    {
      var t := rows[id];
      assert RowAgrees(id, t, view, claim);
      if IsTerminal(t.status) {
        rows := rows[id := t];
      } else {
        Put(Wrote(id, t.status, Failed, claimed), id, t.(status := Failed, error := Some(error)));
      }
    }

    /** A new task; the daemon starts its agent afterwards. */
    method Create(workspace: Option<string>, runChecks: bool, openPr: bool) returns (id: TaskId)
      requires Valid()
      modifies this`rows, this`log, this`view, this`nextRow
      ensures Valid() && id !in old(rows) && old(log) <= log
      ensures rows == old(rows)[id := Task(workspace, Pending, runChecks, openPr, WaitingForAgent, None)]
      ensures view.summarised == old(view.summarised) && view.asked == old(view.asked)
      ensures view.broken == old(view.broken)
      ensures view.over == old(view.over) && OnlyUnclaimed(old(rows), rows, old(view), view)
    {
      id := TaskId(nextRow);
      nextRow := nextRow + 1;
      Put(Created(id, openPr), id, Task(workspace, Pending, runChecks, openPr, WaitingForAgent, None));
    }

    /** The daemon's own two writers: neither waits for the claim. */
    method MarkRunning(id: TaskId)
      requires Valid() && id in rows
      modifies this`rows, this`log, this`view
      ensures Valid() && rows == old(rows)[id := GuardedStatus(old(rows[id]), Running, AgentRunning)]
      ensures old(log) <= log && OnlyEnded(old(view), view, id, false, rows[id])
      ensures OnlyUnclaimed(old(rows), rows, old(view), view)
    {
      assert RowAgrees(id, rows[id], view, claim);
      SetStatus(id, Running, AgentRunning, false);
    }

    method MarkFailed(id: TaskId, error: string)
      requires Valid() && id in rows
      modifies this`rows, this`log, this`view
      ensures Valid() && rows == old(rows)[id := GuardedFailure(old(rows[id]), error)]
      ensures old(log) <= log && OnlyEnded(old(view), view, id, false, rows[id])
      ensures OnlyUnclaimed(old(rows), rows, old(view), view)
    {
      assert RowAgrees(id, rows[id], view, claim);
      FailTask(id, error, false);
    }

    method SaveSummary(id: TaskId)
      requires Valid() && id in rows && MayAct(view, id)
      modifies this`rows, this`log, this`view
      ensures Valid() && rows == old(rows) && log == old(log) + [SummarySaved(id)]
      ensures view == old(view).(summarised := old(view).summarised + {id})
    {
      assert RowAgrees(id, rows[id], view, claim);
      Put(SummarySaved(id), id, rows[id]);
    }

    method AskForPullRequest(id: TaskId)
      requires Valid() && id in rows && claim == Some(id)
      requires rows[id].openPr && id in view.summarised && id !in view.asked && MayAct(view, id)
      modifies this`rows, this`log, this`view
      ensures Valid() && rows == old(rows) && log == old(log) + [PrAsked(id)]
      ensures view == old(view).(asked := old(view).asked + {id})
    {
      assert RowAgrees(id, rows[id], view, claim);
      Put(PrAsked(id), id, rows[id]);
    }

    /** Unless the step is left alone, any number of unclaimed writes land, and agents and checks go on. */
    method Interfere(alone: bool)
      requires Valid()
      modifies this`rows, this`log, this`view, this`nextRow, this`outside
      ensures Valid() && old(log) <= log && OnlyUnclaimed(old(rows), rows, old(view), view)
      ensures alone ==> rows == old(rows) && outside == old(outside)
    {
      if alone {
        return;
      }
      hide OnlyUnclaimed, Recorded, Agrees;
      outside := *;
      UnclaimedSoFar(rows, view);
      var steps: nat := *;
      while steps > 0
        invariant Valid() && old(log) <= log && OnlyUnclaimed(old(rows), rows, old(view), view)
      {
        ghost var rowsBefore, viewBefore := rows, view;
        UnclaimedSoFar(rows, view);
        var kind: nat, id: TaskId, error: string := *, *, *;
        if kind == 0 {
          var workspace: Option<string>, runChecks: bool, openPr: bool := *, *, *;
          id := Create(workspace, runChecks, openPr);
        } else if id in rows && kind == 1 {
          MarkRunning(id);
        } else if id in rows {
          MarkFailed(id, error);
        }
        UnclaimedAddsUp(old(rows), rowsBefore, rows, old(view), viewBefore, view);
        steps := steps - 1;
      }
    }

    // -------------------------------------------------------------- the four steps, under the claim

    /** The claimed row still belongs to the step that read it. */
    ghost predicate InStep(id: TaskId, task: Task)
      reads this
    {
      && Valid() && claim == Some(id) && id in rows
      && rows[id].workspace == task.workspace && rows[id].openPr == task.openPr && rows[id].runChecks == task.runChecks
    }

    /** What the step comes to if it is left alone: its row, and the checks it started. */
    ghost predicate HasStepped(id: TaskId, task: Task, before: map<TaskId, Task>, was: Outside, ok: bool)
      reads this
    {
      && outside == OutsideAfter(task, was, false)
      && if ok then rows == before[id := Advanced(task, was, false)] && !Advanced(task, was, false).status.Failed?
         else rows == before && StatusAfter(task, FactsOf(was, task.workspace, false)).Failed?
    }

    lemma NothingStarted(o: Outside, workspace: string)
      ensures Started(o, []) == [] && AfterStarting(o, workspace, []) == o
    {
    }

    lemma OneMoreStarted(o: Outside, workspace: string, checks: seq<string>, i: nat)
      requires i < |checks|
      ensures var before, key := AfterStarting(o, workspace, checks[..i]), checks[i];
              && before.startable == o.startable
              && Started(o, checks[..i + 1])
                 == Started(o, checks[..i]) + [if key in o.startable then key else key + " (failed to start)"]
              && AfterStarting(o, workspace, checks[..i + 1])
                 == if key in o.startable then OneMoreRunning(before, workspace) else before
    {
      assert checks[..i + 1][..i] == checks[..i];
    }

    lemma BeginningIs(task: Task, o: Outside, workspace: string)
      requires (task.status.Pending? || task.status.Running?) && task.workspace == Some(workspace)
      ensures var checks := ChecksOf(o, workspace);
              && Advanced(task, o, false)
                 == (if !task.runChecks then task.(status := Summarizing, detail := ChecksSkipped)
                     else if checks == [] then task.(status := Summarizing, detail := NoChecks)
                     else task.(status := Checking, detail := RunningChecks(Started(o, checks))))
              && OutsideAfter(task, o, false) == if task.runChecks then AfterStarting(o, workspace, checks) else o
    {
    }

    /** Starts each check; one that does not start is noted and sinks nothing. */
    method StartChecks(id: TaskId, task: Task, workspace: string, checks: seq<string>, alone: bool)
      returns (started: seq<string>)
      requires InStep(id, task) && id !in view.asked
      modifies this
      ensures InStep(id, task) && id !in view.asked && old(log) <= log && old(rows).Keys <= rows.Keys
      ensures alone ==> rows == old(rows) && started == Started(old(outside), checks)
                        && outside == AfterStarting(old(outside), workspace, checks)
    {
      hide Recorded, Agrees, OneMoreRunning, AfterStarting, Started;
      NothingStarted(outside, workspace);
      started := [];
      assert checks[..0] == [];
      var i := 0;
      while i < |checks|
        invariant 0 <= i <= |checks|
        invariant InStep(id, task) && id !in view.asked && old(log) <= log && old(rows).Keys <= rows.Keys
        invariant alone ==> rows == old(rows) && started == Started(old(outside), checks[..i])
                            && outside == AfterStarting(old(outside), workspace, checks[..i])
      {
        Interfere(alone);
        OneMoreStarted(old(outside), workspace, checks, i);
        if checks[i] in outside.startable {
          started := started + [checks[i]];
          outside := OneMoreRunning(outside, workspace);
        } else {
          started := started + [checks[i] + " (failed to start)"];
        }
        i := i + 1;
      }
      assert checks[..i] == checks;
    }

    method BeginBackgroundChecks(id: TaskId, task: Task, workspace: string, alone: bool)
      requires InStep(id, task) && id !in view.asked && task.workspace == Some(workspace)
      requires task.status.Pending? || task.status.Running?
      modifies this
      ensures InStep(id, task) && id !in view.asked && old(log) <= log && old(rows).Keys <= rows.Keys
      ensures alone && old(rows[id]) == task ==> HasStepped(id, task, old(rows), old(outside), true)
    {
      hide Recorded, Agrees, Advanced, OutsideAfter, FactsOf, StatusAfter, ChecksOf, AfterStarting, Started;
      BeginningIs(task, outside, workspace);
      if !task.runChecks {
        Interfere(alone);
        SetStatus(id, Summarizing, ChecksSkipped);
        return;
      }
      Interfere(alone);
      var checks := ChecksOf(outside, workspace);
      NothingStarted(outside, workspace);
      if checks == [] {
        Interfere(alone);
        SetStatus(id, Summarizing, NoChecks);
        return;
      }
      var started := StartChecks(id, task, workspace, checks, alone);
      SetStatus(id, Checking, RunningChecks(started));
    }

    method FinishBackgroundChecks(id: TaskId, task: Task, workspace: string, alone: bool) returns (ok: bool)
      requires InStep(id, task) && id !in view.asked && task.workspace == Some(workspace) && task.status.Checking?
      modifies this
      ensures InStep(id, task) && id !in view.asked && old(log) <= log && old(rows).Keys <= rows.Keys
      ensures alone && old(rows[id]) == task ==> HasStepped(id, task, old(rows), old(outside), ok)
    {
      hide Recorded, Agrees;
      Interfere(alone);
      ok := workspace in outside.running;
      if !ok {
        return;
      }
      var count := outside.running[workspace];
      Interfere(alone);
      if count > 0 {
        SetStatus(id, Checking, WaitingOnChecks(count));
      } else {
        SetStatus(id, Summarizing, ChecksFinished);
      }
    }

    /** Whatever else happens, the summary is saved before the step succeeds. */
    method WriteBackgroundSummary(id: TaskId, task: Task, workspace: string, alone: bool) returns (ok: bool)
      requires InStep(id, task) && id !in view.asked && task.workspace == Some(workspace) && task.status.Summarizing?
      requires MayAct(view, id)
      modifies this
      ensures InStep(id, task) && id !in view.asked && old(log) <= log && old(rows).Keys <= rows.Keys
      ensures ok ==> id in view.summarised && SummarySaved(id) in log[|old(log)|..]
      ensures alone && old(rows[id]) == task ==> HasStepped(id, task, old(rows), old(outside), ok)
    {
      hide Recorded, Agrees;
      Interfere(alone);
      ok := workspace in outside.summaries;
      if !ok {
        return;
      }
      SaveSummary(id);
      ghost var saved := log;
      Interfere(alone);
      if task.openPr {
        SetStatus(id, OpeningPr, PreparingPr);
      } else {
        SetStatus(id, Ready, ReadyWithoutPr);
      }
      assert log[|old(log)|..][|saved| - 1 - |old(log)|] == saved[|saved| - 1];
    }

    method OpenBackgroundPullRequest(id: TaskId, task: Task, workspace: string, alone: bool) returns (ok: bool)
      requires InStep(id, task) && id !in view.asked && task.workspace == Some(workspace) && task.status.OpeningPr?
      requires id in view.summarised && task.openPr && MayAct(view, id)
      modifies this
      ensures InStep(id, task) && old(log) <= log && old(rows).Keys <= rows.Keys
      ensures ok ==> IsTerminal(rows[id].status) && id in view.asked
      ensures alone && old(rows[id]) == task ==> HasStepped(id, task, old(rows), old(outside), ok)
    {
      hide Recorded, Agrees;
      Interfere(alone);
      ok := workspace in outside.pushes;
      if !ok {
        return;
      }
      AskForPullRequest(id);
      ok := workspace in outside.pullRequests;
      if !ok {
        return;
      }
      var output := outside.pullRequests[workspace];
      Interfere(alone);
      SetStatus(id, Ready, PrReady(output));
    }

    method Acquire(id: TaskId)
      requires Valid() && claim == None
      modifies this`claim
      ensures Valid() && claim == Some(id)
      ensures id in rows && !IsTerminal(rows[id].status) ==> id !in view.asked
    {
      assert id in rows ==> RowAgrees(id, rows[id], view, claim);
      claim := Some(id);
    }

    method Release()
      requires Valid() && claim.Some?
      requires claim.value in rows && claim.value in view.asked ==> IsTerminal(rows[claim.value].status)
      modifies this`claim
      ensures Valid() && claim == None
    {
      ghost var was := claim;
      claim := None;
      assert forall id :: id in rows && RowAgrees(id, rows[id], view, was) ==> RowAgrees(id, rows[id], view, None);
    }

    /**
     * One transition under the claim. Left alone, it leaves the row and the checks that the
     * old row and the world as it was call for.
     */
    method AdvanceBackgroundTask(id: TaskId, agentActive: bool, alone: bool) returns (found: bool)
      requires Valid() && claim == None
      modifies this
      ensures Valid() && claim == None && old(log) <= log && old(rows).Keys <= rows.Keys
      ensures found <==> id in old(rows)
      ensures !found ==> rows == old(rows) && log == old(log)
      ensures found && alone ==>
                && rows == old(rows)[id := Advanced(old(rows[id]), old(outside), agentActive)]
                && outside == OutsideAfter(old(rows[id]), old(outside), agentActive)
      ensures found && (IsTerminal(old(rows[id]).status) || IsHeldByAgent(old(rows[id]), agentActive)) ==>
                rows == old(rows) && log == old(log)
    {
      hide Recorded, Agrees;
      found := id in rows;
      if !found {
        return;
      }
      Acquire(id);
      var task := rows[id];
      assert rows == rows[id := task];
      if IsTerminal(task.status) || IsHeldByAgent(task, agentActive) {
        Release();
        return;
      }
      if task.workspace.None? {
        Interfere(alone);
        FailTask(id, NO_WORKSPACE);
        Release();
        return;
      }
      var ok := RunStep(id, task, task.workspace.value, alone);
      if !ok {
        Interfere(alone);
        FailTask(id, STEP_FAILED);
      }
      AgentIdleAlike(task, old(outside), agentActive);
      Release();
    }

    /** The step the task's status calls for, once nothing holds it any more. */
    method RunStep(id: TaskId, task: Task, workspace: string, alone: bool) returns (ok: bool)
      requires InStep(id, task) && id !in view.asked && rows[id] == task
      requires !IsTerminal(task.status) && task.workspace == Some(workspace)
      modifies this
      ensures InStep(id, task) && old(log) <= log && old(rows).Keys <= rows.Keys
      ensures id in view.asked && ok ==> IsTerminal(rows[id].status)
      ensures alone ==> HasStepped(id, task, old(rows), old(outside), ok)
    {
      OpeningPrIsSummarised(id);
      hide Recorded, Agrees;
      ok := false;
      match task.status {
        case Pending => BeginBackgroundChecks(id, task, workspace, alone); ok := true;
        case Running => BeginBackgroundChecks(id, task, workspace, alone); ok := true;
        case Checking => ok := FinishBackgroundChecks(id, task, workspace, alone);
        case Summarizing => ok := WriteBackgroundSummary(id, task, workspace, alone);
        case OpeningPr => ok := OpenBackgroundPullRequest(id, task, workspace, alone);
        case _ =>
      }
    }

    lemma OpeningPrIsSummarised(id: TaskId)
      requires Valid() && id in rows
      ensures IsTerminal(rows[id].status) || MayAct(view, id)
      ensures rows[id].status.OpeningPr? ==> rows[id].openPr && id in view.summarised
    {
      assert RowAgrees(id, rows[id], view, claim);
    }

    /** Refused for a task that is over; otherwise it lands between two transitions. */
    method CancelBackgroundTask(id: TaskId, alone: bool) returns (cancelled: bool)
      requires Valid() && claim == None
      modifies this
      ensures Valid() && claim == None && old(log) <= log && old(rows).Keys <= rows.Keys
      ensures cancelled <==> id in old(rows) && !IsTerminal(old(rows[id]).status)
      ensures cancelled ==> IsTerminal(rows[id].status)
      ensures cancelled && alone ==>
                rows == old(rows)[id := old(rows[id]).(status := Cancelled, detail := CancelledByRequest)]
                && outside == old(outside)
      ensures !cancelled ==> rows == old(rows) && log == old(log)
    {
      cancelled := false;
      if id !in rows {
        return;
      }
      Acquire(id);
      if IsTerminal(rows[id].status) {
        Release();
        return;
      }
      Interfere(alone);
      SetStatus(id, Cancelled, CancelledByRequest);
      Release();
      cancelled := true;
    }

    /** Every other actor runs for a while: whole transitions, cancels and unclaimed writes, in any order. */
    method OthersRun(alone: bool)
      requires Valid() && claim == None
      modifies this
      ensures Valid() && claim == None && old(log) <= log && old(rows).Keys <= rows.Keys
      ensures alone ==> rows == old(rows) && outside == old(outside)
    {
      hide Recorded, Agrees;
      if alone {
        return;
      }
      var steps: nat := *;
      while steps > 0
        invariant Valid() && claim == None && old(log) <= log && old(rows).Keys <= rows.Keys
      {
        var kind: nat, id: TaskId, active: bool := *, *, *;
        if kind == 0 {
          var _ := AdvanceBackgroundTask(id, active, false);
        } else if kind == 1 {
          var _ := CancelBackgroundTask(id, false);
        } else {
          Interfere(false);
        }
        steps := steps - 1;
      }
    }

    /** Every task that is not over, each once. */
    method ListActive() returns (listed: seq<TaskId>)
      ensures Distinct(listed) && forall id :: id in listed <==> id in rows && !IsTerminal(rows[id].status)
    {
      listed := [];
      var rest := rows.Keys;
      while rest != {}
        invariant rest <= rows.Keys && Distinct(listed)
        invariant forall id :: id in listed <==> id in rows && id !in rest && !IsTerminal(rows[id].status)
      {
        var id :| id in rest;
        rest := rest - {id};
        if !IsTerminal(rows[id].status) {
          listed := listed + [id];
        }
      }
    }

    /**
     * One pass over every task that is not over, with everyone else running in between unless
     * the pass is left alone. Input that waits for an agent counts as the agent working.
     */
    method TickBackgroundTasks(alone: bool) returns (advanced: seq<TaskId>)
      requires Valid() && claim == None
      modifies this
      ensures Valid() && claim == None && old(log) <= log && old(rows).Keys <= rows.Keys
      ensures Distinct(advanced)
      ensures forall id :: id in advanced <==> id in old(rows) && !IsTerminal(old(rows[id]).status)
      ensures alone ==> Snapshot(rows, outside) == Ticked(Snapshot(old(rows), old(outside)), advanced)
    {
      hide Recorded, Agrees, Advanced, OutsideAfter;
      var listed := ListActive();
      advanced := [];
      var i := 0;
      while i < |listed|
        invariant 0 <= i <= |listed| && advanced == listed[..i]
        invariant Valid() && claim == None && old(log) <= log && old(rows).Keys <= rows.Keys
        invariant alone ==> Snapshot(rows, outside) == Ticked(Snapshot(old(rows), old(outside)), listed[..i])
      {
        assert listed[i] in listed && listed[..i + 1][..i] == listed[..i];
        OthersRun(alone);
        var agentActive := IsWorking(outside, rows[listed[i]].workspace);
        OthersRun(alone);
        var found := AdvanceBackgroundTask(listed[i], agentActive, alone);
        if found {
          advanced := advanced + [listed[i]];
        }
        i := i + 1;
      }
    }

    /**
     * The supervisor's passes, left alone, with agents and checks as they are at each: a task
     * with a workspace of its own is over after four passes in which nothing held it.
     */
    method Supervise(id: TaskId, outsides: seq<Outside>)
      requires Valid() && claim == None && Alone(rows, id)
      modifies this
      ensures Valid() && claim == None && id in rows
      ensures var facts := FactsThrough(outsides, old(rows[id]).workspace);
              && rows[id].status == Run(old(rows[id]), facts).status
              && (|outsides| >= LAST_RANK + HeldCount(old(rows[id]), facts) ==> IsTerminal(rows[id].status))
    {
      hide Recorded, Agrees, Advanced, FactsOf, IsWorking, HeldCount, Run, StatusAfter;
      ghost var t, rows0 := rows[id], rows;
      var i := 0;
      assert outsides[..0] == [];
      NothingRun(t);
      while i < |outsides|
        invariant 0 <= i <= |outsides| && Valid() && claim == None && Alone(rows, id)
        invariant AsFarAs(Run(t, FactsThrough(outsides[..i], t.workspace)), rows[id])
        invariant rows[id].workspace == t.workspace
      {
        outside := outsides[i];
        ghost var before := Snapshot(rows, outside);
        var advanced := TickBackgroundTasks(true);
        TickAdvancesOnce(before, advanced, id);
        assert outsides[..i + 1][..i] == outsides[..i];
        OneMorePass(t, before.rows[id], outsides[..i + 1]);
        i := i + 1;
      }
      assert outsides[..i] == outsides;
      ghost var facts := FactsThrough(outsides, t.workspace);
      if |outsides| >= LAST_RANK + HeldCount(t, facts) {
        FourFreeAdvancesEndATask(t, facts);
      }
    }
  }

  lemma NothingRun(t: Task)
    ensures FactsThrough([], t.workspace) == [] && Run(t, []) == t
  {
  }

  /** A step that is not held does what it would do with the agent idle. */
  lemma AgentIdleAlike(t: Task, o: Outside, active: bool)
    requires !IsHeldByAgent(t, active) && t.workspace.Some?
    ensures Advanced(t, o, active) == Advanced(t, o, false) && OutsideAfter(t, o, active) == OutsideAfter(t, o, false)
  {
  }

  // ---------------------------------------------------------------- what a safe record says

  lemma {:induction false} SafeUpTo(log: seq<Event>, i: nat)
    requires Safe(log) && i < |log|
    ensures Safe(log[..i]) && StepOk(ViewOf(log[..i]), log[i])
  {
    if i < |log| - 1 {
      SafeUpTo(log[..|log| - 1], i);
      assert log[..|log| - 1][..i] == log[..i];
    }
  }

  ghost predicate CreatedIn(log: seq<Event>, id: TaskId) {
    exists i :: 0 <= i < |log| && log[i].Created? && log[i].id == id
  }

  ghost predicate BrokenIn(log: seq<Event>, id: TaskId) {
    exists i :: 0 <= i < |log| && log[i].Wrote? && log[i].id == id && IsTerminal(log[i].to) && !log[i].claimed
  }

  ghost predicate Explains(v: View, log: seq<Event>) {
    && (forall id :: id in v.wantsPr ==> Created(id, true) in log)
    && (forall id :: id in v.summarised ==> SummarySaved(id) in log)
    && (forall id :: Created(id, true) in log ==> id in v.wantsPr)
    && (forall id :: id in v.asked ==> PrAsked(id) in log)
    && (forall i :: 0 <= i < |log| && log[i].PrAsked? ==> log[i].id in v.asked)
    && (forall i :: 0 <= i < |log| && log[i].Wrote? && IsTerminal(log[i].to) ==> log[i].id in v.over)
    && (forall id :: id in v.broken ==> BrokenIn(log, id))
    && (forall i :: 0 <= i < |log| && log[i].Created? ==> log[i].id in v.known)
    && (forall id :: id in v.known ==> CreatedIn(log, id))
  }

  lemma {:induction false} ViewExplained(log: seq<Event>)
    ensures Explains(ViewOf(log), log)
  {
    if log != [] {
      var front, last := log[..|log| - 1], log[|log| - 1];
      ViewExplained(front);
      assert log == front + [last];
    }
  }

  /** Once a task has ended, its status is never written again. */
  lemma TerminalIsAbsorbing(log: seq<Event>, i: nat, j: nat)
    requires Safe(log) && i < j < |log|
    requires log[i].Wrote? && IsTerminal(log[i].to)
    ensures !(log[j].Wrote? && log[j].id == log[i].id)
  {
    SafeUpTo(log, j);
    ViewExplained(log[..j]);
    assert log[..j][i] == log[i];
  }

  /** A task once recorded is known from then on, and so is not created again. */
  lemma KnownStays(log: seq<Event>, i: nat, j: nat)
    requires Safe(log) && i < j < |log|
    ensures log[i].id in ViewOf(log[..j]).known
  {
    hide Safe, ViewOf;
    SafeUpTo(log, i);
    ViewExplained(log[..i]);
    ViewExplained(log[..j]);
    assert log[..j][i] == log[i];
    if !log[i].Created? {
      assert log[i].id in ViewOf(log[..i]).known by {
        ViewIsKnown(log[..i]);
      }
      var k :| 0 <= k < i && log[..i][k].Created? && log[..i][k].id == log[i].id;
      assert log[..j][k] == log[..i][k];
    }
  }

  lemma {:induction false} ViewIsKnown(log: seq<Event>)
    ensures ViewOf(log).wantsPr <= ViewOf(log).known
  {
    if log != [] {
      ViewIsKnown(log[..|log| - 1]);
    }
  }

  /**
   * What can still happen to a task that is over: a step that was under way saves its summary
   * or asks for its pull request, and then it was failed by a writer without the claim.
   */
  lemma OnlyAStepUnderWayGoesOn(log: seq<Event>, i: nat, j: nat)
    requires Safe(log) && i < j < |log| && log[j].id == log[i].id
    requires log[i].Wrote? && IsTerminal(log[i].to)
    ensures log[i].to.Failed? && !log[i].claimed && (log[j].SummarySaved? || log[j].PrAsked?)
  {
    hide Safe, ViewOf;
    SafeUpTo(log, i);
    SafeUpTo(log, j);
    KnownStays(log, i, j);
    ViewExplained(log[..j]);
    assert log[..j][i] == log[i];
    var k :| 0 <= k < j && log[..j][k].Wrote? && log[..j][k].id == log[i].id && IsTerminal(log[..j][k].to)
             && !log[..j][k].claimed;
    assert log[..j][k] == log[k];
    if k < i {
      TerminalIsAbsorbing(log, k, i);
    } else if i < k {
      TerminalIsAbsorbing(log, i, k);
    }
  }

  /** A cancel lands between steps: no event of the task follows it. */
  lemma NothingAfterCancel(log: seq<Event>, i: nat, j: nat)
    requires Safe(log) && i < j < |log| && log[i].Wrote? && log[i].to.Cancelled?
    ensures log[j].id != log[i].id
  {
    hide Safe;
    if log[j].id == log[i].id {
      OnlyAStepUnderWayGoesOn(log, i, j);
    }
  }

  /** A task failed while its pull request was being prepared, which is asked for all the same. */
  function FailedInsideTheStep(id: TaskId): seq<Event> {
    [Created(id, true), Wrote(id, Pending, Summarizing, true), SummarySaved(id),
     Wrote(id, Summarizing, OpeningPr, true),
     Wrote(id, OpeningPr, Failed, false), PrAsked(id)]
  }

  lemma FailedTaskMayAskForItsPullRequest(id: TaskId)
    ensures Safe(FailedInsideTheStep(id))
  {
    hide Safe, ViewOf;
    var a, b, c := Created(id, true), Wrote(id, Pending, Summarizing, true), SummarySaved(id);
    var d, e, f := Wrote(id, Summarizing, OpeningPr, true), Wrote(id, OpeningPr, Failed, false), PrAsked(id);
    NothingWritten();
    Appended([], a);
    Appended([] + [a], b);
    Appended([] + [a] + [b], c);
    Appended([] + [a] + [b] + [c], d);
    Appended([] + [a] + [b] + [c] + [d], e);
    Appended([] + [a] + [b] + [c] + [d] + [e], f);
    assert FailedInsideTheStep(id) == [] + [a] + [b] + [c] + [d] + [e] + [f];
  }

  lemma NothingWritten()
    ensures Safe([]) && ViewOf([]) == NOTHING
  {
  }

  /** At most one pull request is asked for per task. */
  lemma OnePullRequestPerTask(log: seq<Event>, i: nat, j: nat)
    requires Safe(log) && i < j < |log| && log[i].PrAsked?
    ensures !(log[j].PrAsked? && log[j].id == log[i].id)
  {
    SafeUpTo(log, j);
    ViewExplained(log[..j]);
    assert log[..j][i] == log[i];
  }

  /** And only for a task that was created asking for one, after its summary was saved. */
  lemma PullRequestWasWantedAndSummarised(log: seq<Event>, i: nat)
    requires Safe(log) && i < |log| && log[i].PrAsked?
    ensures Created(log[i].id, true) in log[..i] && SummarySaved(log[i].id) in log[..i]
  {
    SafeUpTo(log, i);
    ViewExplained(log[..i]);
  }

  /** A task is ready only after its summary was saved, and its pull request asked for if it wanted one. */
  lemma ReadyMeansReviewable(log: seq<Event>, i: nat)
    requires Safe(log) && i < |log| && log[i].Wrote? && log[i].to.Ready?
    ensures SummarySaved(log[i].id) in log[..i]
    ensures Created(log[i].id, true) in log[..i] ==> PrAsked(log[i].id) in log[..i]
  {
    SafeUpTo(log, i);
    ViewExplained(log[..i]);
  }

  ghost predicate Recorded(log: seq<Event>, view: View) {
    Safe(log) && view == ViewOf(log)
  }

  /** One guarded write changes nothing of the summary but that its task is over, and by whom. */
  ghost predicate OnlyEnded(v: View, v': View, id: TaskId, claimed: bool, t: Task) {
    && v' == v.(over := v'.over, broken := v'.broken)
    && v'.over == (if IsTerminal(t.status) then v.over + {id} else v.over)
    && v'.broken == (if IsTerminal(t.status) && id !in v.over && !claimed then v.broken + {id} else v.broken)
  }

  /** What the writers that take no claim leave alone, however often they write. */
  ghost predicate OnlyUnclaimed(before: map<TaskId, Task>, after: map<TaskId, Task>, v: View, v': View) {
    && v'.summarised == v.summarised && v'.asked == v.asked && v.broken <= v'.broken
    && v'.over <= v.over + v'.broken
    && before.Keys <= after.Keys
    && forall id :: id in before ==> UnclaimedWrite(before[id], after[id])
  }

  lemma UnclaimedSoFar(rows: map<TaskId, Task>, v: View)
    ensures OnlyUnclaimed(rows, rows, v, v)
  {
  }

  lemma UnclaimedAddsUp(
    rows: map<TaskId, Task>, rows': map<TaskId, Task>, rows'': map<TaskId, Task>, v: View, v': View, v'': View)
    requires OnlyUnclaimed(rows, rows', v, v') && OnlyUnclaimed(rows', rows'', v', v'')
    ensures OnlyUnclaimed(rows, rows'', v, v'')
  {
    forall id | id in rows
      ensures UnclaimedWrite(rows[id], rows''[id])
    {
      assert UnclaimedWrite(rows[id], rows'[id]) && UnclaimedWrite(rows'[id], rows''[id]);
    }
  }

  predicate UnclaimedWrite(before: Task, after: Task) {
    && after.workspace == before.workspace && after.openPr == before.openPr && after.runChecks == before.runChecks
    && (after == before || after.status.Running? || after.status.Failed?)
    && (IsTerminal(before.status) ==> after == before)
  }
}
