/**
 * What a safe record says about every run and every retry in it, event by event, and what
 * held on the two daemons meanwhile. `TransferRun.RunAgainAndAgain` shows that the command
 * only ever writes safe records, and `Transfer.World.Valid` that they are true.
 */
module TransferTheorems {
  import opened Options
  import opened Text
  import opened TransferWorld
  import opened TransferDecisions
  import opened TransferRecord
  import opened RepositoryUrl

  /** Where the run in progress at the end of the record began. */
  ghost function Start(log: seq<Event>): (k: nat)
    ensures k <= |log|
    ensures forall j :: k < j < |log| ==> !log[j].RunStarted?
  {
    if log == [] then 0
    else if log[|log| - 1].RunStarted? then |log| - 1
    else
      assert forall j :: 0 <= j < |log| - 1 ==> log[j] == log[..|log| - 1][j];
      Start(log[..|log| - 1])
  }

  /** The events of the run in progress. */
  ghost function RunOf(log: seq<Event>): seq<Event> {
    log[Start(log)..]
  }

  function Continue(run: seq<Event>, e: Event): seq<Event> {
    if e.RunStarted? then [e] else run + [e]
  }

  lemma RunGrows(log: seq<Event>)
    requires log != []
    ensures RunOf(log) == Continue(RunOf(log[..|log| - 1]), log[|log| - 1])
  {
  }

  predicate Changes(e: Event) {
    e.KillSent? || e.CommitSent? || e.PushSent? || e.CloneSent? || e.ImportSent? || e.CreateChatSent? || e.SpawnSent?
    || e.QueueSent? || e.ArchiveSent?
  }

  // ---------------------------------------------------------------- the record explains its summary

  /** The survey of the source. */
  ghost predicate ExplainsSurvey(v: View, run: seq<Event>) {
    && (v.source.of.Some? ==> SawChats(v.source.of.value, v.source.chats) in run)
    && (forall t :: t in v.source.asked ==> SawSession(t, v.source.asked[t]) in run)
    && (forall t, s :: SawSession(t, Some(s)) in run ==> s in v.source.live)
    && (v.runs > 0 ==> RunStarted(v.force, v.choice) in run)
  }

  /** The stop. */
  ghost predicate ExplainsStop(v: View, run: seq<Event>) {
    && (forall s :: s in v.source.ended ==> SawEnded(s) in run)
    && (forall s :: s in v.source.errored ==> SawError(s) in run)
    && (forall s :: s in v.source.killed ==> KillSent(s) in run)
  }

  ghost predicate TranscriptIn(run: seq<Event>, transcript: seq<TranscriptMessage>) {
    exists t :: SawTranscript(t, transcript) in run
  }

  ghost predicate HeadIn(run: seq<Event>, commit: Option<string>) {
    exists workspace :: SawSourceHead(workspace, commit) in run
  }

  ghost predicate CommittedIn(run: seq<Event>, workspace: string) {
    exists k :: 0 <= k < |run| && run[k].CommitSent? && run[k].workspace == workspace
  }

  ghost predicate PushedIn(run: seq<Event>, workspace: string) {
    exists k :: 0 <= k < |run| && run[k].PushSent? && run[k].workspace == workspace
  }

  /** Which chat moves, and what was read of it. */
  ghost predicate ExplainsRead(v: View, run: seq<Event>) {
    && (v.source.moving.Some? ==> Moving(v.source.moving.value) in run)
    && (v.source.transcript.Some? ==> TranscriptIn(run, v.source.transcript.value))
  }

  /** What was published. */
  ghost predicate ExplainsPublished(v: View, run: seq<Event>) {
    && (v.source.committed.Some? ==> CommittedIn(run, v.source.committed.value))
    && (v.source.pushed.Some? ==> PushedIn(run, v.source.pushed.value))
    && (v.source.head.Some? ==> HeadIn(run, v.source.head.value))
  }

  /** What the target listed, and the looks taken at it. */
  ghost predicate ExplainsListing(v: View, run: seq<Event>) {
    && (v.target.workspaces.Some? ==> SawWorkspaces(v.target.workspaces.value) in run)
    && (v.target.repositories.Some? ==> SawRepositories(v.target.repositories.value) in run)
    && (v.target.known.Some? ==> SawRepositories(v.target.known.value) in run)
    && (forall look :: look in v.target.looks ==> SawHead(look.workspace, look.head) in run)
  }

  ghost predicate SentIn(run: seq<Event>) {
    exists k :: 0 <= k < |run| && run[k].ImportSent?
  }

  /** Where the workspace went. */
  ghost predicate ExplainsPlace(v: View, run: seq<Event>) {
    && (SentIn(run) ==> !v.target.placed.Nowhere?)
    && (v.target.placed.Existing? ==>
          v.target.request.Some? && Adopted(v.target.request.value, v.target.placed.workspace) in run)
    && (v.target.placed.Answered? ==>
          Imported(v.target.placed.name, v.target.placed.branch, v.target.placed.seeded) in run)
  }

  /** The chats read on the target. */
  ghost predicate ExplainsChats(v: View, run: seq<Event>) {
    && (v.target.of.Some? ==> SawTargetChats(v.target.of.value, v.target.chats) in run)
    && (forall t :: t in v.target.asked && t !in v.target.replies ==> SawNoThread(t) in run)
    && (forall t :: t in v.target.replies ==> SawThread(t, v.target.replies[t]) in run)
    && (v.target.created.Some? ==> ChatCreated(v.target.created.value) in run)
  }

  /** The chat the run goes on in was chosen at `a`, and no other since. */
  ghost predicate ChosenAt(run: seq<Event>, t: ThreadId, a: int) {
    0 <= a < |run| && run[a] == ThreadChosen(t) && forall j :: a < j < |run| ==> !run[j].ThreadChosen?
  }

  predicate LooksAtChat(e: Event, t: ThreadId) {
    e.SawThread? && e.thread == t
  }

  /** Between its choice at `a` and `b` nobody looked at the chat. */
  ghost predicate UnseenBetween(run: seq<Event>, t: ThreadId, a: int, b: int) {
    forall j :: a < j < b && 0 <= j < |run| ==> !LooksAtChat(run[j], t)
  }

  /** The first look at the chosen chat, at `b`, and whether it showed a handover. */
  ghost predicate FirstSeenAt(run: seq<Event>, t: ThreadId, a: int, b: int, shows: bool, preamble: string) {
    && a < b && 0 <= b < |run| && LooksAtChat(run[b], t) && UnseenBetween(run, t, a, b)
    && (shows <==> HasDeliveredHandover(run[b].messages, preamble))
  }

  ghost predicate FirstLookFrom(run: seq<Event>, t: ThreadId, a: int, firstLook: Option<bool>, preamble: string) {
    && ChosenAt(run, t, a)
    && (firstLook.None? ==> UnseenBetween(run, t, a, |run|))
    && (firstLook.Some? ==> exists b :: FirstSeenAt(run, t, a, b, firstLook.value, preamble))
  }

  /** The chat chosen, and what the first look at it since showed. */
  ghost predicate ExplainsFirstLook(v: View, run: seq<Event>) {
    v.target.thread.Some? ==> exists a :: FirstLookFrom(run, v.target.thread.value, a, v.target.firstLook, v.preamble)
  }

  ghost predicate ShownIn(run: seq<Event>, t: ThreadId, preamble: string) {
    exists m :: SawThread(t, m) in run && HasDeliveredHandover(m, preamble)
  }

  /** The chats seen handed over in this run, both ways. */
  ghost predicate ExplainsConfirmed(v: View, run: seq<Event>) {
    && (forall t :: t in v.target.confirmed <==> ShownIn(run, t, v.preamble))
    && v.target.confirmed <= v.delivered
  }

  ghost predicate QueuedIn(run: seq<Event>, t: ThreadId) {
    exists c :: QueueSent(t, c) in run
  }

  /** What was sent to chats in this run, both ways. */
  ghost predicate ExplainsSent(v: View, run: seq<Event>) {
    && (forall t :: t in v.target.queued <==> QueuedIn(run, t))
    && (forall t :: t in v.target.spawned ==> exists workspace :: SpawnSent(workspace, t) in run)
  }

  /** Over all runs: what was handed over, and that every handover seen is remembered. */
  ghost predicate ExplainsAllRuns(v: View, log: seq<Event>) {
    && (forall t, c :: (t, c) in v.handed <==> QueueSent(t, c) in log)
    && (forall i :: 0 <= i < |log| && log[i].SawThread? && HasDeliveredHandover(log[i].messages, v.preamble)
                    ==> log[i].thread in v.delivered)
  }

  /** A run begins with nothing known of either end; within it, each event changes what is known of its own end. */
  lemma EndsNext(v: View, e: Event)
    ensures NextView(v, e).source == if e.RunStarted? then NO_SOURCE else NextSource(v.source, e)
    ensures NextView(v, e).target == if e.RunStarted? then NO_TARGET else NextTarget(v.target, e, v.preamble)
    ensures NextView(v, e).preamble == v.preamble
  {
    hide HasDeliveredHandover;
    if e.ArchiveSent? {
      assert NextTarget(v.target, e, v.preamble) == v.target;
    }
  }

  lemma PublishedNext(s: SourceView, e: Event)
    ensures var s' := NextSource(s, e);
            && s'.committed == (if e.CommitSent? then Some(e.workspace) else s.committed)
            && s'.pushed == (if e.PushSent? then Some(e.workspace) else s.pushed)
            && s'.head == (if e.SawSourceHead? then Some(e.commit) else s.head)
            && s'.moving == (if e.Moving? then Some(e.moved) else s.moving)
            && s'.transcript == (if e.SawTranscript? then Some(e.transcript) else s.transcript)
  {
  }

  lemma ListingNext(t: TargetView, e: Event, preamble: string)
    ensures var t' := NextTarget(t, e, preamble);
            && t'.workspaces == (if e.SawWorkspaces? then Some(e.workspaces) else t.workspaces)
            && t'.repositories == (if e.SawRepositories? && t.repositories.None? then Some(e.repositories)
                                   else t.repositories)
            && t'.known == (if e.SawRepositories? then Some(e.repositories) else if e.CloneSent? then None else t.known)
            && t'.looks == (if e.SawWorkspaces? then [] else if e.SawHead? then t.looks + [Look(e.workspace, e.head)]
                            else t.looks)
  {
    hide HasDeliveredHandover;
  }

  lemma ChatsNext(t: TargetView, e: Event, preamble: string)
    ensures var t' := NextTarget(t, e, preamble);
            && t'.created == (if e.ChatCreated? then Some(e.thread) else t.created)
            && t'.of == (if e.SawTargetChats? then Some(e.workspace) else t.of)
            && t'.chats == (if e.SawTargetChats? then e.chats else t.chats)
            && t'.asked == (if e.SawTargetChats? then {}
                            else if e.SawThread? || e.SawNoThread? then t.asked + {e.thread} else t.asked)
            && t'.replies == (if e.SawTargetChats? then map[]
                              else if e.SawThread? then t.replies[e.thread := e.messages] else t.replies)
  {
    hide HasDeliveredHandover;
  }

  lemma SentNext(t: TargetView, e: Event, preamble: string)
    ensures var t' := NextTarget(t, e, preamble);
            && t'.spawned == (if e.SpawnSent? then t.spawned + {e.thread} else t.spawned)
            && t'.queued == (if e.QueueSent? then t.queued + {e.thread} else t.queued)
            && t'.confirmed == (if e.SawThread? && HasDeliveredHandover(e.messages, preamble) then
                                  t.confirmed + {e.thread}
                                else t.confirmed)
  {
    hide HasDeliveredHandover;
  }

  lemma DeliveredNext(v: View, e: Event)
    ensures NextView(v, e).delivered
         == if e.SawThread? && HasDeliveredHandover(e.messages, v.preamble) then v.delivered + {e.thread}
            else v.delivered
  {
    hide HasDeliveredHandover, NextSource, NextTarget;
  }

  lemma SurveyStep(v: View, run: seq<Event>, e: Event)
    requires ExplainsSurvey(v, run)
    ensures ExplainsSurvey(NextView(v, e), Continue(run, e))
  {
    hide HasDeliveredHandover, NextTarget;
  }

  lemma StopStep(v: View, run: seq<Event>, e: Event)
    requires ExplainsStop(v, run)
    ensures ExplainsStop(NextView(v, e), Continue(run, e))
  {
    hide HasDeliveredHandover, NextTarget;
  }

  lemma StillRead(run: seq<Event>, e: Event, transcript: seq<TranscriptMessage>)
    ensures TranscriptIn(run, transcript) ==> TranscriptIn(run + [e], transcript)
  {
    if t :| SawTranscript(t, transcript) in run {
      assert SawTranscript(t, transcript) in run + [e];
    }
  }

  lemma ReadStep(v: View, run: seq<Event>, e: Event)
    requires ExplainsRead(v, run)
    ensures ExplainsRead(NextView(v, e), Continue(run, e))
  {
    hide NextView, NextSource, NextTarget, TranscriptIn, CommittedIn, PushedIn, HeadIn;
    EndsNext(v, e);
    PublishedNext(v.source, e);
    StillRead(run, e, if v.source.transcript.Some? then v.source.transcript.value else []);
    NowIn(run, e);
  }

  lemma StillIn(run: seq<Event>, e: Event, committed: string, pushed: string, commit: Option<string>)
    ensures CommittedIn(run, committed) ==> CommittedIn(run + [e], committed)
    ensures PushedIn(run, pushed) ==> PushedIn(run + [e], pushed)
    ensures HeadIn(run, commit) ==> HeadIn(run + [e], commit)
  {
    var run' := run + [e];
    assert forall k :: 0 <= k < |run| ==> run'[k] == run[k];
    if w :| SawSourceHead(w, commit) in run {
      assert SawSourceHead(w, commit) in run';
    }
  }

  lemma NowIn(run: seq<Event>, e: Event)
    ensures e.CommitSent? ==> CommittedIn(run + [e], e.workspace)
    ensures e.PushSent? ==> PushedIn(run + [e], e.workspace)
    ensures e.SawTranscript? ==> TranscriptIn(run + [e], e.transcript)
    ensures e.SawSourceHead? ==> HeadIn(run + [e], e.commit)
  {
    var run' := run + [e];
    assert run'[|run|] == e && e in run';
  }

  lemma PublishedStep(v: View, run: seq<Event>, e: Event)
    requires ExplainsPublished(v, run)
    ensures ExplainsPublished(NextView(v, e), Continue(run, e))
  {
    hide NextView, NextSource, NextTarget, CommittedIn, PushedIn, HeadIn, TranscriptIn;
    EndsNext(v, e);
    PublishedNext(v.source, e);
    var s := v.source;
    StillIn(run, e, if s.committed.Some? then s.committed.value else "", if s.pushed.Some? then s.pushed.value else "",
            if s.head.Some? then s.head.value else None);
    NowIn(run, e);
  }

  lemma ListingStep(v: View, run: seq<Event>, e: Event)
    requires ExplainsListing(v, run)
    ensures ExplainsListing(NextView(v, e), Continue(run, e))
  {
    hide NextView, NextSource, NextTarget;
    EndsNext(v, e);
    ListingNext(v.target, e, v.preamble);
  }

  lemma PlaceStep(v: View, run: seq<Event>, e: Event)
    requires ExplainsPlace(v, run)
    ensures ExplainsPlace(NextView(v, e), Continue(run, e))
  {
    hide HasDeliveredHandover, NextSource;
    var run' := Continue(run, e);
    if SentIn(run') && !e.ImportSent? {
      var k :| 0 <= k < |run'| && run'[k].ImportSent?;
      assert run[k] == run'[k];
    }
  }

  lemma ChatsStep(v: View, run: seq<Event>, e: Event)
    requires ExplainsChats(v, run)
    ensures ExplainsChats(NextView(v, e), Continue(run, e))
  {
    hide NextView, NextSource, NextTarget;
    EndsNext(v, e);
    ChatsNext(v.target, e, v.preamble);
  }

  /** Every event but a choice, or the first look at the chosen chat, leaves the first look as it was. */
  lemma FirstLookStays(run: seq<Event>, e: Event, t: ThreadId, a: int, firstLook: Option<bool>, preamble: string)
    requires FirstLookFrom(run, t, a, firstLook, preamble) && !e.ThreadChosen?
    requires firstLook.None? ==> !LooksAtChat(e, t)
    ensures FirstLookFrom(run + [e], t, a, firstLook, preamble)
  {
    hide HasDeliveredHandover;
    if firstLook.Some? {
      var b :| FirstSeenAt(run, t, a, b, firstLook.value, preamble);
      assert FirstSeenAt(run + [e], t, a, b, firstLook.value, preamble);
    }
  }

  lemma FirstLookTaken(run: seq<Event>, e: Event, t: ThreadId, a: int, preamble: string)
    requires FirstLookFrom(run, t, a, None, preamble) && LooksAtChat(e, t)
    ensures FirstLookFrom(run + [e], t, a, Some(HasDeliveredHandover(e.messages, preamble)), preamble)
  {
    hide HasDeliveredHandover;
    assert FirstSeenAt(run + [e], t, a, |run|, HasDeliveredHandover(e.messages, preamble), preamble);
  }

  lemma JustChosen(run: seq<Event>, t: ThreadId, preamble: string)
    ensures FirstLookFrom(run + [ThreadChosen(t)], t, |run|, None, preamble)
  {
  }

  lemma ChoiceNext(t: TargetView, e: Event, preamble: string)
    ensures var t', shows := NextTarget(t, e, preamble), e.SawThread? && HasDeliveredHandover(e.messages, preamble);
            && t'.thread == (if e.ThreadChosen? then Some(e.thread) else t.thread)
            && t'.firstLook == if e.ThreadChosen? then None
                               else if t.thread.Some? && t.firstLook.None? && LooksAtChat(e, t.thread.value) then
                                 Some(shows)
                               else t.firstLook
  {
    hide HasDeliveredHandover;
  }

  lemma FirstLookStep(v: View, run: seq<Event>, e: Event)
    requires ExplainsFirstLook(v, run)
    ensures ExplainsFirstLook(NextView(v, e), Continue(run, e))
  {
    hide HasDeliveredHandover, NextView, NextSource, NextTarget, FirstLookFrom;
    EndsNext(v, e);
    if !e.RunStarted? {
      ChoiceNext(v.target, e, v.preamble);
      var t := v.target;
      if e.ThreadChosen? {
        JustChosen(run, e.thread, v.preamble);
        assert FirstLookFrom(run + [e], e.thread, |run|, None, v.preamble);
      } else if t.thread.Some? {
        var a :| FirstLookFrom(run, t.thread.value, a, t.firstLook, v.preamble);
        if t.firstLook.None? && LooksAtChat(e, t.thread.value) {
          FirstLookTaken(run, e, t.thread.value, a, v.preamble);
        } else {
          FirstLookStays(run, e, t.thread.value, a, t.firstLook, v.preamble);
        }
      }
    }
  }

  lemma ShownStep(run: seq<Event>, e: Event, t: ThreadId, preamble: string)
    ensures ShownIn(run + [e], t, preamble) <==>
            ShownIn(run, t, preamble) || (e.SawThread? && e.thread == t && HasDeliveredHandover(e.messages, preamble))
  {
    hide HasDeliveredHandover;
    var run' := run + [e];
    if m :| SawThread(t, m) in run && HasDeliveredHandover(m, preamble) {
      assert SawThread(t, m) in run';
    }
    if e.SawThread? && e.thread == t {
      assert SawThread(t, e.messages) in run';
    }
  }

  lemma ConfirmedStep(v: View, run: seq<Event>, e: Event)
    requires ExplainsConfirmed(v, run)
    ensures ExplainsConfirmed(NextView(v, e), Continue(run, e))
  {
    hide HasDeliveredHandover, NextView, NextSource, NextTarget, ShownIn;
    EndsNext(v, e);
    SentNext(v.target, e, v.preamble);
    DeliveredNext(v, e);
    if e.RunStarted? {
      forall t
        ensures !ShownIn([e], t, v.preamble)
      {
        ShownStep([], e, t, v.preamble);
        NothingShown(t, v.preamble);
        assert [] + [e] == [e];
      }
    } else {
      forall t
        ensures t in NextView(v, e).target.confirmed <==> ShownIn(run + [e], t, v.preamble)
      {
        ShownStep(run, e, t, v.preamble);
      }
    }
  }

  lemma NothingShown(t: ThreadId, preamble: string)
    ensures !ShownIn([], t, preamble) && !QueuedIn([], t)
  {
  }

  lemma QueuedStep(run: seq<Event>, e: Event, t: ThreadId)
    ensures QueuedIn(run + [e], t) <==> QueuedIn(run, t) || (e.QueueSent? && e.thread == t)
  {
    var run' := run + [e];
    if c :| QueueSent(t, c) in run {
      assert QueueSent(t, c) in run';
    }
    if e.QueueSent? && e.thread == t {
      assert QueueSent(t, e.content) in run';
    }
  }

  lemma SentStep(v: View, run: seq<Event>, e: Event)
    requires ExplainsSent(v, run)
    ensures ExplainsSent(NextView(v, e), Continue(run, e))
  {
    hide HasDeliveredHandover, NextView, NextSource, NextTarget, QueuedIn;
    EndsNext(v, e);
    SentNext(v.target, e, v.preamble);
    var run' := Continue(run, e);
    if e.RunStarted? {
      forall t
        ensures !QueuedIn([e], t)
      {
        NothingShown(t, v.preamble);
        QueuedStep([], e, t);
        assert [] + [e] == [e];
      }
    } else {
      forall t
        ensures t in NextView(v, e).target.queued <==> QueuedIn(run', t)
      {
        QueuedStep(run, e, t);
      }
      forall t | t in NextView(v, e).target.spawned
        ensures exists workspace :: SpawnSent(workspace, t) in run'
      {
        var workspace :| SpawnSent(workspace, t) in run || e == SpawnSent(workspace, t);
        assert SpawnSent(workspace, t) in run';
      }
    }
  }

  lemma AllRunsStep(v: View, log: seq<Event>, e: Event)
    requires ExplainsAllRuns(v, log)
    ensures ExplainsAllRuns(NextView(v, e), log + [e])
  {
    hide HasDeliveredHandover, NextSource, NextTarget;
  }

  ghost predicate Explains(v: View, log: seq<Event>, run: seq<Event>) {
    && ExplainsSurvey(v, run) && ExplainsStop(v, run) && ExplainsRead(v, run) && ExplainsPublished(v, run)
    && ExplainsListing(v, run) && ExplainsPlace(v, run) && ExplainsChats(v, run) && ExplainsFirstLook(v, run)
    && ExplainsConfirmed(v, run) && ExplainsSent(v, run) && ExplainsAllRuns(v, log)
  }

  lemma NothingToExplain(preamble: string)
    ensures Explains(EmptyView(preamble), [], [])
  {
    hide HasDeliveredHandover;
  }

  /** Everything the summary says is backed by events of the record, and of the run in progress where it is about it. */
  lemma {:induction false} ViewExplained(log: seq<Event>, preamble: string)
    ensures Explains(ViewOf(log, preamble), log, RunOf(log))
    ensures ViewOf(log, preamble).preamble == preamble
  {
    hide NextView, RunOf, Start, ExplainsSurvey, ExplainsStop, ExplainsRead, ExplainsPublished, ExplainsListing,
         ExplainsPlace, ExplainsChats, ExplainsFirstLook, ExplainsConfirmed, ExplainsSent, ExplainsAllRuns;
    if log == [] {
      NothingToExplain(preamble);
      NoRun();
    } else {
      var front, last := log[..|log| - 1], log[|log| - 1];
      var v, run := ViewOf(front, preamble), RunOf(front);
      ViewExplained(front, preamble);
      assert log == front + [last];
      RunGrows(log);
      EndsNext(v, last);
      SurveyStep(v, run, last);
      StopStep(v, run, last);
      ReadStep(v, run, last);
      PublishedStep(v, run, last);
      ListingStep(v, run, last);
      PlaceStep(v, run, last);
      ChatsStep(v, run, last);
      FirstLookStep(v, run, last);
      ConfirmedStep(v, run, last);
      SentStep(v, run, last);
      AllRunsStep(v, front, last);
    }
  }

  lemma NoRun()
    ensures RunOf([]) == []
  {
  }

  lemma {:induction false} SafeUpTo(log: seq<Event>, preamble: string, i: nat)
    requires Safe(log, preamble) && i < |log|
    ensures Safe(log[..i], preamble) && StepOk(ViewOf(log[..i], preamble), log[i])
  {
    hide StepOk, ViewOf;
    if i < |log| - 1 {
      var front := log[..|log| - 1];
      SafeUpTo(front, preamble, i);
      assert front[..i] == log[..i];
    }
  }

  /** Every event was true when it was written down. */
  lemma {:induction false} TrueUpTo(log: seq<Event>, history: seq<Moment>, preamble: string, i: nat)
    requires Witnessed(log, history, preamble) && i < |log|
    ensures |history| == |log| && Truthful(ViewOf(log[..i], preamble), log[i], history[i])
  {
    hide Truthful, ViewOf;
    if i < |log| - 1 {
      var front, before := log[..|log| - 1], history[..|log| - 1];
      TrueUpTo(front, before, preamble, i);
      assert front[..i] == log[..i];
    }
  }

  /** An event of the run in progress, and where in the record it is. */
  lemma RunEventAt(log: seq<Event>, e: Event) returns (k: nat)
    requires e in RunOf(log)
    ensures Start(log) <= k < |log| && log[k] == e
  {
    hide Start;
    var run := RunOf(log);
    var j: nat :| j < |run| && run[j] == e;
    k := Start(log) + j;
  }

  // ---------------------------------------------------------------- stop before publish

  /** A chat said which live session held it, and that session was told to stop and seen gone, or not told about. */
  ghost predicate ChatSettled(run: seq<Event>, t: ThreadId, running: set<SessionId>) {
    exists holder :: SawSession(t, holder) in run
                     && (holder.Some? ==>
                           && KillSent(holder.value) in run
                           && ((SawEnded(holder.value) in run && holder.value !in running)
                               || SawError(holder.value) in run))
  }

  /** Every chat the workspace had, archived ones aside, is settled. */
  ghost predicate AllSettled(run: seq<Event>, d: Daemon, workspace: string, running: set<SessionId>) {
    forall t :: t in d.threads && d.threads[t].workspace == workspace && !d.threads[t].archived
                ==> ChatSettled(run, t, running)
  }

  /**
   * Nothing is committed or pushed on the source before its chats were listed as they were, and
   * every one not archived was asked for its session; and that session, if it was live, was
   * told to stop, and then was seen ended, and is not running now, or the daemon answered
   * an error about it.
   */
  lemma PublishedOnlyAfterStop(log: seq<Event>, history: seq<Moment>, preamble: string, i: nat)
    requires Safe(log, preamble) && Witnessed(log, history, preamble) && i < |log|
    requires log[i].CommitSent? || log[i].PushSent?
    ensures |history| == |log| && log[i].running == SessionsIn(history[i].source)
    ensures exists k :: Start(log[..i]) <= k < i && log[k].SawChats? && log[k].workspace == log[i].workspace
                        && AllSettled(RunOf(log[..i]), history[k].source, log[k].workspace, log[i].running)
  {
    hide RunOf, Start, ExplainsPublished, ExplainsListing, ExplainsPlace, ExplainsChats, ExplainsConfirmed,
         ExplainsSent, ExplainsAllRuns, ChatSettled, ViewOf, Safe, Witnessed, SessionsIn;
    var before, v := log[..i], ViewOf(log[..i], preamble);
    SafeUpTo(log, preamble, i);
    TrueUpTo(log, history, preamble, i);
    ViewExplained(before, preamble);
    var workspace := v.source.of.value;
    var k := RunEventAt(before, SawChats(workspace, v.source.chats));
    assert log[k] == before[k];
    TrueUpTo(log, history, preamble, k);
    forall t | t in history[k].source.threads && history[k].source.threads[t].workspace == workspace
               && !history[k].source.threads[t].archived
      ensures ChatSettled(RunOf(before), t, log[i].running)
    {
      assert ListedChat(t, history[k].source.threads[t]) in v.source.chats;
      AskedIsSettled(v, RunOf(before), t, log[i].running);
    }
  }

  lemma AskedIsSettled(v: View, run: seq<Event>, t: ThreadId, running: set<SessionId>)
    requires ExplainsSurvey(v, run) && ExplainsStop(v, run) && Stopped(v.source) && t in v.source.asked
    requires running !! v.source.ended
    ensures ChatSettled(run, t, running)
  {
    var holder := v.source.asked[t];
    assert SawSession(t, holder) in run;
    if holder.Some? {
      assert holder.value in v.source.live;
    }
  }

  /** Without `--force`, a run sends nothing but reads until every chat was asked, and found without a live session. */
  lemma OnlyReadsBesideLiveSessions(log: seq<Event>, preamble: string, i: nat)
    requires Safe(log, preamble) && i < |log| && Changes(log[i])
    ensures var run := RunOf(log[..i]);
            && (exists workspace, chats: seq<ListedChat> :: SawChats(workspace, chats) in run
                  && forall c: ListedChat :: c in chats && !c.thread.archived ==>
                       exists holder :: SawSession(c.id, holder) in run)
            && ((exists choice :: RunStarted(true, choice) in run) || forall t, s :: SawSession(t, Some(s)) !in run)
  {
    hide RunOf, ExplainsStop, ExplainsPublished, ExplainsListing, ExplainsPlace, ExplainsChats, ExplainsConfirmed,
         ExplainsSent, ExplainsAllRuns, ViewOf, Safe, ReplaysAsk, Verdict, Carries, SourceUrl;
    var v, run := ViewOf(log[..i], preamble), RunOf(log[..i]);
    SafeUpTo(log, preamble, i);
    ViewExplained(log[..i], preamble);
    ChangesNeedSurvey(v, log[i]);
    assert SawChats(v.source.of.value, v.source.chats) in run;
    SurveyedRunsHaveBegun(log[..i], preamble);
    if v.force {
      assert RunStarted(true, v.choice) in run;
    }
  }

  lemma ChangesNeedSurvey(v: View, e: Event)
    requires StepOk(v, e) && Changes(e)
    ensures Surveyed(v.source) && (v.force || v.source.live == {})
  {
    hide ReplaysAsk, Verdict, Carries, SourceUrl, Placed, Confirmed, HasDeliveredHandover, StartsWith, ThreadKnown,
         OwnThread, PlacedName;
  }

  /** Force is only on in a run, and a run says so. */
  lemma {:induction false} SurveyedRunsHaveBegun(log: seq<Event>, preamble: string)
    ensures ViewOf(log, preamble).force ==> ViewOf(log, preamble).runs > 0
  {
    hide HasDeliveredHandover, NextSource, NextTarget;
    if log != [] {
      SurveyedRunsHaveBegun(log[..|log| - 1], preamble);
    }
  }

  /** The conversation is read after the stop: what an agent wrote on its way out goes along. */
  lemma TranscriptReadAfterStop(log: seq<Event>, history: seq<Moment>, preamble: string, i: nat)
    requires Safe(log, preamble) && Witnessed(log, history, preamble) && i < |log| && log[i].SawTranscript?
    ensures var run, t := RunOf(log[..i]), log[i].thread;
            && Moving(Some(t)) in run
            && |history| == |log| && t in history[i].source.threads
            && log[i].transcript == TranscriptOf(history[i].source.threads[t].messages)
            && exists workspace, chats: seq<ListedChat> :: SawChats(workspace, chats) in run
                 && forall c: ListedChat :: c in chats && !c.thread.archived ==> ChatSettled(run, c.id, {})
  {
    hide RunOf, ExplainsListing, ExplainsPlace, ExplainsChats, ExplainsConfirmed, ExplainsSent, ExplainsAllRuns,
         ViewOf, Safe, Witnessed, ChatSettled, CommittedIn, PushedIn, TranscriptIn, HeadIn, TranscriptOf;
    var v, run := ViewOf(log[..i], preamble), RunOf(log[..i]);
    SafeUpTo(log, preamble, i);
    TrueUpTo(log, history, preamble, i);
    ViewExplained(log[..i], preamble);
    assert SawChats(v.source.of.value, v.source.chats) in run;
    forall c | c in v.source.chats && !c.thread.archived
      ensures ChatSettled(run, c.id, {})
    {
      AskedIsSettled(v, run, c.id, {});
    }
  }

  // ---------------------------------------------------------------- one workspace all the way

  /** A push is of the workspace a commit was asked for earlier in the run. */
  lemma PushedAfterCommit(log: seq<Event>, preamble: string, i: nat)
    requires Safe(log, preamble) && i < |log| && log[i].PushSent?
    ensures CommittedIn(RunOf(log[..i]), log[i].workspace)
  {
    hide ExplainsSurvey, ExplainsStop, ExplainsListing, ExplainsPlace, ExplainsChats, ExplainsConfirmed, ExplainsSent,
         ExplainsAllRuns, RunOf, ViewOf, Safe, CommittedIn, PushedIn, TranscriptIn, HeadIn;
    SafeUpTo(log, preamble, i);
    ViewExplained(log[..i], preamble);
  }

  lemma RetiredAfterPush(log: seq<Event>, preamble: string, i: nat)
    requires Safe(log, preamble) && i < |log| && log[i].ArchiveSent?
    ensures PushedIn(RunOf(log[..i]), log[i].workspace)
  {
    hide ExplainsSurvey, ExplainsStop, ExplainsListing, ExplainsPlace, ExplainsChats, ExplainsConfirmed, ExplainsSent,
         ExplainsAllRuns, RunOf, ViewOf, Safe, CommittedIn, PushedIn, TranscriptIn, HeadIn, Placed;
    SafeUpTo(log, preamble, i);
    ViewExplained(log[..i], preamble);
  }

  /** Cutting the record within the run in progress cuts that run. */
  lemma {:induction false} RunUpTo(log: seq<Event>, at: nat)
    requires Start(log) <= at < |log|
    requires !log[at].RunStarted?
    ensures Start(log[..at]) == Start(log) && RunOf(log[..at]) == RunOf(log)[..at - Start(log)]
  {
    if at < |log| - 1 {
      assert !log[|log| - 1].RunStarted? || Start(log) == |log| - 1;
      RunUpTo(log[..|log| - 1], at);
      assert log[..|log| - 1][..at] == log[..at];
    }
  }

  /** The event at an index of the run in progress, and the run as it was then. */
  lemma RunIndexAt(log: seq<Event>, k: nat) returns (at: nat)
    requires k < |RunOf(log)| && !RunOf(log)[k].RunStarted?
    ensures Start(log) <= at < |log| && log[at] == RunOf(log)[k] && RunOf(log[..at]) == RunOf(log)[..k]
    ensures at == Start(log) + k
  {
    hide Start;
    at := Start(log) + k;
    assert log[at] == RunOf(log)[k];
    RunUpTo(log, at);
  }

  /** One workspace all the way: committed, then pushed, then retired, in one run. */
  lemma RetiredIsWhatWasPublished(log: seq<Event>, preamble: string, i: nat)
    requires Safe(log, preamble) && i < |log| && log[i].ArchiveSent?
    ensures var run := RunOf(log[..i]);
            exists j, k :: 0 <= j < k < |run| && run[j].CommitSent? && run[k].PushSent?
                           && run[j].workspace == run[k].workspace == log[i].workspace
  {
    hide Safe, RunOf, Start;
    var before, run := log[..i], RunOf(log[..i]);
    RetiredAfterPush(log, preamble, i);
    var k :| 0 <= k < |run| && run[k].PushSent? && run[k].workspace == log[i].workspace;
    var at := RunIndexAt(before, k);
    assert before[at] == log[at];
    PushedAfterCommit(log, preamble, at);
    assert log[..at] == before[..at];
    var earlier := RunOf(log[..at]);
    var j :| 0 <= j < |earlier| && earlier[j].CommitSent? && earlier[j].workspace == log[i].workspace;
    assert run[j] == earlier[j];
  }

  /** A head of the source is read for the workspace that was pushed before. */
  lemma HeadReadAfterPush(log: seq<Event>, preamble: string, i: nat)
    requires Safe(log, preamble) && i < |log| && log[i].SawSourceHead?
    ensures PushedIn(RunOf(log[..i]), log[i].workspace)
  {
    hide ExplainsSurvey, ExplainsStop, ExplainsRead, ExplainsListing, ExplainsPlace, ExplainsChats, ExplainsFirstLook,
         ExplainsConfirmed, ExplainsSent, ExplainsAllRuns, RunOf, ViewOf, Safe, CommittedIn, PushedIn, HeadIn;
    SafeUpTo(log, preamble, i);
    ViewExplained(log[..i], preamble);
  }

  /**
   * What is imported is what was published and said: a head read of the pushed workspace, after
   * the push and true then, and the moving chat's conversation, or nothing when none moves.
   */
  lemma ImportCarriesTheSource(log: seq<Event>, history: seq<Moment>, preamble: string, i: nat)
    requires Safe(log, preamble) && Witnessed(log, history, preamble) && i < |log| && log[i].ImportSent?
    ensures |history| == |log|
    ensures var run, commit := RunOf(log[..i]), log[i].commit;
            && (exists k :: Start(log[..i]) <= k < i && log[k].SawSourceHead? && log[k].commit == commit
                            && PushedIn(RunOf(log[..k]), log[k].workspace)
                            && (commit.Some? ==> commit == HeadOf(history[k].source.workspaces, log[k].workspace)))
            && ((Moving(None) in run && log[i].transcript == []) || TranscriptIn(run, log[i].transcript))
  {
    hide ExplainsSurvey, ExplainsStop, ExplainsListing, ExplainsPlace, ExplainsChats, ExplainsFirstLook,
         ExplainsConfirmed, ExplainsSent, ExplainsAllRuns, RunOf, Start, ViewOf, Safe, Witnessed, CommittedIn,
         PushedIn, TranscriptIn, Verdict, SourceUrl, HeadOf;
    SafeUpTo(log, preamble, i);
    ViewExplained(log[..i], preamble);
    var workspace :| SawSourceHead(workspace, log[i].commit) in RunOf(log[..i]);
    var k := RunEventAt(log[..i], SawSourceHead(workspace, log[i].commit));
    assert log[k] == log[..i][k];
    HeadReadAfterPush(log, preamble, k);
    TrueUpTo(log, history, preamble, k);
  }

  // ---------------------------------------------------------------- adopt, import or refuse

  lemma AdoptedWasListed(log: seq<Event>, history: seq<Moment>, preamble: string, i: nat)
    requires Safe(log, preamble) && Witnessed(log, history, preamble) && i < |log| && log[i].Adopted?
    ensures |history| == |log|
    ensures var v := ViewOf(log[..i], preamble);
            && Explains(v, log[..i], RunOf(log[..i])) && StepOk(v, log[i])
            && (exists k :: Start(log[..i]) <= k < i && log[k].SawWorkspaces?
                            && history[k].target.workspaces == v.target.workspaces.value)
            && (exists k :: Start(log[..i]) <= k < i && log[k].SawRepositories?
                            && history[k].target.repositories == v.target.repositories.value)
  {
    hide ExplainsSurvey, ExplainsStop, ExplainsPlace, ExplainsRead, ExplainsChats, ExplainsFirstLook,
         ExplainsConfirmed, ExplainsSent, ExplainsAllRuns, RunOf, Start, ViewOf, Safe, Witnessed, CommittedIn,
         PushedIn, TranscriptIn, HeadIn, SourceUrl, RepositoryName, Settled, Decide;
    var before, v := log[..i], ViewOf(log[..i], preamble);
    SafeUpTo(log, preamble, i);
    ViewExplained(before, preamble);
    var a := RunEventAt(before, SawWorkspaces(v.target.workspaces.value));
    var b := RunEventAt(before, SawRepositories(v.target.repositories.value));
    assert log[a] == before[a] && log[b] == before[b];
    TrueUpTo(log, history, preamble, a);
    TrueUpTo(log, history, preamble, b);
  }

  /**
   * A workspace is adopted only as the target really listed it: in the repository of that
   * URL, not archived, and, when the pushed commit is known, at a head that matched it when
   * that very workspace was looked at; on the branch asked for when it is not known.
   */
  lemma AdoptedAtItsCommit(log: seq<Event>, history: seq<Moment>, preamble: string, i: nat)
    requires Safe(log, preamble) && Witnessed(log, history, preamble) && i < |log| && log[i].Adopted?
    ensures |history| == |log|
    ensures var w, start := log[i].existing, Start(log[..i]);
            && !w.archived
            && (exists k :: start <= k < i && log[k].SawWorkspaces? && w in history[k].target.workspaces)
            && (exists k :: start <= k < i && log[k].SawRepositories?
                            && RepositoryName(history[k].target.repositories, log[i].request.url) == Some(w.repository))
            && exists commit :: HeadIn(RunOf(log[..i]), commit)
                 && (commit.None? ==> w.branch == log[i].request.branch)
                 && (commit.Some? ==> exists k, h :: start <= k < i && log[k] == SawHead(w.name, Some(h))
                                        && HeadOf(history[k].target.workspaces, w.name) == Some(h)
                                        && CommitsMatch(h, commit.value))
  {
    hide Explains, RunOf, Start, ViewOf, Safe, Witnessed, HeadIn, SourceUrl, RepositoryName, Settled, Decide,
         CommitsMatch, HeadOf, Candidates;
    AdoptedWasListed(log, history, preamble, i);
    var v, w, q := ViewOf(log[..i], preamble), log[i].existing, log[i].request;
    var commit := v.source.head.value;
    AdoptMeans(v.target.workspaces.value, RepositoryName(v.target.repositories.value, q.url), q.branch, q.name, commit,
               v.target.looks);
    HeadExplained(v, log[..i]);
    if commit.Some? {
      var head :| Look(w.name, head) in v.target.looks && HeadMatches(head, commit.value);
      LookedBefore(log, history, preamble, i, w.name, head.value);
    }
  }

  lemma HeadExplained(v: View, before: seq<Event>)
    requires Explains(v, before, RunOf(before)) && v.source.head.Some?
    ensures HeadIn(RunOf(before), v.source.head.value)
  {
    hide RunOf, HeadIn;
  }

  lemma LookedBefore(log: seq<Event>, history: seq<Moment>, preamble: string, i: nat, workspace: string, head: string)
    requires Witnessed(log, history, preamble) && i < |log|
    requires Explains(ViewOf(log[..i], preamble), log[..i], RunOf(log[..i]))
    requires Look(workspace, Some(head)) in ViewOf(log[..i], preamble).target.looks
    ensures |history| == |log|
    ensures exists k :: Start(log[..i]) <= k < i && log[k] == SawHead(workspace, Some(head))
                        && HeadOf(history[k].target.workspaces, workspace) == Some(head)
  {
    hide RunOf, Start, ViewOf, Witnessed, HeadOf;
    TrueUpTo(log, history, preamble, i);
    var k := RunEventAt(log[..i], SawHead(workspace, Some(head)));
    assert log[k] == log[..i][k];
    TrueUpTo(log, history, preamble, k);
  }

  lemma SentInRun(log: seq<Event>, i: nat)
    requires Start(log) <= i < |log| && log[i].ImportSent?
    ensures SentIn(RunOf(log))
  {
    hide Start;
    var run, k := RunOf(log), i - Start(log);
    assert run[k] == log[i];
    assert 0 <= k < |run| && run[k].ImportSent?;
  }

  /**
   * Between two imports under one name, the second for a known commit, the target did not have
   * that name at the moment it was listed: the first workspace was no longer there under it.
   */
  lemma SecondImportOnlyOnceNameIsFree(log: seq<Event>, history: seq<Moment>, preamble: string, i: nat, j: nat)
    requires Safe(log, preamble) && Witnessed(log, history, preamble) && i < j < |log|
    requires log[i].ImportSent? && log[j].ImportSent? && log[j].request.name == log[i].request.name
    requires log[j].commit.Some?
    ensures |history| == |log|
    ensures exists k :: i < k < j && log[k].SawWorkspaces?
                        && !NameInUse(history[k].target.workspaces, log[i].request.name)
  {
    hide ExplainsSurvey, ExplainsStop, ExplainsPublished, ExplainsChats, ExplainsConfirmed, ExplainsSent,
         ExplainsAllRuns, ViewOf, Safe, Witnessed, NameInUse, BranchInUse, Carries, SourceUrl, RepositoryName,
         Settled, Decide, SentIn, RunOf, Start;
    var before, v := log[..j], ViewOf(log[..j], preamble);
    var run, start := RunOf(before), Start(before);
    SafeUpTo(log, preamble, j);
    ViewExplained(before, preamble);
    var all, q := v.target.workspaces.value, log[j].request;
    var k := RunEventAt(before, SawWorkspaces(all));
    assert log[k] == before[k];
    TrueUpTo(log, history, preamble, k);
    AbsentExactlyWhen(all, RepositoryName(v.target.repositories.value, q.url), q.branch, q.name, log[j].commit,
                      v.target.looks);
    if start <= i {
      assert log[i] == before[i];
      SentInRun(before, i);
    }
  }

  /** An import the target put on another branch leads nowhere unless the target listed the repository beforehand. */
  lemma RenamedImportNeedsTheRepository(log: seq<Event>, preamble: string, i: nat)
    requires Safe(log, preamble) && i < |log|
    requires log[i].ThreadChosen? || log[i].ArchiveSent? || log[i].CreateChatSent?
    requires var v := ViewOf(log[..i], preamble);
             v.target.placed.Answered? && v.target.request.Some?
             && v.target.placed.branch != v.target.request.value.branch
    ensures var q := ViewOf(log[..i], preamble).target.request.value;
            exists all :: SawRepositories(all) in RunOf(log[..i]) && RepositoryName(all, q.url).Some?
  {
    hide ExplainsSurvey, ExplainsStop, ExplainsPublished, ExplainsPlace, ExplainsChats, ExplainsConfirmed, ExplainsSent,
         ExplainsAllRuns, ViewOf, Safe, RunOf, RepositoryName, Confirmed, OwnThread, PlacedName;
    SafeUpTo(log, preamble, i);
    ViewExplained(log[..i], preamble);
  }

  // ---------------------------------------------------------------- delivered, then retired

  /** Someone handed this content to that chat: this record's runs before, or another transfer. */
  ghost predicate HandedBySomeone(t: ThreadId, content: string, before: seq<Event>, foreign: set<(ThreadId, string)>) {
    QueueSent(t, content) in before || (t, content) in foreign
  }

  /**
   * A handover seen in a chat was on the daemon then, and made there: by a run of this
   * record before, or by another transfer. Nothing that was only copied counts.
   */
  lemma DeliveredMeansHandedOver(log: seq<Event>, history: seq<Moment>, preamble: string, i: nat)
    requires Witnessed(log, history, preamble) && i < |log| && log[i].SawThread?
    ensures |history| == |log| && log[i].thread in history[i].target.threads
    ensures history[i].target.threads[log[i].thread].messages == log[i].messages
    ensures forall j :: 0 <= j < |log[i].messages| && IsDeliveredHandover(log[i].messages[j], preamble) ==>
              HandedBySomeone(log[i].thread, log[i].messages[j].content, log[..i], history[i].foreign)
  {
    hide IsDeliveredHandover, RunOf, ViewOf, Witnessed;
    TrueUpTo(log, history, preamble, i);
    ViewExplained(log[..i], preamble);
  }

  /**
   * The source is retired only with no chat to move, or after the chosen chat was seen
   * handed over in this run; and this run queued its message there exactly if the first
   * look at that chat showed no handover.
   */
  lemma ArchivedOnlyAfterDelivery(log: seq<Event>, preamble: string, i: nat)
    requires Safe(log, preamble) && i < |log| && log[i].ArchiveSent?
    ensures var run := RunOf(log[..i]);
            || Moving(None) in run
            || exists t, a, b, shows :: ChosenAt(run, t, a) && FirstSeenAt(run, t, a, b, shows, preamble)
                 && ShownIn(run, t, preamble) && (shows <==> !QueuedIn(run, t))
  {
    hide RunOf, ViewOf, Safe, ExplainsSurvey, ExplainsStop, ExplainsPublished, ExplainsListing, ExplainsPlace,
         ExplainsChats, ExplainsAllRuns, Placed, MayChange, ShownIn, QueuedIn, ChosenAt, FirstSeenAt, UnseenBetween,
         ReplaysAsk, TranscriptIn;
    SafeUpTo(log, preamble, i);
    ViewExplained(log[..i], preamble);
    var v, run := ViewOf(log[..i], preamble), RunOf(log[..i]);
    if v.source.moving == Some(None) {
      assert Moving(None) in run;
    } else {
      var t, shows := v.target.thread.value, v.target.firstLook.value;
      var a :| FirstLookFrom(run, t, a, Some(shows), preamble);
      var b :| FirstSeenAt(run, t, a, b, shows, preamble);
      assert ShownIn(run, t, preamble);
    }
  }

  /** A look in this run showed the chat handed over, by an earlier event of the record or by another transfer. */
  ghost predicate FoundHandedOver(
    log: seq<Event>, history: seq<Moment>, t: ThreadId, k: int, i: nat, preamble: string)
    requires i <= |log| == |history|
  {
    && Start(log[..i]) <= k < i && LooksAtChat(log[k], t)
    && exists j :: 0 <= j < |log[k].messages| && IsDeliveredHandover(log[k].messages[j], preamble)
                   && HandedBySomeone(t, log[k].messages[j].content, log[..k], history[k].foreign)
  }

  /**
   * A chain of transfers goes on: where a chat moved and the source is retired, this run
   * queued its own message in the chat chosen, which follows a session started there, or
   * found it handed over already, by whom the record or the other transfers can tell.
   */
  lemma RetiredHandedOverOrFoundSo(log: seq<Event>, history: seq<Moment>, preamble: string, i: nat)
    requires Safe(log, preamble) && Witnessed(log, history, preamble) && i < |log| && log[i].ArchiveSent?
    requires Moving(None) !in RunOf(log[..i])
    ensures |history| == |log|
    ensures var run := RunOf(log[..i]);
            exists t, a :: ChosenAt(run, t, a)
                           && ((exists c, workspace :: QueueSent(t, c) in run && SpawnSent(workspace, t) in run)
                               || exists k :: FoundHandedOver(log, history, t, k, i, preamble))
  {
    hide RunOf, Start, ViewOf, Safe, Witnessed, ChosenAt, HasDeliveredHandover, UnseenBetween, ShownIn;
    TrueUpTo(log, history, preamble, i);
    ArchivedOnlyAfterDelivery(log, preamble, i);
    var run := RunOf(log[..i]);
    var t, a, b, shows :| ChosenAt(run, t, a) && FirstSeenAt(run, t, a, b, shows, preamble)
                          && ShownIn(run, t, preamble) && (shows <==> !QueuedIn(run, t));
    if shows {
      var k := RunEventAt(log[..i], run[b]);
      assert log[k] == log[..i][k];
      ShownWasHanded(log, history, preamble, t, k, i);
    } else {
      var c :| QueueSent(t, c) in run;
      QueuedAfterSession(log, preamble, i, t, c);
    }
  }

  lemma ShownWasHanded(log: seq<Event>, history: seq<Moment>, preamble: string, t: ThreadId, k: nat, i: nat)
    requires Witnessed(log, history, preamble) && i < |log| == |history| && Start(log[..i]) <= k < i
    requires LooksAtChat(log[k], t) && HasDeliveredHandover(log[k].messages, preamble)
    ensures FoundHandedOver(log, history, t, k, i, preamble)
  {
    hide Start, Witnessed, IsDeliveredHandover, HandedBySomeone;
    DeliveredMeansHandedOver(log, history, preamble, k);
    var j :| 0 <= j < |log[k].messages| && IsDeliveredHandover(log[k].messages[j], preamble);
  }

  lemma QueuedAfterSession(log: seq<Event>, preamble: string, i: nat, t: ThreadId, c: string)
    requires Safe(log, preamble) && i < |log| && QueueSent(t, c) in RunOf(log[..i])
    ensures exists workspace :: SpawnSent(workspace, t) in RunOf(log[..i])
  {
    hide Safe, RunOf, Start;
    var run := RunOf(log[..i]);
    var n: nat :| n < |run| && run[n] == QueueSent(t, c);
    var at := RunIndexAt(log[..i], n);
    assert log[..i][at] == log[at] && log[..i][..at] == log[..at];
    HandoverFollowsSession(log, preamble, at);
    var workspace :| SpawnSent(workspace, t) in RunOf(log[..at]);
    assert SpawnSent(workspace, t) in run;
  }

  /** Another transfer handed this chat over between the two moments. */
  ghost predicate HandedMeanwhile(before: Moment, after: Moment, t: ThreadId) {
    exists c :: (t, c) in after.foreign && (t, c) !in before.foreign
  }

  lemma SeededWasNeverHanded(log: seq<Event>, history: seq<Moment>, preamble: string, m: nat, t: ThreadId)
    requires Witnessed(log, history, preamble) && m < |log| && log[m].Imported? && log[m].seeded == Some(t)
    ensures |history| == |log|
    ensures forall c :: QueueSent(t, c) !in log[..m] && (t, c) !in history[m].foreign
  {
    hide ViewOf, Witnessed, RunOf, NameInUse;
    TrueUpTo(log, history, preamble, m);
    ViewExplained(log[..m], preamble);
  }

  lemma IsInPrefix(log: seq<Event>, m: nat, q: nat)
    requires q < m <= |log|
    ensures log[q] in log[..m]
  {
    assert log[..m][q] == log[q];
  }

  lemma QueuedSinceImport(log: seq<Event>, i: nat, m: nat, k: nat, t: ThreadId, c: string)
    requires i < |log| && Start(log[..i]) <= m < k < i
    requires QueueSent(t, c) in log[..k] && QueueSent(t, c) !in log[..m]
    ensures QueuedIn(RunOf(log[..i]), t)
  {
    hide Start;
    var q: nat :| q < k && log[..k][q] == QueueSent(t, c);
    assert log[q] == log[..k][q] == log[..i][q];
    if q < m {
      IsInPrefix(log, m, q);
    }
    assert RunOf(log[..i])[q - Start(log[..i])] == QueueSent(t, c);
  }

  /**
   * So a second hop starts the conversation again: in a chat this run's own import seeded,
   * whatever preambles came along in it, this run's message was queued, unless another
   * transfer handed that very chat over after the import.
   */
  lemma SeededChatGetsItsMessage(
    log: seq<Event>, history: seq<Moment>, preamble: string, i: nat, m: nat, t: ThreadId, a: int)
    requires Safe(log, preamble) && Witnessed(log, history, preamble) && i < |log| && log[i].ArchiveSent?
    requires Moving(None) !in RunOf(log[..i]) && ChosenAt(RunOf(log[..i]), t, a)
    requires Start(log[..i]) <= m < Start(log[..i]) + a && log[m].Imported? && log[m].seeded == Some(t)
    ensures |history| == |log|
    ensures QueuedIn(RunOf(log[..i]), t)
            || exists k :: m < k < i && LooksAtChat(log[k], t) && HandedMeanwhile(history[m], history[k], t)
  {
    hide RunOf, Start, ViewOf, Safe, Witnessed, HasDeliveredHandover, UnseenBetween, ShownIn, IsDeliveredHandover,
         QueuedIn;
    TrueUpTo(log, history, preamble, i);
    ArchivedOnlyAfterDelivery(log, preamble, i);
    var run := RunOf(log[..i]);
    var t', a', b, shows :| ChosenAt(run, t', a') && FirstSeenAt(run, t', a', b, shows, preamble)
                            && ShownIn(run, t', preamble) && (shows <==> !QueuedIn(run, t'));
    assert a == a' && t == t' by {
      assert run[a].ThreadChosen? && run[a'].ThreadChosen?;
    }
    if shows {
      var k := RunIndexAt(log[..i], b);
      assert log[k] == log[..i][k];
      ShownWasHanded(log, history, preamble, t, k, i);
      var j :| 0 <= j < |log[k].messages| && IsDeliveredHandover(log[k].messages[j], preamble)
               && HandedBySomeone(t, log[k].messages[j].content, log[..k], history[k].foreign);
      SeededWasNeverHanded(log, history, preamble, m, t);
      var c := log[k].messages[j].content;
      if QueueSent(t, c) in log[..k] {
        QueuedSinceImport(log, i, m, k, t, c);
      } else {
        assert HandedMeanwhile(history[m], history[k], t);
      }
    }
  }

  // ---------------------------------------------------------------- never twice

  /** A chat once seen handed over is never handed anything again, nor given a session, by any run. */
  lemma NeverHandedOverTwice(log: seq<Event>, preamble: string, i: nat, j: nat)
    requires Safe(log, preamble) && i < j < |log|
    requires log[i].SawThread? && HasDeliveredHandover(log[i].messages, preamble)
    ensures !(log[j].QueueSent? && log[j].thread == log[i].thread)
    ensures !(log[j].SpawnSent? && log[j].thread == log[i].thread)
  {
    hide RunOf, ViewOf, Safe, HasDeliveredHandover, ReplaysAsk, StartsWith, MayChange, PlacedName;
    SafeUpTo(log, preamble, j);
    ViewExplained(log[..j], preamble);
    assert log[..j][i] == log[i];
  }

  /**
   * Where a chat of the listing was found not handed over: it would not be read, or the
   * daemon held no handover in it.
   */
  ghost predicate FoundWithout(log: seq<Event>, history: seq<Moment>, c: ThreadId, start: nat, i: nat, preamble: string)
    requires i <= |log| == |history|
  {
    || (exists k :: start <= k < i && log[k] == SawNoThread(c))
    || (exists k :: start <= k < i && LooksAtChat(log[k], c) && c in history[k].target.threads
                    && !HasDeliveredHandover(history[k].target.threads[c].messages, preamble))
  }

  /** Some look before `i` showed this chat handed over, in this run or any before it. */
  ghost predicate SeenHandedOver(log: seq<Event>, c: ThreadId, i: nat, preamble: string)
    requires i <= |log|
  {
    exists k :: 0 <= k < i && LooksAtChat(log[k], c) && HasDeliveredHandover(log[k].messages, preamble)
  }

  /** Every chat of the workspace at `at`, archived ones aside, was found without a handover before `i`. */
  ghost predicate NoneHandedOver(log: seq<Event>, history: seq<Moment>, at: nat, start: nat, i: nat, preamble: string)
    requires at < |log| == |history| && i <= |log| && log[at].SawTargetChats?
  {
    forall c :: c in history[at].target.threads && history[at].target.threads[c].workspace == log[at].workspace
                && !history[at].target.threads[c].archived
                ==> FoundWithout(log, history, c, start, i, preamble)
                    && (SeenHandedOver(log, c, i, preamble) ==> exists k :: start <= k < i && log[k] == SawNoThread(c))
  }

  /** In a workspace that was found there, not put there by this run. */
  ghost predicate HandsOverInFound(log: seq<Event>, history: seq<Moment>, i: nat, preamble: string)
    requires i < |log| == |history|
  {
    var start := Start(log[..i]);
    exists at, w, q :: start <= at < i && Adopted(q, w) in RunOf(log[..i])
                       && log[at].SawTargetChats? && log[at].workspace == w.name
                       && NoneHandedOver(log, history, at, start, i, preamble)
  }

  /** A run hands over only while no look of its own has shown a handover in any chat. */
  lemma NothingShownSoFar(log: seq<Event>, preamble: string, i: nat)
    requires Safe(log, preamble) && i < |log| && log[i].QueueSent?
    ensures forall t :: !ShownIn(RunOf(log[..i]), t, preamble)
  {
    hide RunOf, ViewOf, Safe, HasDeliveredHandover, ReplaysAsk, StartsWith, MayChange, ShownIn, ExplainsSurvey,
         ExplainsStop, ExplainsRead, ExplainsPublished, ExplainsListing, ExplainsPlace, ExplainsChats,
         ExplainsFirstLook, ExplainsSent;
    SafeUpTo(log, preamble, i);
    ViewExplained(log[..i], preamble);
  }

  /** The chat handed over was chosen earlier in the run. */
  lemma ChosenBefore(log: seq<Event>, preamble: string, i: nat) returns (k: nat)
    requires Safe(log, preamble) && i < |log| && log[i].QueueSent?
    ensures var start, run := Start(log[..i]), RunOf(log[..i]);
            && start <= k < i && log[k] == ThreadChosen(log[i].thread)
            && Start(log[..k]) == start && RunOf(log[..k]) <= run
  {
    hide ViewOf, Safe, HasDeliveredHandover, ReplaysAsk, StartsWith, MayChange, ExplainsSurvey, ExplainsStop, Start,
         ExplainsRead, ExplainsPublished, ExplainsListing, ExplainsPlace, ExplainsChats, ExplainsConfirmed,
         ExplainsSent, ExplainsAllRuns, FirstSeenAt, UnseenBetween;
    var before := log[..i];
    SafeUpTo(log, preamble, i);
    ViewExplained(before, preamble);
    var v := ViewOf(before, preamble);
    var a :| FirstLookFrom(RunOf(before), log[i].thread, a, v.target.firstLook, preamble);
    k := Start(before) + a;
    assert before[k] == log[k];
    RunUpTo(before, k);
    assert before[..k] == log[..k];
  }

  /** A chat that was read in this run, and did not show a handover, had never shown one before. */
  lemma ReadWithout(log: seq<Event>, history: seq<Moment>, preamble: string, c: ThreadId, p: nat, i: nat)
    requires Safe(log, preamble) && Witnessed(log, history, preamble) && i <= |log| && Start(log[..i]) <= p < i
    requires LooksAtChat(log[p], c) && !ShownIn(RunOf(log[..i]), c, preamble)
    ensures |history| == |log| && !SeenHandedOver(log, c, i, preamble)
    ensures FoundWithout(log, history, c, Start(log[..i]), i, preamble)
  {
    hide RunOf, ViewOf, Safe, HasDeliveredHandover, ExplainsSurvey, ExplainsStop, ExplainsFirstLook, Start,
         Witnessed, ExplainsRead, ExplainsPublished, ExplainsListing, ExplainsPlace, ExplainsChats,
         ExplainsConfirmed, ExplainsSent;
    SafeUpTo(log, preamble, p);
    TrueUpTo(log, history, preamble, p);
    ViewExplained(log[..p], preamble);
    UnshownLook(log[..i], preamble, c, p);
    forall j | 0 <= j < i && LooksAtChat(log[j], c)
      ensures !HasDeliveredHandover(log[j].messages, preamble)
    {
      if j < p {
        assert log[..p][j] == log[j];
      } else {
        UnshownLook(log[..i], preamble, c, j);
      }
    }
  }

  lemma UnshownLook(log: seq<Event>, preamble: string, c: ThreadId, j: nat)
    requires Start(log) <= j < |log| && LooksAtChat(log[j], c) && !ShownIn(RunOf(log), c, preamble)
    ensures !HasDeliveredHandover(log[j].messages, preamble)
  {
    hide Start, HasDeliveredHandover;
    assert RunOf(log)[j - Start(log)] == log[j];
    assert log[j] == SawThread(c, log[j].messages);
  }

  /** With no handover shown, looking at enough chats is looking at all of them. */
  lemma EveryChatAsked(v: View, run: seq<Event>, c: ListedChat)
    requires ExplainsChats(v, run) && ChatsRead(v.target, v.preamble)
    requires forall t :: !ShownIn(run, t, v.preamble)
    requires c in v.target.chats && Unarchived(c)
    ensures c.id in v.target.asked
  {
    hide HasDeliveredHandover, LiveChats;
    var live := LiveChats(v.target.chats);
    LiveChatsAre(v.target.chats, c);
    var x :| 0 <= x < |live| && live[x] == c;
    forall y | 0 <= y < |live|
      ensures !Delivered(v.target.replies, live[y].id, v.preamble)
    {
      assert !ShownIn(run, live[y].id, v.preamble);
    }
  }

  lemma ShownEarlier(earlier: seq<Event>, run: seq<Event>, t: ThreadId, preamble: string)
    requires earlier <= run && ShownIn(earlier, t, preamble)
    ensures ShownIn(run, t, preamble)
  {
    hide HasDeliveredHandover;
    var m :| SawThread(t, m) in earlier && HasDeliveredHandover(m, preamble);
    assert SawThread(t, m) in run;
  }

  /** A chat asked about by the time of the choice at `k` was found without a handover. */
  lemma AskedIsWithout(log: seq<Event>, history: seq<Moment>, preamble: string, c: ThreadId, k: nat, i: nat)
    requires Safe(log, preamble) && Witnessed(log, history, preamble) && k < i <= |log|
    requires Start(log[..k]) == Start(log[..i]) && c in ViewOf(log[..k], preamble).target.asked
    requires !ShownIn(RunOf(log[..i]), c, preamble)
    ensures |history| == |log|
    ensures FoundWithout(log, history, c, Start(log[..i]), i, preamble)
    ensures SeenHandedOver(log, c, i, preamble) ==> exists p :: Start(log[..i]) <= p < i && log[p] == SawNoThread(c)
  {
    hide RunOf, ViewOf, Safe, HasDeliveredHandover, ExplainsSurvey, ExplainsStop, ExplainsFirstLook, Start,
         Witnessed, ExplainsRead, ExplainsPublished, ExplainsListing, ExplainsPlace, ExplainsConfirmed, ExplainsSent,
         ExplainsAllRuns, ShownIn, SeenHandedOver;
    var v := ViewOf(log[..k], preamble);
    ViewExplained(log[..k], preamble);
    TrueUpTo(log, history, preamble, k);
    if c in v.target.replies {
      var p := RunEventAt(log[..k], SawThread(c, v.target.replies[c]));
      assert log[..k][p] == log[p];
      ReadWithout(log, history, preamble, c, p, i);
    } else {
      var p := RunEventAt(log[..k], SawNoThread(c));
      assert log[..k][p] == log[p];
    }
  }

  /** The workspace was found there: every chat it listed was asked about. */
  lemma FoundHadNone(log: seq<Event>, history: seq<Moment>, preamble: string, k: nat, i: nat)
    requires Safe(log, preamble) && Witnessed(log, history, preamble) && k < i < |log| == |history|
    requires Start(log[..k]) == Start(log[..i]) && RunOf(log[..k]) <= RunOf(log[..i])
    requires forall t :: !ShownIn(RunOf(log[..i]), t, preamble)
    requires var t := ViewOf(log[..k], preamble).target; t.placed.Existing? && ChatsRead(t, preamble)
    ensures HandsOverInFound(log, history, i, preamble)
  {
    hide RunOf, ViewOf, Safe, HasDeliveredHandover, ExplainsSurvey, ExplainsStop, ExplainsFirstLook, Start, Witnessed,
         ExplainsRead, ExplainsPublished, ExplainsListing, ExplainsConfirmed, ExplainsSent, ExplainsAllRuns,
         ShownIn, SeenHandedOver, FoundWithout, LookedEnough, LiveChats;
    var v, run, start := ViewOf(log[..k], preamble), RunOf(log[..i]), Start(log[..i]);
    ViewExplained(log[..k], preamble);
    var w, q := v.target.placed.workspace, v.target.request.value;
    assert Adopted(q, w) in run;
    var at := RunEventAt(log[..k], SawTargetChats(w.name, v.target.chats));
    assert log[..k][at] == log[at];
    TrueUpTo(log, history, preamble, at);
    var threads := history[at].target.threads;
    forall t
      ensures !ShownIn(RunOf(log[..k]), t, preamble)
    {
      if ShownIn(RunOf(log[..k]), t, preamble) {
        ShownEarlier(RunOf(log[..k]), run, t, preamble);
      }
    }
    forall c | c in threads && threads[c].workspace == w.name && !threads[c].archived
      ensures FoundWithout(log, history, c, start, i, preamble)
      ensures SeenHandedOver(log, c, i, preamble) ==> exists p :: start <= p < i && log[p] == SawNoThread(c)
    {
      assert ListedChat(c, threads[c]) in v.target.chats;
      EveryChatAsked(v, RunOf(log[..k]), ListedChat(c, threads[c]));
      AskedIsWithout(log, history, preamble, c, k, i);
    }
  }

  ghost predicate ImportedIn(run: seq<Event>) {
    exists k :: 0 <= k < |run| && run[k].Imported?
  }

  /**
   * A retry queues nothing where the handover arrived. A run hands over only in a workspace
   * it imported itself, or in one where every chat it listed was read and held no handover,
   * or would not be read; and a chat any run ever saw handed over is one that would not be.
   */
  lemma RetryQueuesNothing(log: seq<Event>, history: seq<Moment>, preamble: string, i: nat)
    requires Safe(log, preamble) && Witnessed(log, history, preamble) && i < |log| && log[i].QueueSent?
    ensures |history| == |log|
    ensures forall t :: !ShownIn(RunOf(log[..i]), t, preamble)
    ensures ImportedIn(RunOf(log[..i])) || HandsOverInFound(log, history, i, preamble)
  {
    hide RunOf, ViewOf, Safe, HasDeliveredHandover, ExplainsSurvey, ExplainsStop, ExplainsFirstLook, Start,
         Witnessed, ExplainsRead, ExplainsPublished, ExplainsListing, ExplainsConfirmed, ExplainsSent,
         ExplainsAllRuns, ExplainsChats, ShownIn, HandsOverInFound, LookedEnough, LiveChats, KeptBranch, OwnThread;
    NothingShownSoFar(log, preamble, i);
    TrueUpTo(log, history, preamble, i);
    var k := ChosenBefore(log, preamble, i);
    SafeUpTo(log, preamble, k);
    ViewExplained(log[..k], preamble);
    var placed := ViewOf(log[..k], preamble).target.placed;
    if placed.Existing? {
      FoundHadNone(log, history, preamble, k, i);
    } else {
      assert Imported(placed.name, placed.branch, placed.seeded) in RunOf(log[..i]);
    }
  }

  // ---------------------------------------------------------------- what is handed over

  /**
   * The message follows a session, in the chosen chat, after a first look that showed no
   * handover, and opens with the preamble.
   */
  lemma HandoverFollowsSession(log: seq<Event>, preamble: string, i: nat)
    requires Safe(log, preamble) && i < |log| && log[i].QueueSent?
    ensures var run, t := RunOf(log[..i]), log[i].thread;
            && (exists workspace :: SpawnSent(workspace, t) in run)
            && (exists a, b :: ChosenAt(run, t, a) && FirstSeenAt(run, t, a, b, false, preamble))
            && StartsWith(log[i].content, preamble)
  {
    hide RunOf, ViewOf, Safe, HasDeliveredHandover, ReplaysAsk, StartsWith, MayChange, ExplainsSurvey, ExplainsStop,
         ExplainsRead, ExplainsPublished, ExplainsListing, ExplainsPlace, ExplainsChats, ExplainsConfirmed,
         ExplainsAllRuns, FirstSeenAt, UnseenBetween, ChosenAt, QueuedIn;
    SafeUpTo(log, preamble, i);
    ViewExplained(log[..i], preamble);
    var t := log[i].thread;
    var a :| FirstLookFrom(RunOf(log[..i]), t, a, Some(false), preamble);
    var b :| FirstSeenAt(RunOf(log[..i]), t, a, b, false, preamble);
  }

  /** A conversation that ended on a person's words has them repeated in what is handed over. */
  lemma HandoverRepeatsTheAsk(log: seq<Event>, preamble: string, i: nat)
    requires Safe(log, preamble) && i < |log| && log[i].QueueSent?
    ensures exists t, transcript ::
              SawTranscript(t, transcript) in RunOf(log[..i]) && ReplaysAsk(transcript, log[i].content)
  {
    hide RunOf, ViewOf, Safe, HasDeliveredHandover, ReplaysAsk, StartsWith, MayChange, ExplainsSurvey, ExplainsStop,
         ExplainsFirstLook, ExplainsPublished, ExplainsListing, ExplainsPlace, ExplainsChats, ExplainsConfirmed,
         ExplainsSent, ExplainsAllRuns;
    SafeUpTo(log, preamble, i);
    ViewExplained(log[..i], preamble);
    var transcript := ViewOf(log[..i], preamble).source.transcript.value;
    var t :| SawTranscript(t, transcript) in RunOf(log[..i]);
  }

  // ---------------------------------------------------------------- an error is taken for an exit

  const SESSION := SessionId(1)
  const CHAT := ThreadId(1)

  /** A source with one chat, held by a session that goes on running. */
  ghost function BusySource(): Daemon {
    Daemon([], [], map[CHAT := Thread("berlin", "codex", "", 0, false, [], [], [], Some(SESSION))], 2,
           map[SESSION := true])
  }

  ghost predicate SafeAndTrue(log: seq<Event>, history: seq<Moment>, preamble: string, v: View) {
    |history| == |log| && ViewOf(log, preamble) == v && Safe(log, preamble) && Witnessed(log, history, preamble)
  }

  lemma OneMore(log: seq<Event>, history: seq<Moment>, preamble: string, v: View, e: Event, m: Moment)
    requires SafeAndTrue(log, history, preamble, v) && IsSourceEvent(e) && SourceStepOk(v, e) && Truthful(v, e, m)
    ensures SafeAndTrue(log + [e], history + [m], preamble, v.(source := NextSource(v.source, e)))
  {
    hide Safe, ViewOf, Witnessed, SourceStepOk, Truthful, NextSource, StepOk, NextView;
    SourceEvents(v, e);
    Appended(log, history, e, m, preamble);
  }

  lemma JustBegun(preamble: string, m: Moment)
    ensures SafeAndTrue([RunStarted(true, Some(CHAT))], [m], preamble,
                        EmptyView(preamble).(runs := 1, force := true, choice := Some(CHAT)))
  {
    hide Safe, ViewOf, Witnessed;
    Appended([], [], RunStarted(true, Some(CHAT)), m, preamble);
    assert [] + [RunStarted(true, Some(CHAT))] == [RunStarted(true, Some(CHAT))] && [] + [m] == [m];
    NothingWritten(preamble);
  }

  lemma NothingWritten(preamble: string)
    ensures SafeAndTrue([], [], preamble, EmptyView(preamble))
  {
  }

  ghost function BusyChats(): seq<ListedChat> {
    [ListedChat(CHAT, BusySource().threads[CHAT])]
  }

  /** The chat was listed, asked, and is the one that moves. */
  ghost function Survey(): seq<Event> {
    [RunStarted(true, Some(CHAT))] + [SawChats("berlin", BusyChats())] + [SawSession(CHAT, Some(SESSION))]
    + [Moving(Some(CHAT))]
  }

  /** Its session was told to stop, nobody would say whether it had, and the workspace was published. */
  ghost function Publication(): seq<Event> {
    Survey() + [KillSent(SESSION)] + [SawError(SESSION)] + [CommitSent("berlin", {SESSION})]
    + [PushSent("berlin", {SESSION})]
  }

  ghost predicate IsSurveyed(v: View) {
    && v.source == NO_SOURCE.(of := Some("berlin"), chats := BusyChats(), asked := map[CHAT := Some(SESSION)],
                              live := {SESSION}, moving := Some(Some(CHAT)))
    && v.force && MayChange(v)
  }

  lemma BusyChatIsFound(preamble: string, m: Moment) returns (v: View)
    requires m.source == BusySource()
    ensures SafeAndTrue(Survey(), [m] + [m] + [m] + [m], preamble, v) && IsSurveyed(v)
  {
    hide SafeAndTrue;
    JustBegun(preamble, m);
    var log: seq<Event>;
    log, v := [RunStarted(true, Some(CHAT))], EmptyView(preamble).(runs := 1, force := true, choice := Some(CHAT));
    OneMore(log, [m], preamble, v, SawChats("berlin", BusyChats()), m);
    log, v := log + [SawChats("berlin", BusyChats())],
      v.(source := NextSource(v.source, SawChats("berlin", BusyChats())));
    OneMore(log, [m] + [m], preamble, v, SawSession(CHAT, Some(SESSION)), m);
    log := log + [SawSession(CHAT, Some(SESSION))];
    v := v.(source := NextSource(v.source, SawSession(CHAT, Some(SESSION))));
    BusyChatMoves(v, BusyChats());
    OneMore(log, [m] + [m] + [m], preamble, v, Moving(Some(CHAT)), m);
    v := v.(source := NextSource(v.source, Moving(Some(CHAT))));
  }

  lemma BusyChatMoves(v: View, listed: seq<ListedChat>)
    requires v.choice == Some(CHAT) && v.source.of.Some? && v.source.chats == listed && |listed| == 1
    requires listed[0].id == CHAT && !listed[0].thread.archived && CHAT in v.source.asked
    ensures MovesRight(v, Some(CHAT))
  {
    assert listed[..0] == [];
    var chats := ChatsOf(listed, v.source.asked);
    assert |chats| == 1 && chats[0].thread == CHAT;
  }

  lemma PublishedAfterAnError(log: seq<Event>, history: seq<Moment>, preamble: string, v: View, m: Moment)
    returns (v': View)
    requires SafeAndTrue(log, history, preamble, v) && MayChange(v) && v.force
    requires v.source.of == Some("berlin") && v.source.live == {SESSION} && v.source.moving.Some?
    requires v.source.ended == {} && SessionsIn(m.source) == {SESSION}
    ensures SafeAndTrue(log + [KillSent(SESSION)] + [SawError(SESSION)] + [CommitSent("berlin", {SESSION})]
                        + [PushSent("berlin", {SESSION})],
                        history + [m] + [m] + [m] + [m], preamble, v')
  {
    hide SafeAndTrue, AllAsked, SessionsIn;
    var s := v.source;
    var s1 := s.(killed := s.killed + {SESSION});
    OneMore(log, history, preamble, v, KillSent(SESSION), m);
    var s2 := s1.(errored := s1.errored + {SESSION});
    OneMore(log + [KillSent(SESSION)], history + [m], preamble, v.(source := s1), SawError(SESSION), m);
    var s3 := s2.(committed := Some("berlin"));
    OneMore(log + [KillSent(SESSION)] + [SawError(SESSION)], history + [m] + [m], preamble, v.(source := s2),
            CommitSent("berlin", {SESSION}), m);
    OneMore(log + [KillSent(SESSION)] + [SawError(SESSION)] + [CommitSent("berlin", {SESSION})],
            history + [m] + [m] + [m], preamble, v.(source := s3), PushSent("berlin", {SESSION}), m);
    v' := v.(source := NextSource(s3, PushSent("berlin", {SESSION})));
  }

  lemma SessionIsThere()
    ensures SessionsIn(BusySource()) == {SESSION}
  {
  }

  /**
   * An error answer does not mean the session is gone: this record is safe and true, and
   * the session seen live and told to stop is still running at the push. By
   * `PublishedOnlyAfterStop` an error answer is the only way.
   */
  lemma ErroredSessionMayStillRun(preamble: string, m: Moment) returns (history: seq<Moment>)
    requires m.source == BusySource()
    ensures Safe(Publication(), preamble) && Witnessed(Publication(), history, preamble)
    ensures |history| == |Publication()| && forall k :: 0 <= k < |history| ==> Running(history[k].source, SESSION)
  {
    hide SafeAndTrue, SessionsIn, MayChange, Survey;
    var v := BusyChatIsFound(preamble, m);
    SessionIsThere();
    history := [m] + [m] + [m] + [m];
    var v' := PublishedAfterAnError(Survey(), history, preamble, v, m);
    history := history + [m] + [m] + [m] + [m];
    RecordIsWhole(Publication(), history, preamble, v');
  }

  lemma RecordIsWhole(log: seq<Event>, history: seq<Moment>, preamble: string, v: View)
    requires SafeAndTrue(log, history, preamble, v)
    ensures Safe(log, preamble) && Witnessed(log, history, preamble) && |history| == |log|
  {
  }
}
