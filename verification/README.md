# Verified model of Archductor's protocols and codecs

Archductor runs coding agents in workspaces, on one or more `archcar` daemons. This project models the parts of it
whose correctness does not show in any one function, in Dafny 4.11, and proves what they promise. `dafny verify
dfyconfig.toml` checks everything.

- **Transfer** (`TransferWorld`, `TransferDecisions`, `RepositoryUrl`, `TransferRecord`, `Transfer`, `TransferRun`,
  `TransferTheorems`): `archductor remote transfer` moves a workspace and its chat from one daemon
  to another in five steps. Both daemons are state; between any two requests, sessions claim queued inputs, write or
  requeue them, agents commit, operators archive and open chats, other transfers hand chats over. Every request may
  be lost, refused, answered oddly, or carried out with its answer lost. The record holds what the command sent and
  saw, and both daemons as they were at each event. `Witnessed` says that what was seen was so, and no event can be
  written down otherwise; `Safe` says which events may come next, decided from the record alone; the methods prove
  that every run and re-run keeps the record safe and that what they return is computed from what was seen; the
  theorems say what such a record means.
- **Status** (`AgentStatus`): reading a daemon's answer and a session's events without a lock, against a loop that
  writes both in a fixed order.
- **Background tasks** (`BackgroundTasks`): the supervisor's state machine over agents, checks and remotes, with other
  tickers and cancels waiting for the claim and two writers that do not. `alone` says whether they stay away.
- **Saved clients** (`ClientIds`, `SavedClients`, `ClientHandlers`): the switcher's list, the mirror file, and the
  handlers on the objects they mutate, which wait for a daemon while other handlers run.
- **Icons** (`PngRows`, `PngImage`, `IcnsContainer`): scanline reconstruction in place, the row loop, the container.
- **Tokens and text** (`ChatAttachments`, `AttachmentTokens`, `AgentNaming`, `JsonObjects`, `ChatProjection`,
  `LineFraming`, `ShellQuoting`, `TerminalCommands`).
- `Options` and `Text` hold what the rest shares.

Code that changes state step by step is a class or a method with loops, proved against functions of the old state;
pure code is functions.

## What the transfer's proofs assume

Nobody but a transfer, this command's or another's, types its preamble into a chat (`Permitted`). A target may have
been handed chats before the record begins, and may be by others at any time since: `World.foreign` is the set of
those handovers, made to chats whose ids the target had given out by then, and every preamble on a target is in it or
was queued by a recorded run. Chat and session ids are never reused; message rows are only ever added to a chat that
exists; a session that ended stays ended. A daemon keeps a requested workspace name that is free and versions one
that is taken.

## Where the code and its comments part

- `target_thread_for` (crates/cli/src/main.rs:7283-7285) says the caller refuses rather than resumes into the newest
  chat when no chat holds the conversation. It refuses only when the workspace has no chat at all;
  `BareChatChosenExactlyWhen` says when a bare chat is chosen.
- `wait_for_source_session_exit` (crates/cli/src/main.rs:6797-6815) means "unknown session" but takes every error
  answer for one. By `PublishedOnlyAfterStop` an error answer is the only way a session seen live can run at the
  push, and `ErroredSessionMayStillRun` is a record in which one does.
- Without a pushed commit, `existing_target_workspace` (crates/cli/src/main.rs:7094-7103) does not look at the name,
  so a re-run can import beside a workspace the daemon versioned; `UnknownCommitCanImportBeside` is such a case, and
  `KnownCommitNeverImportsBeside` shows that a known commit rules it out.
- `read_session` (crates/core/src/agent_status.rs:365-368) says only two turns can mislead it once a turn without an
  end is set aside; that is exactly `FooledOnlyByTwoTurns`.
- `quote_shell_word` (crates/cli/src/main.rs:8712-8720) leaves an empty word unquoted, so it disappears;
  `RoundTripExactlyWhenNonEmpty` says when words survive.
- `format_chat_projection` (crates/cli/src/main.rs:4287-4319) never prints an item on a cycle of parents, or under
  one; `LeftOutExactlyWhenCyclic` says so of items whose ids differ. It keeps no set of items seen:
  `LoopEndsExactlyWhen` says for which items it ends, and ids that differ are enough.
- `activateClients` (desktop/electron/main.ts:532-548) writes back the list it loaded before it waited, so it undoes
  whatever another handler saved meanwhile: `RollbackUndoesTheOthers`, and `RemovedClientComesBack` for one removal.
- A `mark_background_task_failed` that lands inside the pull request step (crates/core/src/background_tasks.rs:410-429)
  ends the task without stopping the request, as in `FailedTaskMayAskForItsPullRequest`. By `OnlyAStepUnderWayGoesOn`
  such a failure is the only way; by `NothingAfterCancel` a cancel is never overtaken like that.
- `transfer_resume_message` (crates/cli/src/main.rs:7416) says a pending ask is replayed verbatim; it is trimmed, and
  `PendingAskIsReplayed` says so.

## Model

| member | source | states |
|---|---|---|
| `TransferTheorems.ArchivedOnlyAfterDelivery` | crates/cli/src/main.rs:6544-6610 | In every sequence of runs, the source is archived only in a run that moved no chat, or that saw the chat it chose handed over; and that run queued its own message there exactly when its first look showed no handover |
| `TransferTheorems.RetiredHandedOverOrFoundSo` | crates/cli/src/main.rs:6544-6610 | When a chat moves and the source is retired, this run started a session and queued its message in the chat chosen, or a look of this run showed there a handover that an earlier event of the record or another transfer made |
| `TransferTheorems.SeededChatGetsItsMessage` | crates/cli/src/main.rs:7333-7376 | In a chat this run's own import seeded, whatever preambles were copied into it, this run's message was queued before the source is retired, unless another transfer handed that chat over after the import |
| `TransferTheorems.RetryQueuesNothing` | crates/cli/src/main.rs:7278-7331 | A run hands over only in a workspace it imported, or in one where every unarchived chat the target had was read and held no handover or would not be read; one any run ever saw handed over is one that would not be; and no chat was seen handed over in this run |
| `TransferTheorems.SecondImportOnlyOnceNameIsFree` | crates/cli/src/main.rs:6857-6999 | Between two imports under one name, the second for a known commit, there was a moment at which the target had no workspace of that name |
| `TransferTheorems.AdoptedAtItsCommit` | crates/cli/src/main.rs:7047-7162 | What is adopted was on the target, unarchived, in the repository it has under that URL, and with a known commit its head matched when that very workspace was looked at |
| `TransferTheorems.RenamedImportNeedsTheRepository` | crates/cli/src/main.rs:6952-6982 | An import put on another branch is followed by nothing unless the target listed the repository before |
| `TransferTheorems.PublishedOnlyAfterStop` | crates/cli/src/main.rs:6499-6521 | No commit or push before the source's chats were listed as they were, every unarchived one said which session held it, and that session was told to stop and seen ended (and is not running now), or the daemon answered an error about it |
| `TransferTheorems.ErroredSessionMayStillRun` | crates/cli/src/main.rs:6797-6815 | A concrete record, safe and true, in which a session seen live still runs at the push after an error answer |
| `TransferTheorems.TranscriptReadAfterStop` | crates/cli/src/main.rs:6502-6511 | The conversation that moves is the moving chat's, as it was once every unarchived chat was asked and every session found live was stopped |
| `TransferTheorems.RetiredIsWhatWasPublished` | crates/cli/src/main.rs:6499-6610 | The workspace retired is the one that was committed and then pushed earlier in the same run |
| `TransferTheorems.ImportCarriesTheSource` | crates/cli/src/main.rs:6513-6543 | An import carries a head read of the pushed workspace after the push, true then, and the moving chat's conversation, or none when no chat moves |
| `TransferTheorems.HandoverRepeatsTheAsk` | crates/cli/src/main.rs:7410-7445 | A handover ends with the last thing a person asked, when the conversation ends on one |
| `TransferTheorems.OnlyReadsBesideLiveSessions` | crates/cli/src/main.rs:6738-6772 | Nothing but reads is sent before every unarchived chat was asked for its session, and without `--force` none of them had a live one |
| `TransferTheorems.NeverHandedOverTwice` | crates/cli/src/main.rs:7338-7376 | Once any run has seen a chat handed over, no later event of any run queues a message or starts a session for it |
| `TransferTheorems.HandoverFollowsSession` | crates/cli/src/main.rs:7460-7522 | A handover goes to the chosen chat only, whose first look showed none, after its session was asked for, and opens with the preamble |
| `TransferTheorems.DeliveredMeansHandedOver` | crates/cli/src/main.rs:7342-7359 | Every delivered preamble seen in a chat was on the target then, and was queued for that chat by an earlier run or handed over by another transfer |
| `TransferTheorems.SafeUpTo` | crates/cli/src/main.rs:6463-6617 | Every prefix of a safe record is safe and allows the event that follows it |
| `TransferTheorems.TrueUpTo` | crates/cli/src/main.rs:6463-6617 | What an event says was seen was so on that daemon at that moment |
| `TransferTheorems.ViewExplained` | crates/cli/src/main.rs:6463-6617 | What the record is summarised to is backed by events in it, run by run |
| `TransferRun.RunAgainAndAgain` | crates/cli/src/main.rs:6339-6409 | Any number of runs, with any options, failures and interference, leave a safe record |
| `TransferRun.RunRemoteTransfer` | crates/cli/src/main.rs:6339-6409 | One daemon under two addresses is refused with nothing sent; success means archived, pushed, every chat's session accounted for, and the chat confirmed |
| `TransferRun.IdentityIsThePair` | crates/cli/src/main.rs:6294-6305 | The identity two daemons are told apart by is the same exactly when both its parts are |
| `TransferRun.TransferWorkspace` | crates/cli/src/main.rs:6463-6617 | One run keeps the record safe whatever fails; it finishes only with the named workspace committed, pushed and archived, every unarchived chat's session accounted for, and a chat confirmed |
| `TransferRun.MoveAcross` | crates/cli/src/main.rs:6474-6604 | Steps 1 to 4: success means everything the last step relies on, every unarchived chat's session included |
| `TransferRun.FindSource` | crates/cli/src/main.rs:6474-6475 | The workspace by its name and the URL of its repository, from the source's own lists |
| `TransferRun.TakeFromSource` | crates/cli/src/main.rs:6474-6521 | The chat asked for, or the latest of those the source listed; the transcript read after the stop; the head read after the push |
| `TransferRun.SourceChats` | crates/cli/src/main.rs:6687-6729 | The source's unarchived chats in the order listed, each with the live session the source answered; an unanswered one ends the step |
| `TransferRun.StopSourceSessions` | crates/cli/src/main.rs:6738-6793 | Without `--force`, any live session ends the step with nothing sent; success means every live session was told to stop and then seen ended or errored |
| `TransferRun.WaitForSourceSessionExit` | crates/cli/src/main.rs:6796-6825 | Returns only once the session was seen terminal or answered with an error; gives up after a bounded wait |
| `TransferRun.PublishSourceBranch` | crates/cli/src/main.rs:7772-7829 | Success means this workspace was committed, then pushed, and its head then read back |
| `TransferRun.ListTarget` | crates/cli/src/main.rs:7054-7062 | The target's own lists, and the name it has for the repository |
| `TransferRun.TargetRepositoryName` | crates/cli/src/main.rs:7171-7200 | The name the target's own list has for the repository |
| `TransferRun.FindOwnAttempt` | crates/cli/src/main.rs:7106-7124 | The early-return loop looks at the unarchived workspaces of the repository in order and finds the first whose answered head matches |
| `TransferRun.ExistingTargetWorkspace` | crates/cli/src/main.rs:7047-7162 | The verdict is `Decide` of what the target listed and of the heads it answered, in the order it was asked |
| `TransferRun.TargetThreadFor` | crates/cli/src/main.rs:7287-7331 | The chat is `ChooseThread` of what the target's unarchived chats answered, newest first, all of them or down to the first handed over |
| `TransferRun.ImportOnTarget` | crates/cli/src/main.rs:6911-6982 | Imports only when the listing allows it; an answered import succeeds exactly when its branch is the one asked for or the repository was known; there is a chat exactly when a transcript was sent |
| `TransferRun.CreateOnTarget` | crates/cli/src/main.rs:6857-6999 | Imports under the name and branch specified, or adopts the workspace the target's answers decided on, or refuses; the chat is the one seeded, or the one the target's chats decided on |
| `TransferRun.ChatToResume` | crates/cli/src/main.rs:6549-6604 | A conversation with history but no chat to hold it is refused with nothing sent; an empty one gets a new chat |
| `TransferRun.TransferMessageDelivered` | crates/cli/src/main.rs:7360-7376 | True puts the chat among the confirmed; false shows it was never seen delivered |
| `TransferRun.ResumeOnTarget` | crates/cli/src/main.rs:7460-7564 | Success means the handover was seen delivered: by the first look, and then nothing was queued, or after this very message was; a shell gets nothing |
| `TransferRun.AwaitDelivery` | crates/cli/src/main.rs:7527-7562 | The wait succeeds only on a delivered row, and sends nothing but looks |
| `TransferRun.HandToTarget` | crates/cli/src/main.rs:6523-6604 | Create or adopt, then resume in the chat the workspace came with or a new one: success means that chat is confirmed, and an import went out as the options ask |
| `TransferDecisions.LatestChat` | crates/cli/src/main.rs:6494 | No chat was touched later than the one chosen |
| `Transfer.World.AskSourceChats` | crates/cli/src/main.rs:6687-6700 | An answer lists the workspace's chats as they are, each once |
| `Transfer.World.AskLiveSession` | crates/cli/src/main.rs:6710-6729 | An answer is the session holding the chat unless it is over |
| `Transfer.World.AskTargetHead` | crates/cli/src/main.rs:7229-7242 | An answer is the head of that workspace then; anything else shows none |
| `Transfer.World.AskTargetChats` | crates/cli/src/main.rs:7287-7298 | An answer lists the workspace's chats on the target as they are, each once |
| `Transfer.World.ImportWorkspace` | crates/cli/src/main.rs:6934-6999 | Carried out or lost, an import is recorded; an answer means the name is in use, and a chat exists exactly when a transcript was sent, a new one holding copies of it |
| `Transfer.World.AskSnapshot` | crates/cli/src/main.rs:7360-7366 | An answer is the chat's rows and session as they are, and never misses a handover seen before |
| `Transfer.World.AskTranscript` | crates/cli/src/main.rs:6657-6677 | Every row of the chat in order, recorded as what was read |
| `Transfer.World.AskSourceHead` | crates/cli/src/main.rs:7820-7829 | The head of the workspace as the source has it then |
| `Transfer.World.QueueInput` | crates/cli/src/main.rs:7504-7525 | A queued handover is recorded whether or not its answer came back |
| `Transfer.World.AskSessionEnded` | crates/cli/src/main.rs:6805-6815 | Only a terminal answer about this session records it as ended, and it stays so |
| `Transfer.World.CommitChanges` | crates/cli/src/main.rs:7799-7814 | At a commit, no session seen ended is running |
| `Transfer.World.PushBranch` | crates/cli/src/main.rs:7815-7820 | At a push, no session seen ended is running |
| `Transfer.World.Elapse` | crates/cli/src/main.rs:7342-7359 | Claims, writes, requeues, operators, agents and other transfers' handovers in any number keep both daemons in agreement with the record |
| `TransferWorld.EnvironmentKeepsTarget` | crates/cli/src/main.rs:7342-7359 | No step of the target's own can contradict what was seen or handed over |
| `TransferWorld.StaysGenuine` | crates/cli/src/main.rs:7352-7359 | A claim, write or requeue leaves every preamble accounted for by a handover |
| `TransferRecord.SnapshotAgrees` | crates/cli/src/main.rs:7360-7376 | Looking at a chat is always allowed by the record and keeps it true |
| `TransferRecord.HandingOverAgrees` | crates/cli/src/main.rs:7504-7525 | Queueing a handover, carried out or lost, keeps the preambles accounted for |
| `TransferRecord.EnvironmentAgrees` | crates/cli/src/main.rs:7342-7359 | Whatever happens on the target, another transfer's handover included, every preamble stays accounted for and what was seen stays |
| `TransferWorld.InputsAreConserved` | crates/cli/src/main.rs:7345-7351 | Claim, write and requeue neither lose nor copy an input |
| `TransferWorld.EmptyQueueIsNotDelivery` | crates/cli/src/main.rs:7345-7351 | A claimed handover empties the queue with nothing delivered, and a requeue restores it exactly |
| `TransferDecisions.MatchingIsAbbreviatingOneCommit` | crates/cli/src/main.rs:7217-7227 | Two shas match exactly when both abbreviate one hexadecimal sha, with seven digits or more |
| `TransferDecisions.AdoptMeans` | crates/cli/src/main.rs:7030-7139 | Adopting means this repository, not archived, and, with a known commit, a look at that workspace that matched it |
| `TransferDecisions.AdoptsExactlyWhen` | crates/cli/src/main.rs:7047-7139 | With a known commit, a retry resumes exactly when an unarchived workspace of the repository showed a head that matched, and the branch's own is not archived |
| `TransferDecisions.AbsentExactlyWhen` | crates/cli/src/main.rs:7047-7162 | Importing exactly when the branch is free in the repository and, with a known commit, the name is free machine-wide and no unarchived head there matches |
| `TransferDecisions.KnownCommitNeverImportsBeside` | crates/cli/src/main.rs:7141-7161 | A workspace still under the name is adopted or refused, whatever it has since committed or been versioned to |
| `TransferDecisions.UnknownCommitCanImportBeside` | crates/cli/src/main.rs:7094-7103 | Without a pushed commit the name is not looked at: a concrete workspace is imported beside |
| `TransferDecisions.FirstMatchIs` | crates/cli/src/main.rs:7106-7124 | None exactly when no look matched, and otherwise the candidate of the first look that did |
| `TransferDecisions.NewestFirstKeeps` | crates/cli/src/main.rs:7299-7303 | Sorting the chats loses and invents none |
| `TransferDecisions.LiveChatsAre` | crates/cli/src/main.rs:7299-7303 | What is sorted is exactly the unarchived chats |
| `TransferDecisions.FirstDelivered` | crates/cli/src/main.rs:7305-7330 | The first chat that was handed over, and none exactly when none was |
| `TransferDecisions.HandedOverChatWins` | crates/cli/src/main.rs:7281-7284 | A chat seen handed over is chosen before any other |
| `TransferDecisions.BareChatChosenExactlyWhen` | crates/cli/src/main.rs:7283-7331 | A chat with neither a handover nor copied history is chosen exactly when there are chats and none has either |
| `TransferDecisions.HandoverIsRecognised` | crates/cli/src/main.rs:7333-7376 | Every message the builder makes is recognised once written by a session, and never when copied |
| `TransferDecisions.PendingAskIsReplayed` | crates/cli/src/main.rs:7410-7445 | A transcript ending on the user ends the handover with that ask, trimmed and whole |
| `TransferDecisions.SeededRowsNeverCount` | crates/cli/src/main.rs:7352-7359 | Copied rows alone never count as a handover, and always as history |
| `RepositoryUrl.PlainUrl` | crates/cli/src/main.rs:7202-7215 | `scheme://host/owner/repo`, with or without `.git`, reduces to `owner/repo` |
| `RepositoryUrl.ScpUrl` | crates/cli/src/main.rs:7202-7215 | So does `user@host:owner/repo` |
| `RepositoryUrl.PortUrl` | crates/cli/src/main.rs:7202-7215 | So does `scheme://user@host:port/owner/repo` |
| `RepositoryUrl.SegmentsSplit` | crates/cli/src/main.rs:7210-7214 | The parts of a joined path are the parts of its two halves |
| `AgentStatus.FooledOnlyByTwoTurns` | crates/core/src/agent_status.rs:354-368 | An idle answer beside an open turn takes a turn that never ended, or a turn opening inside the first look, an end between the looks and another opening inside the second |
| `AgentStatus.NotFooledByOneTurn` | crates/core/src/agent_status.rs:354-400 | With at most one turn opening during the read and none abandoned, an open or finished turn is never reported as waiting for input |
| `AgentStatus.FooledExactlyWhen` | crates/core/src/agent_status.rs:369-400 | The double look is fooled exactly when both probes say idle and both event reads end in an open turn |
| `AgentStatus.TwoTurnsCanFool` | crates/core/src/agent_status.rs:365-368 | From any idle session, a whole turn and the start of another fool both looks |
| `AgentStatus.EventsFirstIsFooledByOneEnd` | crates/core/src/agent_status.rs:358-361 | Reading the events first is fooled by a single turn ending |
| `AgentStatus.IdleAnswerSeesTheEnd` | crates/core/src/agent_status.rs:358-361 | After an idle answer, the events hold the end of every turn unless another opened |
| `AgentStatus.SessionLoop.ReadSession` | crates/core/src/agent_status.rs:369-391 | The two looks, each at moments in order, against any number of ordered writes in between |
| `AgentStatus.SessionLoop.ReadOnce` | crates/core/src/agent_status.rs:376-385 | One look is a probe at one moment and events at a later one |
| `AgentStatus.SessionLoop.Progress` | crates/core/src/agent_status.rs:354-364 | The writer marks busy before an input and records an end before the ready mark |
| `BackgroundTasks.TerminalIsAbsorbing` | crates/core/src/background_tasks.rs:497-518 | After a status write that ends a task, its status is never written again |
| `BackgroundTasks.OnlyAStepUnderWayGoesOn` | crates/core/src/background_tasks.rs:284-289 | After the write that ends a task, only a summary or a pull request of a step under way can follow, and then that write was a failure recorded without the claim |
| `BackgroundTasks.NothingAfterCancel` | crates/core/src/background_tasks.rs:258-271 | Nothing follows a cancel: no status, no summary, no pull request |
| `BackgroundTasks.FailedTaskMayAskForItsPullRequest` | crates/core/src/background_tasks.rs:410-429 | A concrete record in which a task failed inside the pull request step asks for one all the same |
| `BackgroundTasks.OnePullRequestPerTask` | crates/core/src/background_tasks.rs:145-152 | At most one pull request is asked for per task |
| `BackgroundTasks.PullRequestWasWantedAndSummarised` | crates/core/src/background_tasks.rs:379-429 | And only for a task created asking for one, after its summary was saved |
| `BackgroundTasks.ReadyMeansReviewable` | crates/core/src/background_tasks.rs:379-429 | A task is ready only after its summary was saved, and its pull request asked for if it was created wanting one |
| `BackgroundTasks.AdvanceRaisesRank` | crates/core/src/background_tasks.rs:297-329 | A held advance leaves the status; any other brings the task strictly closer to its end |
| `BackgroundTasks.RankCountsAdvances` | crates/core/src/background_tasks.rs:297-429 | After any advances, the rank has grown by at least those not held, or the task is over |
| `BackgroundTasks.FourFreeAdvancesEndATask` | crates/core/src/background_tasks.rs:297-429 | Four advances that nothing holds end any task; each held one costs one more |
| `BackgroundTasks.ChecksOnlyDelay` | crates/core/src/background_tasks.rs:363-377 | With an idle agent, n checks that run out one after the other cost at most n more |
| `BackgroundTasks.WorkingTaskIsHeld` | crates/core/src/background_tasks.rs:467-479 | A pass leaves a pending or running task as it is while input waits for its agent or the agent works, whatever else is listed |
| `BackgroundTasks.TickAdvancesOnce` | crates/core/src/background_tasks.rs:462-480 | A pass advances a task with a workspace of its own exactly once, whatever the others do |
| `BackgroundTasks.ThreeAreNotEnough` | crates/core/src/background_tasks.rs:297-429 | Three advances can leave a task still opening its pull request |
| `BackgroundTasks.Store.SetStatus` | crates/core/src/background_tasks.rs:509-518 | The guarded write: a terminal row is untouched, any other takes status and detail |
| `BackgroundTasks.Store.FailTask` | crates/core/src/background_tasks.rs:497-507 | The same guard on failure, which also records the reason |
| `BackgroundTasks.Store.AdvanceBackgroundTask` | crates/core/src/background_tasks.rs:297-329 | Left alone, it leaves the row and the checks that the old row, the agent and the world as it was call for; a finished or held task is left as it was whoever interferes |
| `BackgroundTasks.Store.RunStep` | crates/core/src/background_tasks.rs:312-327 | The step its status calls for, to the row it calls for; an asked-for pull request leaves the row terminal or the step failed |
| `BackgroundTasks.Store.BeginBackgroundChecks` | crates/core/src/background_tasks.rs:331-361 | To summarizing when checks are skipped or none is configured, else to checking with each one started or noted |
| `BackgroundTasks.Store.StartChecks` | crates/core/src/background_tasks.rs:346-356 | Each check is started in turn; one that does not start is noted and stops nothing |
| `BackgroundTasks.Store.FinishBackgroundChecks` | crates/core/src/background_tasks.rs:363-377 | Waits exactly while a check of the workspace runs, then goes on to summarizing; an unlistable store fails the step |
| `BackgroundTasks.Store.WriteBackgroundSummary` | crates/core/src/background_tasks.rs:379-408 | Success means the summary was saved in this step, whoever interferes; then the pull request exactly if one was wanted |
| `BackgroundTasks.Store.OpenBackgroundPullRequest` | crates/core/src/background_tasks.rs:410-429 | Asks once, and success means it was asked for and the task is over |
| `BackgroundTasks.Store.CancelBackgroundTask` | crates/core/src/background_tasks.rs:258-271 | Refused exactly for a task that is missing or over, with nothing changed; otherwise the task ends, cancelled if no other writer came first |
| `BackgroundTasks.Store.Interfere` | crates/core/src/background_tasks.rs:284-289 | Writers without the claim touch nothing but unfinished rows' status, and never a summary or a pull request |
| `BackgroundTasks.Store.TickBackgroundTasks` | crates/core/src/background_tasks.rs:462-480 | Each unfinished task is advanced once; left alone, a pass is those advances in order, queued input counting as a working agent; else the record stays safe |
| `BackgroundTasks.Store.Supervise` | crates/core/src/archcar/server.rs:521-543 | Passes over a store left alone take a task with a workspace of its own to its end: four that nothing holds, and one more for each that something does |
| `ClientIds.ClientIdIsSlug` | desktop/electron/archcar.ts:270-278 | Every id is lower-case letters and digits with single dashes between them |
| `ClientIds.SlugsAreFixed` | desktop/electron/archcar.ts:270-278 | A slug is its own slug |
| `ClientIds.CandidatesDiffer` | desktop/electron/archcar.ts:346-348 | No two ids tried are alike |
| `ClientIds.SearchFreshId` | desktop/electron/archcar.ts:346-348 | The first candidate nobody uses, every one before it being used; found within one try more than there are ids |
| `SavedClients.LoadAfterSave` | desktop/electron/archcar.ts:297-378 | Loading what was saved gives it back |
| `SavedClients.LoadedIsSound` | desktop/electron/archcar.ts:297-328 | Whatever is on disk, what is loaded is complete and its selection names an entry |
| `SavedClients.SaveCutShort` | desktop/electron/archcar.ts:364-378 | A save cut off between its two writes is loaded as if whole, exactly unless the list is empty and the old mirror is one to adopt |
| `SavedClients.UpsertKeepsOthers` | desktop/electron/archcar.ts:331-351 | Ids and addresses stay distinct, every client at another address stays what it was, and a new id was unused |
| `SavedClients.UpsertTwiceIsOnce` | desktop/electron/archcar.ts:331-351 | A second identical upsert changes nothing |
| `SavedClients.HandleKeepsConsistent` | desktop/electron/main.ts:465-658 | Every operation, proved or rolled back, keeps clients distinct, the selection real and `remote.json` a mirror of it |
| `SavedClients.AlwaysConsistent` | desktop/electron/main.ts:465-658 | And so does every sequence of operations, from any consistent machine |
| `SavedClients.NewMachineStaysConsistent` | desktop/electron/main.ts:465-658 | A new machine is one |
| `SavedClients.InterleavedStaysConsistent` | desktop/electron/main.ts:527-553 | However handlers interleave with switches that wait for the daemon, list, selection and mirror stay consistent |
| `SavedClients.RollbackUndoesTheOthers` | desktop/electron/main.ts:532-548 | A rollback leaves loaded exactly what was loaded before its switch began: everything others did while it waited is undone |
| `SavedClients.RemovedClientComesBack` | desktop/electron/main.ts:532-548 | A client removed while a switch waits is gone, and back after the rollback |
| `SavedClients.AloneIsAtOnce` | desktop/electron/main.ts:527-553 | With nobody in between, waiting makes no difference |
| `SavedClients.FailedSwitchChangesNothing` | desktop/electron/main.ts:527-553 | A switch the daemon did not confirm leaves what is loaded as it was |
| `SavedClients.SwitchSelects` | desktop/electron/main.ts:597-624 | A confirmed switch selects the client named and mirrors its address and token |
| `SavedClients.NoResurrection` | desktop/electron/main.ts:626-643 | Removing the last client leaves no mirror to bring it back |
| `ClientHandlers.ClientsFile.UpsertClient` | desktop/electron/archcar.ts:331-351 | The mutation in place equals `Upsert` of the old list |
| `ClientHandlers.ClientsFile.DropId` | desktop/electron/main.ts:631 | The filter keeps the entries with another id, in order |
| `ClientHandlers.Machine.LoadClients` | desktop/electron/archcar.ts:353-362 | Each load builds objects of its own, with what is on disk |
| `ClientHandlers.Machine.SaveClients` | desktop/electron/archcar.ts:365-378 | The two writes leave the list and the mirror of the entry it selects, or no mirror |
| `ClientHandlers.Machine.ActivateClients` | desktop/electron/main.ts:527-553 | Unanswered, the old list is back whatever others did meanwhile; answered, the new one stands unless others changed it |
| `ClientHandlers.Machine.HandleAdd` | desktop/electron/main.ts:465-595 | Adds and switches; a failure leaves loaded what was loaded before, whatever others did meanwhile |
| `ClientHandlers.Machine.HandleActivate` | desktop/electron/main.ts:597-624 | Switches or goes local; a failure leaves loaded what was loaded before, whatever others did meanwhile |
| `ClientHandlers.Machine.HandleRemove` | desktop/electron/main.ts:626-643 | Removes, clearing the selection if it was this one; refused, the disk is untouched |
| `ClientHandlers.Machine.HandleRename` | desktop/electron/main.ts:645-658 | Renames; refused, the disk is untouched |
| `ClientHandlers.Machine.HandleClear` | desktop/electron/main.ts:498-509 | Clears the selection and its mirror |
| `PngRows.Paeth` | desktop/electron/iconAssets.ts:158-166 | Whichever of the three is nearest a+b-c, ties going to left, then up |
| `PngRows.UnfilterUndoesFilter` | desktop/electron/iconAssets.ts:119-156 | Reconstruction undoes the encoder of section 6 of RFC 2083 for every line, filter and pixel width |
| `PngRows.FilterUndoesUnfilter` | desktop/electron/iconAssets.ts:119-156 | And the encoder undoes reconstruction: no two lines stand for one row |
| `PngRows.UnfilterRow` | desktop/electron/iconAssets.ts:119-156 | In place, the row becomes its reconstruction; an unknown filter leaves it untouched and is refused |
| `PngImage.RowsRoundTrip` | desktop/electron/iconAssets.ts:102-120 | The row loop recovers every row whichever filter each was sent under and whatever follows |
| `PngImage.EveryPixelIsRecovered` | desktop/electron/iconAssets.ts:95-123 | Every byte of every pixel is the one that was encoded, alpha 255 for three channels |
| `PngImage.ImageAt` | desktop/electron/iconAssets.ts:110-117 | Byte k of pixel (x, y) is channel k of row y |
| `PngImage.DecodeRows` | desktop/electron/iconAssets.ts:95-123 | The loop over two line buffers draws exactly those rows, or stops at the first short or unknown one |
| `PngImage.DecodedAlpha` | desktop/electron/iconAssets.ts:168-170 | A decoded image's alpha is its fourth channel, or 255 |
| `PngImage.PixelOfByte` | desktop/electron/iconAssets.ts:179-183 | Every fourth byte is the alpha of one pixel |
| `PngImage.MinimumAlpha` | desktop/electron/iconAssets.ts:172-185 | The least alpha of any pixel, or 255 |
| `IcnsContainer.ParseIcns` | desktop/electron/iconAssets.ts:18-41 | The loop advances, ends, and equals the recursive reading, errors and offsets included |
| `IcnsContainer.ParseUndoesSerialize` | desktop/electron/iconAssets.ts:18-41 | Parsing a serialised container gives each type's last payload and nothing else, with anything after its declared end |
| `IcnsContainer.SpansAreTiled` | desktop/electron/iconAssets.ts:27-38 | Payloads lie inside the container, in order, each behind a header of its own |
| `IcnsContainer.ViewsAreDisjoint` | desktop/electron/iconAssets.ts:35-38 | No two views handed out share a byte, none leaves the buffer, none is the table of contents |
| `IcnsContainer.LastOneWins` | desktop/electron/iconAssets.ts:34-36 | For every type, the last entry is the one kept |
| `ChatAttachments.UnescapeUndoesEscape` | crates/core/src/chat_attachments.rs:250-264 | The chained replacements invert each other for every value, entity look-alikes included |
| `ChatAttachments.EscapeIsCoded` | crates/core/src/chat_attachments.rs:250-256 | The chained escapes write each character once |
| `ChatAttachments.CodedStep` | crates/core/src/chat_attachments.rs:258-264 | Putting one entity back leaves the others alone |
| `ChatAttachments.EscapedIsInert` | crates/core/src/chat_attachments.rs:250-256 | An escaped value holds no quote and no angle bracket |
| `AttachmentTokens.ParseUndoesFormat` | crates/core/src/chat_attachments.rs:58-85 | Parsing a formatted token gives the attachment back for every path, label and kind, with any whitespace around it |
| `AttachmentTokens.NextAttrReadsBack` | crates/core/src/chat_attachments.rs:266-282 | An attribute comes off the front whatever its value holds, leaving what follows |
| `AttachmentTokens.ParseTokenAttrs` | crates/core/src/chat_attachments.rs:266-282 | The loop equals the recursive reading, or fails where that fails |
| `AttachmentTokens.ParseAttachmentToken` | crates/core/src/chat_attachments.rs:67-85 | Prefix, suffix, attributes, then the first value of each key |
| `AttachmentTokens.TokenIsBracketed` | crates/core/src/chat_attachments.rs:58-65 | A formatted token's only angle brackets are its first and last characters |
| `AgentNaming.FirstJsonObject` | crates/core/src/agent_naming.rs:198-227 | The byte loop equals the recursive scanner; its depth never goes below zero |
| `AgentNaming.FirstObjectIsFirstBalanced` | crates/core/src/agent_naming.rs:197-227 | The answer is the shortest balanced stretch from the first brace, string literals passed over; none exactly when no stretch balances |
| `AgentNaming.FirstBalancedIsUnique` | crates/core/src/agent_naming.rs:197-227 | Nothing else fits that description |
| `AgentNaming.ScanFindsShortest` | crates/core/src/agent_naming.rs:198-227 | Two flags and a depth find the shortest prefix that takes the level to zero |
| `AgentNaming.ScanSkipsString` | crates/core/src/agent_naming.rs:203-211 | The flags carry the scanner past exactly one string literal |
| `JsonObjects.ObjectIsFound` | crates/core/src/agent_naming.rs:174-227 | After any words without a brace and before anything, any JSON object text (sections 2 to 7 of RFC 8259) is found whole |
| `JsonObjects.JsonIsPassedOver` | crates/core/src/agent_naming.rs:198-227 | Any JSON text leaves the scanner's depth as it found it |
| `ChatProjection.FormatChatProjection` | crates/cli/src/main.rs:4287-4319 | Wherever the stack loop ends it prints the recursive pre-order walk, one item a round |
| `ChatProjection.LoopEndsExactlyWhen` | crates/cli/src/main.rs:4312-4317 | For any items, repeated ids included, the loop's stack runs empty exactly when no item reached from the margin is reached again below itself |
| `ChatProjection.PrintedExactlyWhenReached` | crates/cli/src/main.rs:4287-4319 | An item is printed at a depth exactly when a trail of that many steps comes down to it from the margin |
| `ChatProjection.DistinctIdsEnd` | crates/cli/src/main.rs:4288-4318 | Differing ids are enough to end |
| `ChatProjection.Nest` | crates/cli/src/main.rs:4288-4300 | Splits the items into those at the margin and each parent's children, in input order |
| `ChatProjection.PrintedOnce` | crates/cli/src/main.rs:4284-4319 | Where ids differ, each item whose chain of parents reaches a root is printed exactly once, as deep as its chain is long; no other is |
| `ChatProjection.LeftOutExactlyWhenCyclic` | crates/cli/src/main.rs:4293-4318 | Where ids differ, an item is never printed exactly when it is on a parent cycle or under one |
| `ChatProjection.ChildrenInInputOrder` | crates/cli/src/main.rs:4293-4300 | All children of an item, each once, in input order |
| `ChatProjection.DepthIsBounded` | crates/cli/src/main.rs:4306-4317 | No item is printed deeper than there are items |
| `ChatProjection.RepeatedIdsMayNotEnd` | crates/cli/src/main.rs:4306-4317 | A concrete input with a repeated id on which it does not end |
| `LineFraming.LineReader.OnData` | desktop/electron/archcar.ts:687-695 | One chunk delivers the non-blank lines it completed and leaves the remainder in the buffer |
| `LineFraming.ReadAll` | desktop/electron/archcar.ts:684-696 | Whatever the cutting into chunks, the lines delivered are those of the stream and the buffer is its remainder |
| `LineFraming.CutIsUnique` | desktop/electron/archcar.ts:690-693 | There is one way to cut a stream into lines and a newline-free remainder |
| `LineFraming.LinesMakeTheStream` | desktop/electron/archcar.ts:690-693 | And that way puts the stream back together |
| `LineFraming.CutsCompose` | desktop/electron/archcar.ts:688-693 | Keeping only the remainder between two chunks loses nothing |
| `ShellQuoting.ShellWordsAreRead` | crates/cli/src/main.rs:8695-8721 | A POSIX shell reads a command line back as its words, less the empty ones |
| `ShellQuoting.RoundTripExactlyWhenNonEmpty` | crates/cli/src/main.rs:8695-8721 | The words come back as they were exactly when none is empty |
| `ShellQuoting.EmptyArgumentIsLost` | crates/cli/src/main.rs:8711-8720 | A concrete empty argument that is lost |
| `ShellQuoting.QuotedIsRead` | crates/cli/src/main.rs:8701-8721 | A quoted value adds itself to the word in progress, whatever it holds and whatever follows |
| `TerminalCommands.RenderedCommandIsRead` | crates/cli/src/main.rs:8180-8232 | The manual command is read as a change of directory, the variables, and the program in place of the shell |
| `TerminalCommands.WrappingIsUndone` | crates/cli/src/main.rs:8088-8121 | A wrapped command splits into the shell, its flag and the command, one level of quoting gone |
| `TerminalCommands.NestingIsUndone` | crates/cli/src/main.rs:8088-8121 | Any number of wrappers is undone once per level |
| `TerminalCommands.EveryWrapperStartsTheCommand` | crates/cli/src/main.rs:8063-8128 | Under every emulator but a platform's own, the same shell starts with the same command |
| `TerminalCommands.AppleScriptReadsBack` | crates/cli/src/main.rs:8728-8730 | The AppleScript literal stands for the command |

## Left out

- Transport, sockets, SSH, clocks and sleeps: requests are answered nondeterministically, and the two 60-second
  deadlines are a number of polls.
- `base_ref`, the source branch name sent with an import, and the progress checklist printed after a failure; the
  text of every error message.
- TransferDecisions.ResumeMessage: the fixed phrases of the message are a parameter, so what is proved holds of those
  that ship.
- The words of `git log`: a workspace's head is an optional sha, already split off.
- A second handover by a re-run that follows one queued and not yet delivered, or whose chat would not be read: the
  code does not promise more, and `RetryQueuesNothing` names both cases.
- `DeriveActivity`: pending prompts, `urgency`, the board of a workspace and `session_reports` are not modelled beyond
  what `read_session` calls.
- Background tasks: a crash between an outside effect and its status write, writes the database refuses,
  `force_cancelled`, the review status of the linked to-do, and the text of errors. What a summary, a push and a pull
  request come to is part of `Outside`, as is the predicate the daemon passes for a working agent.
- SavedClients.ParseClients: `clients.json` and `remote.json` are values that parsed or did not; `JSON.parse` and
  `JSON.stringify` are not modelled, and disk writes are assumed to succeed.
- `ensureDaemon`, `trackSpawnedDaemon`, `killSpawnedDaemon` and `resolveRemoteConfig`: process spawning and lookups.
- PngImage.DecodeRows: starts from the inflated scanlines; the chunk walk, `zlib` and the checks of bit depth, colour
  type and interlacing come before it.
- JsonObjects.IsScalar: admits every number of section 6 of RFC 8259, and more texts of the same characters.
- `parse_names` and JSON decoding after the scanner; text is characters rather than UTF-8 bytes, which differ only
  inside characters that are never structural.
- ChatAttachments.ChatAttachment: the label is called `caption` and the text kind `Plain`;
  `sanitize_attachment_stem` and saving files are not modelled.
- ChatProjection.FormatChatProjection: prints which item and how deep; the header line and each item's own text are
  not modelled. It is for items on which the loop ends; on all others `LoopEndsExactlyWhen` shows that it does not.
- LineFraming.LineReader: starts from decoded text; the UTF-8 decoder in front of it is not modelled.
- ShellQuoting.Tokens: answers nothing for any construct that expands, globs or is an operator other than `&&`; reserved
  words and aliases are a later stage of a shell.
- TerminalCommands.BuildTerminalInvocation: takes the lower-case file name of the terminal as given, and the Windows
  quoting is not modelled; emulators that split one argument are assumed to do it as a shell does.
