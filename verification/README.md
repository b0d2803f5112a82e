# Nexus core: a verified model

Nexus lets AI agents work through a workflow, one step after another, on the issues of a repository. Its core has no
lock-step protocol to lean on: it watches completion files, launched processes, logs, a merge queue and chat users from
the outside, and keeps its own records of what it has already done. This project models that core and proves what those
records guarantee over whole runs, for every answer of the host application (`AgentRuntime`, the workflow engine, git,
the clock, the disk), including answers that are exceptions.

How the model is laid out:

- `Text.dfy`: Python's string operations: whitespace, `strip`, `lower`, decimal numbers, colon-separated keys.
- `PromptBudget.dfy`, `CompletionFields.dfy`, `Completion.dfy`: text and token budgets, findings, effort maps and
  markdown; the completion payload, its parsed summary, dedup keys and the completion store.
- `CompletionScan.dfy`, `CompletionMonitor.dfy`: one completion, one scan, the monitor cycles and their persisted keys.
- `DeadAgents.dfy`, `StuckAgents.dfy`, `Orchestrator.dfy`: dead, timed-out and orphaned agents, and the
  `ProcessOrchestrator` object with its in-memory fields.
- `SlidingWindow.dfy`, `RateLimiter.dfy`: the sliding-window limiter on values, its Redis form, and its quota objects.
- `UserStore.dfy`, `UserManager.dfy`: users, identities and projects; saving and loading; the user objects.
- `MergeQueue.dfy`: the persisted merge queue, its worker as steps with crashes in between, and the worker object.
- `Ledger.dfy`, `LaunchGuard.dfy`, `FeatureRegistry.dfy`: the idempotency ledger, the launch guard, the feature registry.

Code that works step by step is modelled twice: as a function on values that says what one call does, and as a class
with methods that update fields in loops and early exits as the source does, whose `ensures` equate the two. The laws
are lemmas about the functions, so they hold of the methods. A host call is an argument: `Got(value)` or
`Raised(failure)`. Effects such as a delivered comment, a kill or a launch are recorded in a trace, and the laws speak
about traces.

Claims the code does not keep are stated with their exact condition:

- `CompletionSummary.to_dict` then `from_dict` gives the same summary back exactly when the alignment summary is truthy,
  absent or the empty string; `null`, `0` or an empty list come back as `""` (`Completion.RoundTrip`).
- Normalising findings is stable after one pass exactly for lists that fit, or that are one over the cap with a marker
  that survives its budget; after two passes it always is (`CompletionFields.FindingsStableFromFirstIff`,
  `CompletionFields.FindingsStableFromSecond`).
- Normalising comment markdown alone is stable exactly when nothing is unescaped or the unescaped text neither starts nor
  ends with whitespace (`CompletionFields.NormalizeMarkdownStableIff`).
- Two equal cycles settle a completion twice exactly when the host's answers let an exception escape the first one after
  it had settled something, and the cycle after a crash does so exactly when the crashed one had settled something
  (`CompletionMonitor.RepeatedCycleIff`, `CompletionMonitor.DiedIff`). An exception escapes a turn exactly when the first
  host call to raise raises one that `except Exception` does not catch, or the schema error while the alert its handler
  sends raises too (`CompletionScan.TurnOutcome`).
- Saves, restarts and cleanups of the rate limiter change no later check while windows are no longer than the action's
  default and no restart forgets an admitted request that is still in the window; with any longer window both this and
  the window bound fail (`SlidingWindow.RestartsUnseen`, `SlidingWindow.WindowBound`, `SlidingWindow.LongWindowSeen`,
  `SlidingWindow.LongWindowBroken`). A restart forgets the requests since the save it reads, or all when it reads none,
  and keeps the bound in every continuation exactly when none of the window is among them
  (`SlidingWindow.RestartBoundIff`); nothing in the repository but a test calls `save_state`. The remaining number also
  depends on checks made between a save and its restart, for every window shorter than the default
  (`SlidingWindow.CheckedRestartSeen`).
- On Redis the window bound holds while the window fits the key's time to live and, where the remaining number is asked
  for, the default window; with any longer window either condition is needed (`SlidingWindow.RedisBound`,
  `SlidingWindow.RedisExpiryBroken`, `SlidingWindow.RedisRemainingBroken`).
- The wait a refusal advertises is tight to one second exactly when the stamp that has to expire does so within that
  second, which it does whenever the window holds just the maximum; with more it can be too short
  (`SlidingWindow.AdmittedIff`, `SlidingWindow.WaitTightIff`, `SlidingWindow.WaitTooShort`).
- A dead-agent retry writes back the tracker as read at the start of the poll, so it frames the other issues exactly
  when nobody else changed them meanwhile; entries registered since, by others or by an earlier relaunch of the same
  poll, are overwritten (`DeadAgents.RewriteFramedIff`, `DeadAgents.PollOverwritesOthers`,
  `DeadAgents.RelaunchOverwritten`).
- An issue whose newest log is named after another issue first is never handled by the timeout pass
  (`StuckAgents.HandledIff`).
- Saving and loading the users is exact exactly when nobody has an identity on a blank platform
  (`UserPersistence.RoundTripIff`, `UserPersistence.BlankLost`).
- A PR is merged at most once for each time it is put up, plus once for each attempt that ends, its `merging` mark lost,
  with the entry still pending; such an attempt does let the next pass merge again (`MergeQueue.CallsCovered`,
  `MergeQueue.ReopensAreLostMarks`, `MergeQueue.LostMarkRepeats`).
- A merge-queue entry interrupted while `merging` is left alone by the worker and by every inline action exactly until an
  enqueue is stored for its PR, or for any PR while the queue file cannot be read, which drops the other entries
  (`MergeQueue.InterruptedIff`, `MergeQueue.InterruptedArises`).
- The ledger file knows a key exactly when it was recorded and the save of some new key, its own or another, ran through
  between then and the next restart; memory also knows the keys recorded since the last restart (`Ledger.KnownIff`). So a
  cut save is repaired by the next new key's save, but not by recording the key again (`Ledger.LostSaveStaysLost`).
- Clearing the launch records of an issue takes those of another along exactly when the other's id goes on after a colon,
  or the cleared id goes on after the other's and a colon and the agent starts with the rest and a colon
  (`LaunchGuard.ClearTakesIff`).
- A manual feature record is protected from change while it is listed, but not from eviction: any upsert of a new title
  into a full list drops exactly the oldest record (`FeatureRegistry.ManualKeptOverRun`, `FeatureRegistry.EvictedIff`).
- Exactly the titles without an English letter or digit share the empty title hash
  (`FeatureRegistry.UnreadableTitlesCollide`).

Where documentation and code differ, the code is modelled: `max_items` below one still yields one bullet in
`summarize_text`, and the monitor's scan does not return normally after every error.

## Model

| member | source | states |
|---|---|---|
| Text.ParsePrinted | nexus/core/rate_limiter.py:399-461 | printing an integer and parsing it gives the integer back, sign included |
| Text.ColonSplit | nexus/core/completion.py:124-142 | a key joined by colons determines its parts when the parts before a colon hold none |
| Text.LessIff | nexus/core/feature_registry_service.py:147-153 | the order of strings is the order of dictionaries: at the first difference one ends or is smaller |
| Text.SingleSpaced | nexus/core/completion.py:80-84 | collapsing whitespace and stripping gives the words joined by single blanks |
| Text.DedupSource | nexus/core/user_manager.py:393-401 | dropping repetitions keeps the first occurrences in order |
| PromptBudget.TruncateText | nexus/core/prompt_budget.py:16-24 | the budget is never exceeded and a text within it is untouched |
| PromptBudget.TruncatedForm | nexus/core/prompt_budget.py:16-24 | a text over the budget uses all of it: a beginning and the suffix, or the beginning alone where the suffix has no room |
| PromptBudget.LinesArePieces | nexus/core/prompt_budget.py:27-40 | the lines split by the regular expression are the stripped non-empty pieces between single line breaks |
| PromptBudget.CleanedWords | nexus/core/prompt_budget.py:40-44 | a line is cleaned to its words joined by single blanks, less dashes and blanks around |
| PromptBudget.ShortenedForm | nexus/core/prompt_budget.py:50-53 | a long line keeps as long a beginning as fits, without blanks at its end, and an ellipsis |
| PromptBudget.JoinedLines | nexus/core/prompt_budget.py:56-60 | joining separates what is joined by single line breaks |
| PromptBudget.CollectBullets | nexus/core/prompt_budget.py:38-56 | the loop yields the bullets of the first cleaned lines that are distinct ignoring case, at least one even for a limit below one |
| PromptBudget.SummarizeText | nexus/core/prompt_budget.py:27-60 | the loop form equals the declarative summary on every text and limit |
| PromptBudget.DistinctDiffer | nexus/core/prompt_budget.py:40-52 | no two summarised lines are equal ignoring case |
| PromptBudget.DistinctSource | nexus/core/prompt_budget.py:40-52 | each summarised line is the first of its form, in source order |
| PromptBudget.DistinctCovers | nexus/core/prompt_budget.py:40-52 | every non-empty cleaned line survives up to case |
| PromptBudget.BudgetKept | nexus/core/prompt_budget.py:63-99 | at most max_chars characters, exact counts, the summarised branch always reports truncation and is the summary cut to the budget |
| PromptBudget.SummaryForm | nexus/core/prompt_budget.py:27-60 | a summary is a cut of a headed bullet list, or of a text of whitespace and dashes only |
| PromptBudget.SummaryContent | nexus/core/prompt_budget.py:27-60 | a summary is the first distinct cleaned lines as shortened bullets, at least one and at most max_items, or without any the text itself, cut to the budget |
| CompletionFields.BudgetTextIdempotent | nexus/core/completion.py:68-77 | budgeting a text field twice is budgeting it once, for all limits |
| CompletionFields.BudgetTextNonempty | nexus/core/completion.py:68-77 | a non-empty text survives exactly when it fits or the summary cap leaves a character |
| CompletionFields.BudgetTextForm | nexus/core/completion.py:68-77 | a text that fits is kept whole, of any other its summary, cut to what fits |
| CompletionFields.BudgetTokenShape | nexus/core/completion.py:80-84 | a token is stripped, single-spaced and within its limit |
| CompletionFields.BudgetTokenWords | nexus/core/completion.py:80-84 | a token is the value's words joined by single blanks, or as much of their beginning as fits, less a blank at the cut |
| CompletionFields.BudgetTokenIdempotent | nexus/core/completion.py:80-84 | budgeting a token twice is budgeting it once |
| CompletionFields.BudgetMarkdownIdempotent | nexus/core/completion.py:48-77 | normalising and budgeting a comment reaches a fixed point at once |
| CompletionFields.UnescapeLaws | nexus/core/completion.py:48-65 | from left to right each of the four escapes becomes a line break or a tab, and everything else stays, other backslashes included |
| CompletionFields.NormalizeMarkdownStableIff | nexus/core/completion.py:48-65 | normalising alone is stable after one pass exactly when nothing is unescaped or the unescaped text has no outer whitespace |
| CompletionFields.NormalizeMarkdownNotIdempotent | nexus/core/completion.py:48-65 | a text for which it is not |
| CompletionFields.NormalizeFindings | nexus/core/completion.py:87-109 | the loop equals the declarative finding list: kept findings in order, capped with an omission marker |
| CompletionFields.FindingsMeaning | nexus/core/completion.py:87-109 | the non-empty budgeted items in order up to the cap, and how many are left out |
| CompletionFields.FindingsStableFromSecond | nexus/core/completion.py:87-109 | the second pass is a fixed point, for every list and limit |
| CompletionFields.FindingsStableFromFirstIff | nexus/core/completion.py:87-109 | the first pass is stable exactly for lists that fit, or one over the cap with a surviving marker |
| CompletionFields.NormalizeEffortBreakdown | nexus/core/completion.py:145-164 | the loop equals the fold of dictionary writes, colliding truncated keys included |
| CompletionFields.EffortMeaning | nexus/core/completion.py:145-164 | a key holds exactly the text of the last entry within the cap that is normalised to it and not empty |
| CompletionFields.EffortIdempotent | nexus/core/completion.py:145-164 | normalising an effort map twice is doing it once |
| Completion.FromDictSettled | nexus/core/completion.py:260-287 | every parsed summary is a fixed point of all budgets |
| Completion.FieldsUnchanged | nexus/core/completion.py:167-219 | budgeting the fields of a parsed summary changes none |
| Completion.RoundTrip | nexus/core/completion.py:260-319 | from_dict after to_dict restores every field; exactly when the alignment summary comes back as it was |
| Completion.SettledRoundTrip | nexus/core/completion.py:260-319 | every summary within its budgets, parsed or not, comes back from its dictionary |
| Completion.ParsedFields | nexus/core/completion.py:260-287 | each field is read from its own key, within its own budget, with its own default |
| Completion.WrittenSlots | nexus/core/completion.py:289-319 | each field is written under its own key, an empty verdict and effort left out |
| Completion.RoundTripKeepsKey | nexus/core/completion.py:260-319 | a summary and its round trip have the same dedup key |
| Completion.KeySeparates | nexus/core/completion.py:124-142 | keys of different normalised tuples differ when issue, workflow and step are colon-free |
| Completion.PayloadKeysSeparate | nexus/core/completion.py:112-142 | two payloads share a key exactly when issue, workflow, step and agent are the same within their budgets, defaults included, if the first three hold no colon |
| Completion.KeyCollision | nexus/core/completion.py:124-142 | for all parts, a colon moved from workflow to step gives two tuples one key |
| Completion.StoredKeyFields | nexus/core/completion.py:167-219 | budgeting a stored payload again leaves its key fields alone |
| Completion.CompletionStore.Save | nexus/core/completion_store.py:103-136 | replaces only this issue's payload; what a scan then finds has the returned key exactly when the agents agree |
| Completion.CompletionStore.Scan | nexus/core/completion.py:553-625 | finds exactly all-digit issues with a readable payload, and the summary found is a fixed point of all budgets |
| Completion.KeyAgreement | nexus/core/completion_store.py:55-136 | the key a save returns is the read-back completion's key exactly when the agent argument is empty or normalises to the payload's agent type |
| CompletionKeys.SavedKeySilences | nexus/core/completion_monitor_service.py:25-67 | a recorded save key keeps every later cycle from acting on the completion read back |
| CompletionScan.TerminalTestsAgree | nexus/core/process_orchestrator.py:1169-1173 | both terminal tests of the manual route agree, so the later one never fires |
| CompletionScan.TurnShaped | nexus/core/process_orchestrator.py:366-644 | the only effect sequences a turn can have, each for its own key, the settling ones with the key closed |
| CompletionScan.HandOverJustified | nexus/core/process_orchestrator.py:430-620 | a comment or launch is only for the hand-over the engine or payload names, with nothing running and a delivered comment before a launch (one direction; the next row has both) |
| CompletionScan.EffectsExact | nexus/core/process_orchestrator.py:366-644 | both directions: a comment, transition alert, launch or finalisation occurs exactly when the host's answers call for it, so the next agent is launched whenever they do |
| CompletionScan.AliasNames | nexus/core/process_orchestrator.py:1176-1186 | a reference with a trailing alias in parentheses names the alias, whatever stands before |
| CompletionScan.PlainNames | nexus/core/process_orchestrator.py:1176-1186 | another names itself in lower case, less a leading @ or backticks around |
| CompletionScan.SameAgentNames | nexus/core/process_orchestrator.py:383-412 | the replay guard compares names whatever their case and leading @ |
| CompletionScan.TurnOutcome | nexus/core/process_orchestrator.py:366-644 | read off the host's answers: exactly when an exception escapes the turn, exactly when the key is closed, exactly when something is settled |
| CompletionMonitor.ScanAndProcessCompletions | nexus/core/process_orchestrator.py:323-644 | the loop over detections with the shared dedup set equals the fold of turns |
| CompletionMonitor.ScanKeeps | nexus/core/process_orchestrator.py:366-644 | a scan keeps the trace laws and only grows the dedup set |
| CompletionMonitor.ScanExact | nexus/core/process_orchestrator.py:366-644 | a scan has exactly the effects called for on the completions it works on, up to the one where an exception escapes |
| CompletionMonitor.SeenKeysIdle | nexus/core/process_orchestrator.py:366-380 | no effect for a key that was in the set before the scan |
| CompletionMonitor.Monitor.PostCompletionComments | nexus/core/completion_monitor_service.py:25-67 | a cycle scans with a copy of the known keys, stamps the new ones and saves |
| CompletionMonitor.CyclePersists | nexus/core/completion_monitor_service.py:43-67 | a cycle persists exactly the old keys and those it closed, old times unchanged; nothing when an exception escaped |
| CompletionMonitor.ScanEscapesIff | nexus/core/process_orchestrator.py:366-644 | a scan lets an exception escape exactly when the answers end it at an open completion |
| CompletionMonitor.SettlesThenEscapesIff | nexus/core/process_orchestrator.py:366-644 | when that happens after something was settled, in terms of the answers |
| CompletionMonitor.RunKeeps | nexus/core/completion_monitor_service.py:25-67 | over every run of cycles, crashes in mid-cycle, restarts and lost saves the trace laws hold, unless a cycle is cut after settling or a restart misses recorded keys |
| CompletionMonitor.RecordKept | nexus/core/completion_monitor_service.py:43-67 | in such a run recorded keys stay, with their times |
| CompletionMonitor.AtMostOncePerKey | nexus/core/process_orchestrator.py:366-644 | per key one delivered comment and one launch at most, none of them beside a finalisation that returned |
| CompletionMonitor.RepeatedCycleIff | nexus/core/completion_monitor_service.py:43-67 | an equal next cycle settles a key twice exactly when the answers let an exception escape after settling |
| CompletionMonitor.LostSaveIff | nexus/core/completion_monitor_service.py:43-67 | with a restart in between, exactly then or when the save was lost after settling |
| CompletionMonitor.DiedIff | nexus/core/completion_monitor_service.py:43-67 | after the process died in a cycle, the next one settles a key again exactly when the crashed one had settled something |
| CompletionMonitor.EscapeAfterSettling | nexus/core/process_orchestrator.py:615-644 | such an escape can happen |
| DeadAgents.AlertKeyInjective | nexus/core/process_orchestrator.py:740 | issue:pid keys identify issue and pid for all issue ids |
| DeadAgents.EntryKeeps | nexus/core/process_orchestrator.py:734-883 | one tracker entry keeps all laws of the trace, wherever an exception cuts it |
| DeadAgents.EffectsExact | nexus/core/process_orchestrator.py:734-883 | each observation, stale note, declared death, alert, drop, tracker write and relaunch occurs exactly when the misses, the age, the workflow state and the host's answers call for it |
| DeadAgents.EffectsOrdered | nexus/core/process_orchestrator.py:734-883 | each once and in one order, a stale entry saved before it is settled and an alerted one settled before |
| DeadAgents.MemoryLeft | nexus/core/process_orchestrator.py:745-879 | a live agent is forgotten, a settled one forgotten and never acted on again, any other dead one has one more miss |
| DeadAgents.TrackerLeft | nexus/core/process_orchestrator.py:770-882 | the working copy is exactly what was to be saved, so a settled entry is gone unless the latest tracker could not be read |
| DeadAgents.CutExact | nexus/core/process_orchestrator.py:734-883 | exactly which answers end the poll at an entry |
| DeadAgents.PollExact | nexus/core/process_orchestrator.py:718-883 | a poll has exactly the effects called for at the entries up to the one that cuts it |
| DeadAgents.SessionExact | nexus/core/process_orchestrator.py:718-883 | and a session exactly those of its polls |
| DeadAgents.SessionLawful | nexus/core/process_orchestrator.py:718-883 | over every session: miss counts equal dead streaks, a death needs three misses or one past the timeout, nothing follows a delivered alert of a key but its relaunch |
| DeadAgents.OneAlertOneRelaunch | nexus/core/process_orchestrator.py:718-883 | per issue:pid one delivered alert and one relaunch at most, the relaunch after its alert |
| DeadAgents.RewriteFramedIff | nexus/core/process_orchestrator.py:819-841 | the retry's tracker write frames other issues exactly when the snapshot is current, and keeps the latest retry-fuse metadata |
| DeadAgents.PollOverwritesOthers | nexus/core/process_orchestrator.py:718-883 | every live entry a poll saves is one it read at its start, so entries registered meanwhile are lost, its own relaunches' included |
| DeadAgents.RelaunchOverwritten | nexus/core/process_orchestrator.py:819-883 | in every poll that retries two agents the second one's tracker write loses what the first one's relaunch registered |
| StuckAgents.GuardCoversResolved | nexus/core/process_orchestrator.py:981-986 | the names the confirmation guard skips are unresolved already |
| StuckAgents.UnresolvedNames | nexus/core/process_orchestrator.py:935-990 | a reference names nobody exactly when it is a placeholder in any case, with or without a leading @ |
| StuckAgents.HandleLawful | nexus/core/process_orchestrator.py:903-1122 | a kill needs an active workflow, a log no older than the launch by five seconds, an identified and confirmed agent and a live pid; a timeout relaunch follows its kill; an orphan relaunch uses up an unused key |
| StuckAgents.EffectsExact | nexus/core/process_orchestrator.py:903-1122 | each reading, confirmation, kill, alert, tracker write and relaunch occurs exactly when the host's answers call for it; a timeout relaunch only with the kill done and should_retry granting it |
| StuckAgents.TurnLeaves | nexus/core/process_orchestrator.py:903-1122 | exactly when a turn uses up an orphan key, and exactly which answers end it |
| StuckAgents.NewestLeads | nexus/core/process_orchestrator.py:684-698 | the newest log is the head of the stably sorted logs mentioning the issue |
| StuckAgents.OncePerIssue | nexus/core/process_orchestrator.py:650-713 | one pass over a fixed snapshot handles each issue at most once |
| StuckAgents.HandledIff | nexus/core/process_orchestrator.py:650-710 | a pass handles exactly the due issues whose newest log is named after them |
| StuckAgents.LogExact | nexus/core/process_orchestrator.py:650-713 | what one log adds to a pass, and exactly which answers end the pass there |
| StuckAgents.PassExact | nexus/core/process_orchestrator.py:650-713 | a pass, cut or not, has exactly the effects called for at the logs it handles |
| StuckAgents.SessionLawful | nexus/core/process_orchestrator.py:650-713 | over every session every turn is lawful and orphan keys only grow |
| StuckAgents.OrphanRelaunchedOnce | nexus/core/process_orchestrator.py:1027-1089 | an orphaned step is relaunched at most once per issue and expected agent |
| Orchestrator.NamesOnce | nexus/core/process_orchestrator.py:1140-1161 | merged retry exclusions hold every normalised non-empty tool name once |
| Orchestrator.ProcessOrchestrator.MergeRetryExclusions | nexus/core/process_orchestrator.py:1140-1161 | the merging loop, with no list for no names |
| Orchestrator.ProcessOrchestrator.DetectDeadAgents | nexus/core/process_orchestrator.py:718-883 | the loop over the tracker snapshot equals the fold of entries, fields and effects included |
| Orchestrator.ProcessOrchestrator.InspectEntry | nexus/core/process_orchestrator.py:732-768 | the loop body on the miss counters |
| Orchestrator.ProcessOrchestrator.DeclareDead | nexus/core/process_orchestrator.py:769-883 | the loop body after the required misses |
| Orchestrator.ProcessOrchestrator.HandleTimeout | nexus/core/process_orchestrator.py:903-1122 | the early-exit form of timeout handling equals its specification |
| Orchestrator.ProcessOrchestrator.NewestLog | nexus/core/process_orchestrator.py:684-696 | finds the newest log of an issue |
| Orchestrator.ProcessOrchestrator.CheckStuckAgents | nexus/core/process_orchestrator.py:650-713 | the pass over the logs, then the dead-agent poll unless an exception ended the pass |
| SlidingWindow.PruneDrops | nexus/core/rate_limiter.py:46-50 | pruning drops a prefix of old stamps and stops at the first recent one |
| SlidingWindow.WindowBound | nexus/core/rate_limiter.py:210-291 | every closed interval of the window's length holds at most max_requests of all admitted requests, pruned ones included, through cleanups, saves and restarts that forget no request still in the window |
| SlidingWindow.AllowedOverRun | nexus/core/rate_limiter.py:210-318 | over every such run a check is allowed exactly when fewer than max_requests admitted requests lie in the window that ends with it, and the remaining number is what they leave |
| SlidingWindow.RemainingMeaning | nexus/core/rate_limiter.py:293-318 | of any number of calls made at once under the default limit exactly the remaining number is admitted, whatever the quota holds; it is 0 exactly where the check refuses and -1 exactly without a limit |
| SlidingWindow.DecisionExact | nexus/core/rate_limiter.py:210-255 | when a check is allowed, refused or without an answer, and that the wait is the whole seconds until the oldest stamp leaves the window |
| SlidingWindow.CleanupFrees | nexus/core/rate_limiter.py:349-369 | cleanup keeps exactly the quotas that hold something recent, and no empty one |
| SlidingWindow.RecordFrees | nexus/core/rate_limiter.py:257-291 | every hundredth stamp of a quota frees all quotas of old stamps; otherwise recording adds just the one stamp |
| SlidingWindow.RestartBoundIff | nexus/core/rate_limiter.py:399-461 | after every run so far sound, a restart keeps the bound in all continuations exactly when it forgets no request still in the window |
| SlidingWindow.LongWindowBroken | nexus/core/rate_limiter.py:349-369 | for every window longer than the default a run breaks the bound |
| SlidingWindow.LongWindowSeen | nexus/core/rate_limiter.py:349-369 | and that run answers differently without its cleanup |
| SlidingWindow.CleanupUnseenIff | nexus/core/rate_limiter.py:349-369 | one cleanup changes no later decision exactly when the window is no longer than the default |
| SlidingWindow.SaveRestore | nexus/core/rate_limiter.py:399-461 | saving and restoring gives the same quotas, integer user ids printed and parsed |
| SlidingWindow.RestartTransparent | nexus/core/rate_limiter.py:399-461 | the first check or question after a restart, with any limit in the window, is answered as before |
| SlidingWindow.RestartsUnseen | nexus/core/rate_limiter.py:257-461 | over every run whose restarts forget no such request, from any state whose quotas and file say what was admitted, leaving out all saves, restarts and cleanups changes no admission and no later check, although the periodic cleanup fires at other times; nor the remaining number, with the default window or no check between save and restart |
| SlidingWindow.CheckedRestartSeen | nexus/core/rate_limiter.py:293-318 | for every shorter window a check between save and restart does change the remaining number |
| SlidingWindow.WaitRefused | nexus/core/rate_limiter.py:237-255 | every check within the advertised wait is refused again |
| SlidingWindow.AdmittedIff | nexus/core/rate_limiter.py:46-55 | when a later check is admitted, exactly, for every limit and stamps in any order |
| SlidingWindow.WaitTightIff | nexus/core/rate_limiter.py:237-255 | every check a second beyond the wait is admitted exactly when the gating stamp expires within that second |
| SlidingWindow.WaitTight | nexus/core/rate_limiter.py:237-255 | which holds whenever the window holds just the maximum |
| SlidingWindow.WaitTooShort | nexus/core/rate_limiter.py:237-255 | with more, a check a second beyond the wait can still be refused |
| SlidingWindow.FormsAgree | nexus/core/rate_limiter.py:162-189 | for every limit, deque and Redis decide differently exactly when stamps at the cutoff, or of the second Redis rounds up to, make up the difference |
| SlidingWindow.RedisBound | nexus/core/rate_limiter.py:162-318 | Redis keeps the bound in every half-open window through checks, requests and questions for the remaining number, while the window fits what trims the key |
| SlidingWindow.RedisAllowedOverRun | nexus/core/rate_limiter.py:162-318 | over every such run Redis allows a check exactly when fewer than max_requests admitted requests are in the half-open window |
| SlidingWindow.RedisExpiryBroken | nexus/core/rate_limiter.py:191-208 | with any window longer than the time to live a run breaks the bound |
| SlidingWindow.RedisRemainingBroken | nexus/core/rate_limiter.py:293-318 | with any window longer than the default, asking for the remaining number breaks it |
| RateLimiting.UserQuota.CleanupOld | nexus/core/rate_limiter.py:46-50 | the popping loop |
| RateLimiting.RateLimiter.CheckLimit | nexus/core/rate_limiter.py:210-255 | decision and pruned quota |
| RateLimiting.RateLimiter.RecordRequest | nexus/core/rate_limiter.py:257-277 | the stamp, the global stamp and the cleanup after every hundredth |
| RateLimiting.RateLimiter.CheckAndRecordRequest | nexus/core/rate_limiter.py:279-291 | one step of the runs of the window bound |
| RateLimiting.RateLimiter.GetRemainingRequests | nexus/core/rate_limiter.py:293-318 | the remaining count and the pruned quota |
| RateLimiting.RateLimiter.CleanupOldData | nexus/core/rate_limiter.py:349-369 | the sweep that prunes and deletes quotas |
| RateLimiting.RateLimiter.SaveState | nexus/core/rate_limiter.py:399-427 | the saved form of all quotas |
| RateLimiting.RateLimiter.LoadState | nexus/core/rate_limiter.py:429-461 | restores in file order up to the first unreadable user id; after reading all, the global quota and the cleanup |
| RateLimiting.RestoreSaved | nexus/core/rate_limiter.py:399-461 | a saved file restores exactly what was saved, in whatever order |
| UserStore.IdKeyNormal | nexus/core/user_manager.py:104-114 | an identity indexed in normal form keeps its key |
| UserStore.IdKeyInjective | nexus/core/user_manager.py:104-106 | different identities have different keys as long as no platform holds a colon |
| UserStore.PlatformMeaning | nexus/core/user_manager.py:104-111 | a platform counts whatever its case and the whitespace around it |
| UserStore.LinkMeaning | nexus/core/user_manager.py:331-345 | linking keeps consistency, links exactly non-blank identities, stores the identity with the user, who changes in nothing else but the time last seen, and moves no other |
| UserStore.LinkRefusedIff | nexus/core/user_manager.py:335-342 | refused exactly when another user owns the identity |
| UserStore.GetOrCreateMeaning | nexus/core/user_manager.py:415-459 | the identity resolves to the returned user, who holds it; created only when nobody owned it, with that identity alone; a known user gains it and takes over given names; others untouched |
| UserStore.SameUserAgain | nexus/core/user_manager.py:415-459 | asking again finds the same user |
| UserStore.TrackMeaning | nexus/core/user_manager.py:479-498 | tracking adds exactly that tracker to exactly that issue, at the end of the user's list, and changes nothing else |
| UserStore.UntrackMeaning | nexus/core/user_manager.py:521-536 | untracking removes exactly it, keeps the order of the rest, and says whether it did |
| UserStore.DedupJoins | nexus/core/user_manager.py:398-400 | the joined list is the first one and what is new in the second, in order |
| UserStore.MergeMeaning | nexus/core/user_manager.py:347-413 | merging, renaming included, keeps consistency; exactly the keys of source or target resolve to target; the target has both users' identities and projects, its own names or else the source's, and the later times; others unchanged |
| UserStore.MergeLists | nexus/core/user_manager.py:393-401 | each tracked list is the duplicate-free union, target first |
| UserStore.MergeTrackers | nexus/core/user_manager.py:393-409 | trackers of an issue after a merge are those before, target for source |
| UserStore.MergeUsersMeaning | nexus/core/user_manager.py:347-413 | the answer in every case, and that merging again changes nothing |
| UserPersistence.Reloaded | nexus/core/user_manager.py:158-237 | loading what was saved restores all but identities on a blank platform |
| UserPersistence.RoundTripIff | nexus/core/user_manager.py:158-237 | the round trip is exact exactly without them |
| UserPersistence.BlankLost | nexus/core/user_manager.py:415-459 | creating a user for a blank platform makes one |
| UserPersistence.RunSound | nexus/core/user_manager.py:239-536 | over every run with reloads, lost saves and unreadable files, memory and disk stay consistent and duplicate-free |
| UserPersistence.RunCurrent | nexus/core/user_manager.py:239-536 | while saves and loads succeed, memory and disk agree and no reload changes anything |
| UserPersistence.ResolveMeaning | nexus/core/user_manager.py:315-324 | resolving answers from the map; its reload on a miss changes nothing |
| UserManagement.UserManager.IndexIdentity | nexus/core/user_manager.py:108-114 | the in-place update of one user and the map |
| UserManagement.UserManager.LinkIdentity | nexus/core/user_manager.py:331-345 | refines linking |
| UserManagement.UserManager.GetOrCreate | nexus/core/user_manager.py:415-459 | refines get-or-create and returns the stored object |
| UserManagement.UserManager.Track | nexus/core/user_manager.py:479-498 | refines tracking |
| UserManagement.UserManager.Untrack | nexus/core/user_manager.py:521-536 | refines untracking |
| UserManagement.UserManager.MoveIdentities | nexus/core/user_manager.py:375-386 | the identity loop, also when source and target are one object |
| UserManagement.UserManager.MoveProjects | nexus/core/user_manager.py:393-401 | the project loop, also when source and target are one object |
| UserManagement.UserManager.RedirectOwners | nexus/core/user_manager.py:404-406 | the loop over the identity map |
| UserManagement.UserManager.Merge | nexus/core/user_manager.py:366-409 | the whole merge in place, renaming a lone source object first, refines merging |
| MergeQueue.PickedMeaning | nexus/core/merge_queue.py:236-245 | exactly the eligible entries are picked, once each, oldest first |
| MergeQueue.PickedStable | nexus/core/merge_queue.py:236-245 | of two eligible entries the older, or the one queued first, comes first |
| MergeQueue.StatusAfterIff | nexus/core/merge_queue.py:301-324 | a failure blocks the entry exactly when a blocking word stands in the first 500 characters of the error, otherwise it fails |
| MergeQueue.EnqueueMeaning | nexus/core/state_manager.py:341-380 | an enqueued PR is pending its mode, without error or override, with the time it was first queued |
| MergeQueue.ActMeaning | nexus/core/callbacks/callback_inline_service.py:25-68 | an inline action changes exactly the issue's entries in a state it is for, and to what |
| MergeQueue.PutUp | nexus/core/callbacks/callback_inline_service.py:25-68 | approving or merging now puts any entry up for merging, enqueueing or retrying only an automatic one |
| MergeQueue.StepGood | nexus/core/merge_queue.py:213-356 | every step, crash, enqueue and action keeps keys equal to their entry's PR URL |
| MergeQueue.RunGood | nexus/core/state_manager.py:341-400 | over every run, unreadable files included, keys equal their entry's PR URL, and the keys in the worker's hand are distinct |
| MergeQueue.CallsCovered | nexus/core/merge_queue.py:247-349 | with crashes between any two steps and lost writes, a PR's merge calls never exceed its puts into pending_auto_merge and the attempts that end with it still pending after a lost merging write |
| MergeQueue.ReopensAreLostMarks | nexus/core/merge_queue.py:275-349 | of those attempts there are no more than lost merging writes |
| MergeQueue.OneCallPerPut | nexus/core/merge_queue.py:275-349 | without a lost merging write, at most one call for each put |
| MergeQueue.LostMarkRepeats | nexus/core/merge_queue.py:275-349 | a pass that loses both writes of an entry merges it and leaves it to be merged again |
| MergeQueue.InterruptedIff | nexus/core/merge_queue.py:275-356 | an entry interrupted while merging stays so, unmerged, exactly until an enqueue of its PR, or one that drops it, is stored |
| MergeQueue.InterruptedArises | nexus/core/merge_queue.py:275-356 | a crash between the stored mark and the stored outcome interrupts the entry |
| MergeQueue.StepsHandle | nexus/core/merge_queue.py:247-349 | the worker's steps on an entry do what handling it at once does |
| MergeQueue.PassMeaning | nexus/core/merge_queue.py:213-356 | a pass that runs through leaves exactly the eligible entries merged, blocked or failed where the last write arrives, with error, override and time as stored, all others as they were |
| MergeQueue.PassesSpaced | nexus/core/merge_queue.py:213-235 | two passes of one process are at least the interval apart, whatever happens in between |
| MergeQueue.DueStarts | nexus/core/merge_queue.py:213-245 | a pass that is due starts and works through the picked entries if the queue can be loaded |
| MergeQueue.UpdateKnown | nexus/core/state_manager.py:382-400 | an update changes one entry, in exactly the given fields and the time, and keeps the keys |
| MergeWorker.HostState.EnqueueMergeCandidate | nexus/core/state_manager.py:341-380 | refuses a blank URL, normalises the mode, keeps the creation time; replaces the whole queue while the file cannot be read, and changes nothing when the save is lost |
| MergeWorker.HostState.UpdateMergeCandidate | nexus/core/state_manager.py:382-400 | refines the update, ignoring unknown URLs and swallowing a failed save |
| MergeWorker.Worker.AutoMergeOnce | nexus/core/merge_queue.py:213-356 | throttling, the pass and its merge calls in order |
| Ledger.KeyInjective | nexus/core/idempotency.py:38-41 | the hashed text separates keys whose issue and agent are colon-free |
| Ledger.ColonCollides | nexus/core/idempotency.py:38-41 | with a colon in the agent two keys collide |
| Ledger.SaveAtomic | nexus/core/idempotency.py:165-174 | wherever a save is cut the ledger file is the old or the new one, and when it is the new one |
| Ledger.NoFalseDuplicate | nexus/core/idempotency.py:76-85 | whatever is lost, only recorded keys are duplicates |
| Ledger.DuplicateIffRecorded | nexus/core/idempotency.py:76-115 | with complete saves a key is a duplicate exactly when it was recorded, across restarts |
| Ledger.MissNeedsLostSave | nexus/core/idempotency.py:76-115 | a recorded key that is missed points to a cut save |
| Ledger.KnownIff | nexus/core/idempotency.py:76-115 | over every run with cut saves and restarts, exactly which recorded keys the file and the memory know |
| Ledger.LostSaveStaysLost | nexus/core/idempotency.py:80-85 | recording a key again does not repair its cut save |
| Ledger.IdempotencyLedger.Record | nexus/core/idempotency.py:80-85 | exactly the key becomes a duplicate; a new key's file holds all of memory when the save ran through, and is the old one otherwise |
| LaunchGuard.LaunchesSpaced | nexus/core/guards.py:67-112 | two launches of one agent for one issue are at least the cooldown apart in every history |
| LaunchGuard.AllowedIff | nexus/core/guards.py:67-112 | after every history a launch is allowed exactly when none of its key was recorded within the cooldown and the custom guard allows it |
| LaunchGuard.SweepsUnseen | nexus/core/guards.py:134-144 | leaving out all cleanups changes no answer |
| LaunchGuard.ClearExact | nexus/core/guards.py:114-132 | clearing removes exactly the issue's records when issue ids are colon-free |
| LaunchGuard.RunFiled | nexus/core/guards.py:98-112 | which every history with colon-free ids keeps true of the records |
| LaunchGuard.ClearTakesIff | nexus/core/guards.py:114-132 | exactly which records clearing removes for arbitrary ids, and which of them are another issue's |
| LaunchGuard.RunKeyed | nexus/core/guards.py:98-112 | every history keeps each record under its own key |
| LaunchGuard.CleanupLeavesActive | nexus/core/guards.py:134-150 | after a cleanup the records are exactly the active ones |
| LaunchGuard.Guard.CanLaunchNow | nexus/core/guards.py:67-96 | cooldown first, then the custom guard, which allows by raising |
| LaunchGuard.Guard.Clear | nexus/core/guards.py:114-132 | removes the keys and returns their number |
| LaunchGuard.Guard.CleanupExpired | nexus/core/guards.py:134-144 | removes the expired records and returns their number |
| FeatureRegistry.UnreadableTitlesCollide | nexus/core/feature_registry_service.py:41-50 | exactly the titles without an English letter or digit have the empty hash |
| FeatureRegistry.TitleWords | nexus/core/feature_registry_service.py:41-50 | a title is normalised to its runs of English letters and digits in lower case, joined by single blanks |
| FeatureRegistry.Find | nexus/core/feature_registry_service.py:129-135 | the first record with the hash |
| FeatureRegistry.UpsertMeaning | nexus/core/feature_registry_service.py:120-157 | one record per title, the bound, protection of manual records, the written record stays, at most the oldest of a full list goes |
| FeatureRegistry.OriginKept | nexus/core/feature_registry_service.py:137-143 | through one upsert a title keeps its first implementation time and feature id, and a record does not change through another title's or, if manual, through an automatic one |
| FeatureRegistry.OriginKeptOverRun | nexus/core/feature_registry_service.py:120-191 | over every run of upserts and deletes a title keeps its first implementation time and feature id for as long as it stays |
| FeatureRegistry.ManualKeptOverRun | nexus/core/feature_registry_service.py:120-191 | over every run a manual record stays as it is for as long as its title stays and no manual record is written for it |
| FeatureRegistry.EvictedIff | nexus/core/feature_registry_service.py:147-153 | after every run, an upsert drops a title exactly when the list is full, the written title is new and its record is the oldest, manual or not |
| FeatureRegistry.RunTimesDiffer | nexus/core/feature_registry_service.py:120-191 | over every run with rising times no two records have the same time, so the oldest is one record |
| FeatureRegistry.EvictionKeepsNewest | nexus/core/feature_registry_service.py:147-153 | eviction fills the bound and drops no record newer than a kept one, or as new with a larger id, however far over the bound the list is |
| FeatureRegistry.EvictionDropsOldest | nexus/core/feature_registry_service.py:147-153 | eviction from one too many drops exactly one oldest record |
| FeatureRegistry.DeleteMeaning | nexus/core/feature_registry_service.py:159-191 | delete removes exactly the first record named by its id, its title or an alias, and nothing when there is none |
| FeatureRegistry.RunOrderly | nexus/core/feature_registry_service.py:120-191 | over every run with rising times, one record per title and the bound |
| FeatureRegistry.JustWrittenSurvives | nexus/core/feature_registry_service.py:120-157 | the record just written, or a protected one of its title, is there |
| FeatureRegistry.FilesystemStore.UpsertRecord | nexus/core/feature_registry_service.py:120-157 | search, protection, update, append and eviction refine the upsert; other projects untouched |
| FeatureRegistry.FilesystemStore.DeleteRecord | nexus/core/feature_registry_service.py:159-191 | the loop that keeps all but the first match |
| FeatureRegistry.FeatureRegistryService.UpsertFeature | nexus/core/feature_registry_service.py:460-495 | the record built from the arguments is upserted under the normalised project |
| FeatureRegistry.FeatureRegistryService.ForgetFeature | nexus/core/feature_registry_service.py:497-505 | the first match of the stripped reference goes and is returned |

## Left out

- Threads and locks: runs are sequential; the per-issue lock, concurrent workers and event-bus locking are not modelled.
- The workflow engine: its transitions and definition loader are an oracle returning a workflow state and active agent.
- File, Postgres and Redis input and output, subprocesses, git and HTTP: only their return values or the stored value appear; partial writes appear for the ledger only, lost writes for the monitor, the users and the merge queue.
- Wording of comments, alerts, audit entries and notifications, and building the completion comment.
- Unicode: whitespace is exact, lower-casing covers the ASCII letters only.
- Numbers in payload strings: optionally signed decimal digits; decimal points, underscores, other scripts' digits, NaN and infinities are not modelled. Item caps are natural numbers.
- Hashes: SHA-256 is a collision-free digest; a title hash is represented by the normalised title it digests.
- Completion.FromDict: the unparsed `raw` dictionary is not a field, and dictionaries keep only the keys the protocol reads, one slot standing for all others.
- Completion.CompletionStore.Scan: one directory with one file per issue; several projects, file times and the Postgres backend are not modelled.
- Whether a log name is read as an issue: the regular expressions are represented by their result, the issue and the set of issues a name mentions. Modification times are fixed during a pass.
- RateLimiting.RateLimiter.LoadState: the two dictionary levels are one map keyed by pairs; statistics and reset_user are left out.
- SlidingWindow.RedisBound: Redis members with equal text, which would merge into one, are taken as distinct; the bound is per key, and the wait a Redis refusal advertises is left out.
- DeadAgents.PollEntry: tracker entries with a non-numeric timestamp or a non-string agent type are not modelled.
- UserManagement.UserManager.Merge: project objects are values, so the sharing of a moved project object is not captured; user objects are, so a renamed source is one object under a new key.
- UserManagement.UserManager.LinkIdentity: the reload check before each operation is a separate step of the runs in UserPersistence, and one clock reading serves an operation.
- User data changed by other processes, the migration of Telegram-keyed users, and malformed user records, which make a load fail as a whole.
- MergeQueue.Step: URL parsing, token lookup and the git call are one answer; merge command, merge result and merge time are not stored; an inline action is one step for all its entries.
- Ledger: the database backend and its bootstrap from the file.
- FeatureRegistry.FilesystemStore.UpsertRecord: records are those the service writes, so reading a record back changes nothing; timestamps are instants; the Postgres store, similarity filtering and completion ingestion are left out.
- FeatureRegistry.UnreadableTitlesCollide: the Kelvin sign and the dotted capital I, which Python lower-cases to an English letter, count as unreadable here, because lower-casing covers the ASCII letters only.
- SlidingWindow.Run: a load that fails starts with empty quotas; a state file changed by others is not modelled.
- Exceptions that `except Exception` does not catch, raised while the configured timeout of an agent is looked up.
- Bots, menus, installers, health endpoints, rendering and translators.
