# Verification of the Motita agent core

Motita is an agent runner: a model proposes commands round by round, the program runs them, and an
anchor (the project's own checks) decides whether the work is done. This project models the core of
`internal/agent` and `internal/anchor` in Dafny and proves what it promises. Model replies, command
results, the clock and the person's answers are arbitrary inputs; everything is proved for all of them.

`dafny verify dfyconfig.toml` checks the project.

## The modules

| files | what they model |
|---|---|
| Loop, Runs, RunOutcomes, Stalls, TaskRun | the round loop as a function of its answers, what whole runs keep, and the class whose fields change round by round |
| Subtasks | a turn, its subtasks one after another or side by side, retries, and the closing run of a goal |
| Anchor, Claims | verdicts, the "same failure" relation, the lazily measured baseline, the gate a claim is held to |
| Ledger, Segments, ShellReading, SegmentLaws, HeredocLaws, Misreadings | the shell segment splitter, how the shell itself reads a line and where the two differ, and the ledger of the checks a run executed |
| FileReads, ReadKeys, WorkMemory, RunMemory, BatchMemory | the reads a run keeps, what the prompt shows of them, and which commands they answer |
| Rounds, RoundRun, Batches, Coherence, Recalls, Executions, Approvals | the executor of a round, reads side by side, why an answer from memory is what running again would print, in any round of any run, and that the loop is told what was run |
| WorkLog, MiddleCut, DirectOutputs, Utf8, Strings | the bounded log, the cuts, UTF-8 and the few Go string functions used |
| EditBlock, Live | the edit block, and the reader of half-written JSON |
| Fleet, Agents | the publisher of snapshots and the background agents, as moves of interleaved threads |

A Go string is a Dafny `string` whose characters stand for its bytes. Loops and objects of the source
are methods and classes, each proved equal to a function of the inputs and the old state; the laws are
proved about those functions. The two concurrent protocols are state machines whose moves are what a
thread does between two of its locks, and a run is any sequence of moves. UTF-8 is section 4 of RFC
3629; JSON strings are section 7 of RFC 8259; the shell is sections 2.2, 2.6.7,
2.7 and 2.9 of the POSIX.1-2017 Shell Command Language.

## Where the code and its comments differ

The model follows the code. These are proved, most of them as exact conditions.

- The layout of the prompt and the prompt itself are said to be one set. They agree
  everywhere when no read is longer than its entry (`WorkMemory.AgreeWhenEntriesFit`), and otherwise up to
  the first read that is: a cut text is longer than its limit, so a read can be refused as "already read"
  that the prompt dropped (`WorkMemory.LayoutShowsADroppedRead`).
- A short read is widened to the whole file by counting lines, and trailing blank lines are not
  counted (`Coherence.WidenedWrongly`).
- The key of a read is its words, so it collapses blanks inside quotes and makes one of a line break and
  a blank; the answer is then that of another command (`Coherence.QuotedBlanksShareAKey`,
  `Coherence.BrokenLinesShareAKey`). Between commands on one line without quotes or backslashes it is the
  command's own (`Coherence.HitOfTheSameWords`).
- A read is said to answer "never a wrong answer" for the file it names. It is told by its path once
  unquoted and cleaned, which is not always the file the shell opens: a backslash the shell takes away
  (`Coherence.QuotedPathSharesTheAnswer`) or a `..` after a link (`Coherence.ClimbSharesTheAnswer`) makes
  one file's read answer another's. Where the shell reads the path as it is written it is true
  (`Coherence.HitHoldsEveryLine`), but for `cat -n`, whose numbers a range asked without them gets too.
- Segments are said to be cut "only where the shell itself would". The terminator of a heredoc is read
  without regard to quotes and backslashes, but for quotes around all of it, so the line can be cut after a
  backslash or inside quotes
  (`Misreadings.EscapedSeparatorIsCut`, `Misreadings.QuotedSeparatorIsCut`); a terminator with tabs before
  it ends a heredoc opened by `<<` too (`Misreadings.IndentedTerminatorEnds`); and a quoted number opens none
  (`Misreadings.QuotedNumberOpensNothing`). A redirection by `>|` is cut, a command sent to the background
  by `&` is not cut from the next, and `;;` is cut twice (`Misreadings.ClobberIsCut`,
  `Misreadings.BackgroundIsNotCut`, `Misreadings.CaseEndIsCutTwice`). On a line with none of these it is
  true (`ShellReading.SplitsAsTheShell`).
- Reads side by side are said to read "exactly as before". They do if and only if no read is answered
  by an earlier one of the batch, none would be refused as a made-up check and none would get the
  privilege hint: `runReads` asks for none of the three (`Batches.SideBySideIsOneByOne`).
- "Nothing is published after" the fleet is closed: one snapshot may be (`Fleet.OneIsPublishedAfterClose`).
- The tenth question about the budget is asked although no answer to it can continue the run
  (`Runs.LastQuestionEndsTheRun`).
- "Every round is recorded in the journal": a cut call, a stalled round and the rounds that end a run
  otherwise than by a rejection are not, and a claim sent back is labelled as progress
  (`RunOutcomes.JournalOfTheRun`).
- "The search text must occur exactly once": overlapping occurrences are counted once
  (`EditBlock.CountOneIsOnePlace`); and a search that starts with the divider's line makes the check
  for made-up checks read more than the replacement (`EditBlock.CheckedTextIsTheReplacement`).
- The partial JSON reader drops `\r`, takes `\b` and `\f` for letters, and makes two replacement
  characters of a surrogate pair; every other string it decodes to what it means (`Live.DecodeUndoesJson`).
- Two single bars with nothing between them read as one separator (`SegmentLaws.JoinThenSplit`).

## What is assumed of the outside

- A command the readers' classification calls a read leaves the working tree as it is.
- A tree fingerprint tells two states apart whenever some read does, or is not taken.
- Two reads on one line, without quotes or backslashes, print the same when they have the same words.
- A command recognised as a read of some lines, on one line and with a path the shell reads as it is
  written, prints those lines, each ended by a newline, unless it numbers them (`cat -n`).
- Between two syncs of a round, box, agent and desktop actions do not write the tree; the theorems that
  need it say so, and `Coherence.BoxWritesAreNotSeen` shows why.
- The checks of a gate give the same records each time they run on the tree the run started from.
- The hint added to a failed privileged command is empty when the command succeeded and longer than
  one byte otherwise.
- The regular-expression tables (checks recognised, failures reported, made-up checks, missing tools)
  are arbitrary maps and flags.

## Model

| member | source | states |
|---|---|---|
| `Runs.BoundsBetweenRounds` | internal/agent/loop.go:500-541 | Between any two rounds of any run every counter is within its bound: retries lost, tooling retries (3), unusable replies in a row (below 5), repeats (below 4), the window of four signatures, and the four kinds of claims sent back. |
| `Runs.ClaimAccounting` | internal/agent/loop.go:531-540 | Whatever the outside answers, the anchor judges at most max(MaxRetries, 0) + 4 claims in a run, and claims are sent back at most 1 + 1 + 4 + the audit's limit times (none for background agents when the turn already held one). |
| `Runs.EveryRunEnds` | internal/agent/loop.go:543-590 | A run is over after ten budgets of rounds: it works at most 10 * maxSteps rounds and asks about its budget at most ten times. |
| `Runs.LastQuestionEndsTheRun` | internal/agent/loop.go:559-589 | The question asked when the tenth budget is spent buys nothing: the run ends there for a yes (at the ceiling) as for a no. |
| `Runs.StepMeans` | internal/agent/loop.go:500-541 | A round is judged by the anchor exactly when the model said done, no message is pending and no guard has anything left to say; it passes exactly when, besides, the anchor passed, no command failed to run and the final action worked. |
| `Runs.StepKeeps` | internal/agent/loop.go:940-998 | Each way a round can end moves exactly the counter it is charged to, and none past its bound unless it ends the run. |
| `Runs.AtTheClaimIs` | internal/agent/loop.go:689-702 | A claim is weighed with the ledger of the commands of its own round, everything else being as the round found it. |
| `RunOutcomes.PassIsSound` | internal/agent/loop.go:882-917 | A run that passes did so in a round whose claim had nothing left to hold it, whose checks all pass or fail as on the whole baseline (or which has a named reason to have none), whose gate is the one the task found or one the person approved, with no execution error and a final action that worked. |
| `RunOutcomes.ClaimsThatReachTheAnchor` | internal/agent/loop.go:826-838 | A claim reaches the anchor only if, of every check the run executed itself, the last command that covered it passed, or four claims were already sent back over a failing check. |
| `RunOutcomes.LedgerOfTheRun` | internal/agent/loop.go:689-702 | The ledger a run holds is what all the commands of its rounds leave, in the order they ran. |
| `RunOutcomes.RunsHoldSoundly` | internal/agent/loop.go:440-455 | All along a run the gate claims are held to is the one the task found or one the person approved in an earlier round whose claim was judged, and what is known of the baseline is what the gate gives on the tree the run started from. |
| `RunOutcomes.RoundAt` | internal/agent/loop.go:473-477 | Round k of a run is one step from what the rounds before it left. |
| `RunOutcomes.JournalOfTheRun` | internal/agent/loop.go:408-428 | Every round that ended as progress, a claim sent back, an unusable reply or a rejection is in the journal under its number and that label, and the journal gains nothing else but the person's messages. |
| `RunOutcomes.StepWrites` | internal/agent/loop.go:707-720 | One round writes the person's message, if any, and then exactly what the round was. |
| `Stalls.RepeatingRunStops` | internal/agent/loop.go:734-770 | From any point of a run: while no claim intervenes and the rounds that run repeat with a period p of at most four, unusable and cut replies between them or not, there are at most p + 4 of them and the (p + 4)-th is stopped as stalled. |
| `Stalls.NewRunNeverStalls` | internal/agent/loop.go:734-770 | A run whose every round differs from the four before it, and runs something whenever it was answered from memory, is never stopped as stalled. |
| `Stalls.RunGoesOn` | internal/agent/loop.go:473-477 | A run on more answers is the run continued from where it stands, so what holds from any bounded state holds from any point of a run. |
| `TaskRuns.TaskRun.ProgressMade` | internal/agent/loop.go:707-730 | A progress round is recorded, with the rounds that only read counted until the sources change, unless it stalls the run. |
| `TaskRuns.TaskRun.ClaimSentBack` | internal/agent/loop.go:803-839 | The four guards are asked in this order, and the first that has something to say sends the claim back. |
| `TaskRuns.TaskRun.RejectClaim` | internal/agent/loop.go:965-998 | A refused claim costs a retry, unless every failing check misses a tool and fewer than three such retries were given. |
| `TaskRuns.TaskRun.Round` | internal/agent/loop.go:500-541 | One round of the class is one step of the specification. |
| `TaskRuns.TaskRun.Execute` | internal/agent/loop.go:429-478 | The loop ends within 10 * maxSteps + 1 rounds and leaves the state and the rounds of the specified run. |
| `Subtasks.TasksRunBounded` | internal/agent/loop.go:147-159 | With at most S subtasks to a plan, R retries and k levels left, a task processes at most the sum of (S * (1 + R))^j for j up to k tasks, itself included; the recursion ends by its depth alone, for any answers at all. |
| `Subtasks.SequentialVerdict` | internal/agent/agent.go:1032-1072 | One after another, the parent passes exactly when every subtask did; otherwise it stops at the first that did not, and passed, failed and skipped add up to the whole list, the failed one being there unless the turn was cancelled. |
| `Subtasks.SubtaskPasses` | internal/agent/subtaskretry.go:24-36 | A subtask passes exactly when one of the tries it is given does, each given only after the one before failed and the turn was not cancelled. |
| `Subtasks.ParallelVerdict` | internal/agent/parallel.go:73-92 | Side by side, the parent passes exactly when every subtask passed and merged; those that did are merged whatever the others did, in the order of the plan. |
| `Subtasks.SubtasksWork` | internal/agent/loop.go:168-182 | A task below the top, an approved plan, applied suggestions and a goal never end as chat, as a question or as not understood. |
| `Subtasks.PassIsBacked` | internal/agent/goal.go:248-328 | A task that passes is a chat reply at the top of a turn, or its PASS goes down to runs of the loop, each from the tree and gate its own task found and with the limits, the depth and the goal of its task (a background agent and its subtasks have none), that ended in a claim with nothing left to hold it: checks that hold, a gate held or approved, no command that failed to run, a final action that worked. An uncancelled goal passes only by its own closing run, held to what the turn found. |
| `Subtasks.PassesSoundly` | internal/agent/loop.go:429-478 | The same of one run of the loop for a task. |
| `Subtasks.TurnState.AnswerOrAsk` | internal/agent/loop.go:187-303 | The chain of decisions gives the specified turn, and leaves an analysis with no open question when work goes on. |
| `Subtasks.ProcessTask` | internal/agent/loop.go:104-166 | The turn of a task: chat, question, subtasks under the depth limit, or a run of the loop. |
| `Subtasks.RunSubtasks` | internal/agent/agent.go:1032-1072 | The loop over the subtasks gives the verdict and the counts of the specification. |
| `Subtasks.RetrySubtask` | internal/agent/subtaskretry.go:24-36 | The retry loop gives the result of the last try that was reached. |
| `Subtasks.RunSubtasksParallel` | internal/agent/parallel.go:42-101 | In whatever order the subtasks end, the results land each in its own place and are merged in the order of the plan. |
| `Claims.ClaimPasses` | internal/agent/subagents.go:687-714 | A claim passes exactly when the agent is read-only, or it is a background agent with no check to run, or (the gate being unchanged, approved, or never fingerprinted) there is no gate, or its checks pass or fail as on the baseline. |
| `Claims.ClaimKeeps` | internal/agent/subagents.go:736-769 | Judging a claim keeps the baseline true, moves the gate only to one the person approved, and never passes what the whole baseline would not. |
| `Claims.Judge.GuardGate` | internal/agent/subagents.go:736-769 | A PASS from a gate that changed stands only with the person's approval, which makes the new gate the one held to. |
| `Claims.Judge.ValidateClaim` | internal/agent/subagents.go:687-714 | The verdict on a claim and what the judge holds after it are those specified. |
| `Anchor.Validate` | internal/anchor/anchor.go:112-173 | PASS only with a gate whose every check passed; no gate is its own kind of FAIL. |
| `Anchor.FailingAreTheFailed` | internal/anchor/anchor.go:219-227 | The failing names are those of the records that did not pass, and none exactly when all passed. |
| `Anchor.SameFailureIsTransitive` | internal/anchor/anchor.go:315-336 | Failing the same way carries over from one record to the next. |
| `Anchor.SameFailureAsItself` | internal/anchor/anchor.go:313-318 | A record is the same failure as itself exactly when its output was whole and the check ended by itself. |
| `Anchor.SameFailureBothWays` | internal/anchor/anchor.go:319-335 | Two records each the same failure as the other print the same failure lines with the same counts. |
| `Anchor.JudgedPasses` | internal/anchor/anchor.go:349-386 | A judged verdict passes exactly when it passed already, or some check failed and every one that did is the same failure before. |
| `Anchor.JudgedTwice` | internal/anchor/anchor.go:349-386 | Judging a judged verdict again changes nothing. |
| `Anchor.WithBaseline` | internal/anchor/anchor.go:349-386 | The records are marked in place and the verdict decided as specified. |
| `Anchor.Rerun` | internal/anchor/anchor.go:234-250 | Only the named checks are run, each reported under its name. |
| `Anchor.RerunIsPartOfAll` | internal/anchor/anchor.go:229-250 | Running some checks gives what running all of them gives, for those. |
| `Anchor.LazilyJudgedIsJudged` | internal/agent/baseline.go:92-106 | Judging with the checks measured so far, and those measured now, is judging against the whole baseline when the checkout works; when it does not, nothing known changes and nothing passes that the whole baseline would not. |
| `Anchor.MeasuringLessPassesLess` | internal/agent/baseline.go:108-135 | A baseline that measured less never passes more. |
| `Anchor.RunBaseline.Judge` | internal/agent/baseline.go:92-106 | Only the failing checks not known yet are measured, and the verdict is the lazily judged one. |
| `Anchor.RunBaseline.Measure` | internal/agent/baseline.go:110-135 | A checkout that cannot be made measures nothing; otherwise the named checks become known. |
| `Ledger.VerificationKeys` | internal/agent/verify.go:81-105 | The loop over the segments gives the specified keys. |
| `Ledger.KeysAreTheChecksRun` | internal/agent/verify.go:81-105 | A key is listed exactly when a segment runs that check in the directory of the last `cd` before it, and no key is listed twice. |
| `Ledger.TailIsTheEnd` | internal/agent/verify.go:322-325 | The tail kept is the end of the output, blanks aside, and all of it when it is short. |
| `Ledger.LastRunWins` | internal/agent/verify.go:310-329 | After any history of commands a key is in the ledger exactly when one covered it, with the record of the last that did. |
| `Ledger.OpenIsLastFailed` | internal/agent/verify.go:310-329 | A key is open exactly when the last command that covered it failed. |
| `Ledger.OneRecordACommand` | internal/agent/verify.go:331-351 | Two checks whose last run was the same command hold the same record, so listing one record a command loses nothing. |
| `Ledger.CheckLedger.NoteVerification` | internal/agent/verify.go:312-329 | Every check of the line gets this run as its last, the others keep theirs. |
| `Ledger.CheckLedger.OpenFailures` | internal/agent/verify.go:332-351 | Every open check is listed by its command, each command once, oldest round first; the list is empty exactly when none is open. |
| `Segments.LexKeepsEveryByte` | internal/agent/verify.go:143-296 | The pieces of a line, in order, are the line: every byte is in exactly one segment, separator or heredoc body. |
| `Segments.SplitSegments` | internal/agent/verify.go:143-160 | The index-by-index splitter gives what the lexer gives. |
| `Segments.SegmentSplitter.Step` | internal/agent/verify.go:168-204 | One step takes exactly the token the line goes on with, and the index advances. |
| `Segments.ReadHeredocWord` | internal/agent/verify.go:275-296 | The scan reads the specified terminator and its length. |
| `Segments.SegmentSplitter.SkipBody` | internal/agent/verify.go:258-273 | The index moves past the lines of one body, its terminator included. |
| `ShellReading.SplitsAsTheShell` | internal/agent/verify.go:143-204 | Of any command line whose heredocs and operators are as written, the splitter gives the commands the shell's own reading gives, byte by byte: it cuts at every operator that ends a command for the shell, by the shell's own list of them, outside quotes and redirections and not escaped, and nowhere else, and skips what the shell takes for the bodies of heredocs. |
| `ShellReading.SplitIsByteSplit` | internal/agent/verify.go:168-273 | The same from any point of a line, with any text already read and any heredocs already open. |
| `ShellReading.QuietIsAsWritten` | internal/agent/verify.go:168-204 | Every line with no `&`, no `<<`, no `;;` and no `>\|` is as written, whatever its quotes and escapes. |
| `ShellReading.TerminatorReadAsWritten` | internal/agent/verify.go:237-248 | What follows << opens the same heredoc for the splitter and the shell, with the same bytes, exactly when the terminator is quoted as a whole, by quotes that take nothing else away, and no number, or is bare with no quote and no backslash before a byte. |
| `ShellReading.BodyReadAsWritten` | internal/agent/verify.go:258-273 | A body ends where the shell ends it exactly when the first line that is the terminator, be it with tabs before it or as it stands, is so for both, or is the last line. |
| `SegmentLaws.JoinThenSplit` | internal/agent/verify.go:168-204 | Words with nothing special, joined by separators and cut, come back exactly when no two single bars have nothing but bars between them. |
| `SegmentLaws.AtMostTheWords` | internal/agent/verify.go:168-204 | Cutting a joined line never gives more segments than there were words. |
| `HeredocLaws.HeredocIsData` | internal/agent/verify.go:250-273 | Whatever text comes first and however many heredocs its last line opens, in any form and with anything around them: that text is cut as it is on its own, the lines of the bodies never become segments, and what follows is cut as it is on its own. The newline after the text need only be in no quotes, not escaped and in no body. |
| `HeredocLaws.OneHeredocIsData` | internal/agent/verify.go:250-273 | One heredoc in any form, between any plain text: its line is one segment, its body none. |
| `HeredocLaws.OpenerIsRead` | internal/agent/verify.go:275-296 | A terminator is read as its word after a dash or not, after blanks or not, bare or in quotes of either kind. |
| `Misreadings.EscapedSeparatorIsCut` | internal/agent/verify.go:290-296 | `<<a\;b` is cut right after the backslash, where the shell reads one word. |
| `Misreadings.QuotedSeparatorIsCut` | internal/agent/verify.go:290-296 | `<<E'F;G'` is cut inside the quotes, where the shell reads one word. |
| `Misreadings.CutsAfterTheWord` | internal/agent/verify.go:290-296 | Whatever quotes and backslashes a bare terminator holds, the splitter ends it at the first separator and cuts there. |
| `Misreadings.IndentedTerminatorEnds` | internal/agent/verify.go:258-273 | A heredoc opened by << is over for the splitter at its terminator with tabs before it, and what follows is cut as commands; the shell reads on to the terminator as it stands. |
| `Misreadings.QuotedNumberOpensNothing` | internal/agent/verify.go:237-248 | A quoted number opens a heredoc for the shell and none for the splitter. |
| `Misreadings.ClobberIsCut` | internal/agent/verify.go:190-197 | Two words with `>\|` between them, one command for the shell, are cut in two, whatever the words. |
| `Misreadings.BackgroundIsNotCut` | internal/agent/verify.go:190-197 | Two commands with `&` between them are one segment, whatever they are. |
| `Misreadings.CaseEndIsCutTwice` | internal/agent/verify.go:190-197 | The `;;` that ends a case clause is cut twice, leaving an empty segment. |
| `WorkMemory.AgreeThroughTheFirstCut` | internal/agent/workmemory.go:88-100 | The layout and the prompt agree, newest first, on what is shown and what is whole, up to and including the first read that is cut. |
| `WorkMemory.AgreeWhenEntriesFit` | internal/agent/workmemory.go:83-100 | With valid UTF-8, the layout and the prompt show the same reads and cut the same ones, everywhere, when no read is longer than the entry of one. |
| `WorkMemory.AfterALongRead` | internal/agent/workmemory.go:204-226 | A read longer than its entry is cut in both, and leaves the prompt less for the older reads than the layout counts, by the marker and at most three bytes more. |
| `WorkMemory.PromptWithinLayout` | internal/agent/workmemory.go:204-226 | With valid UTF-8, what the prompt carries is always part of what the layout says, and whole only where the layout says whole. |
| `WorkMemory.LayoutShowsADroppedRead` | internal/agent/workmemory.go:83-100 | With plain ASCII outputs the layout shows a read, whole, that the prompt cut, and one the prompt dropped. |
| `WorkMemory.PromptShowsMoreThanTheLayout` | internal/agent/workmemory.go:83-100 | Without valid UTF-8 the prompt can carry a read the layout has no room for. |
| `WorkMemory.AnswerIsAnAnswer` | internal/agent/workmemory.go:107-132 | The answer to a command is that of its own words while shown, else the newest round of the reads shown whole that hold its lines. |
| `WorkMemory.OneAnswer` | internal/agent/workmemory.go:123-131 | Whatever order the kept reads are looked at in, the answer is one. |
| `WorkMemory.RememberedIsValid` | internal/agent/workmemory.go:135-161 | Remembering keeps one place in the order for every kept read. |
| `RunMemory.WorkingMemory.Layout` | internal/agent/workmemory.go:88-100 | The loop gives the keys the layout shows and those it shows whole. |
| `RunMemory.WorkingMemory.Recall` | internal/agent/workmemory.go:107-132 | The lookup gives the answer the specification asks for. |
| `RunMemory.WorkingMemory.Remember` | internal/agent/workmemory.go:135-151 | The read goes to the newest place, with its range widened when it came back short. |
| `RunMemory.WorkingMemory.Forget` | internal/agent/workmemory.go:153-161 | The key leaves the map and its place in the order. |
| `RunMemory.WorkingMemory.Sync` | internal/agent/workmemory.go:169-177 | Every kept read is dropped unless the tree can be told to be the one last seen. |
| `FileReads.FileRead` | internal/agent/workmemory.go:329-347 | A recognised read has a first line of at least one and a last line not before it. |
| `FileReads.SedIsRead` | internal/agent/workmemory.go:397-419 | `sed -n 'A,Bp' path` is read as lines A to B of the cleaned path, for every A, B and plain path. |
| `FileReads.CatIsRead` | internal/agent/workmemory.go:352-361 | `cat path` and `cat -n path` are read as the whole of the cleaned path. |
| `FileReads.QuotedCatIsRead` | internal/agent/workmemory.go:352-361 | A path in quotes is read as the same path without them, also when it holds a backslash. |
| `FileReads.HeadIsRead` | internal/agent/workmemory.go:363-395 | `head path` is read as the first ten lines, and `head -n N path` and `head -N path` as the first N. |
| `FileReads.RecognisedReads` | internal/agent/workmemory.go:324-347 | Whatever is recognised is one of three programs, with nothing a shell would interpret, over the file its last word names. |
| `FileReads.KeptIsClean` | internal/agent/workmemory.go:421 | A cleaned path has no empty part and no ".", and ".." only before everything else and never under the root. |
| `FileReads.KeptTwice` | internal/agent/workmemory.go:421 | Cleaning the parts of a path again changes nothing. |
| `FileReads.AtoiOfDec` | internal/agent/workmemory.go:388-395 | A printed count is read back. |
| `BatchMemory.RememberingShowsLess` | internal/agent/workmemory.go:134-151 | Remembering a read that was not shown shows no other read that was not, and none whole that was not. |
| `BatchMemory.NewestThree` | internal/agent/workmemory.go:88-100 | Of the newest three reads each is shown, and whole exactly when it fits its entry. |
| `Coherence.WidenedWrongly` | internal/agent/workmemory.go:144-148 | A read of lines A..B of a longer file is taken to have reached its end exactly when its last line is blank and it asked for more than one. |
| `Coherence.WidenedByABlankLine` | internal/agent/workmemory.go:144-148 | Two lines of a file of three, the second blank, are recorded as the whole file. |
| `Coherence.HitHoldsEveryLine` | internal/agent/workmemory.go:116-131 | A containment hit names a record printed by the current tree by a read of the same path; when the shell reads that path as it is written, every line asked for occurs in the record, unless its command numbers its lines or stopped at a blank line of a file that goes on. |
| `Coherence.SharedPathSharesTheAnswer` | internal/agent/workmemory.go:116-131 | Of any two reads with different words and one parsed path and range there is a coherent memory that answers the one with what the other printed, and it is not what the one prints. |
| `Coherence.QuotedPathSharesTheAnswer` | internal/agent/workmemory.go:324-328 | So `cat 'a\b'` is answered with the output of `cat a\b`, which the shell takes for another file; for any path without blanks. |
| `Coherence.ClimbSharesTheAnswer` | internal/agent/workmemory.go:421 | And `cat name` with that of `cat dir/../name`, which is another file when dir is a link; for any two names. |
| `ReadKeys.SameKeyIsSameWords` | internal/agent/workmemory.go:78-81 | Two commands share a key exactly when they have the same words. |
| `Coherence.HitOfTheSameWords` | internal/agent/workmemory.go:108-115 | A hit by its own words was printed by a command of those words; for a command on one line, with no quote and no backslash, it is what that command prints itself, unless the one it was kept for was broken over lines. |
| `Coherence.SharedKeySharesTheAnswer` | internal/agent/workmemory.go:108-115 | Of any two different commands with one key there is a coherent memory that answers the one with what the other printed, and it is not what the one prints. |
| `Coherence.QuotedBlanksShareAKey` | internal/agent/workmemory.go:78-81 | So a search for 'a b' is answered with the output of the search for 'a  b'. |
| `Coherence.BrokenLinesShareAKey` | internal/agent/workmemory.go:78-81 | And one command with the output of two commands on two lines. |
| `Coherence.SyncRestores` | internal/agent/workmemory.go:163-177 | A sync leaves only records of the tree as it is, whatever wrote to it before. |
| `Coherence.ActionIsCoherent` | internal/agent/round.go:59-88 | Any action of a round leaves every record what the tree prints now. |
| `Coherence.RoundIsCoherent` | internal/agent/round.go:35-56 | Through a whole round, batches included, every record is what the tree prints. |
| `Recalls.RoundsAreCoherent` | internal/agent/round.go:35-56 | In every state of every round of every run, from a memory with nothing in it, whatever writes the tree between rounds and whatever else the outside answers from one round to the next, every record is what its command prints on the tree as it is. |
| `Recalls.AnswersAreTrue` | internal/agent/workmemory.go:107-132 | In every such state a read answered from memory is answered with the record of a read that printed it on the tree as it is: of the same words, or of the same path and, when the shell reads that path as it is written, with every line asked for in its output, the two exceptions named. |
| `Recalls.SourcesAreCurrent` | internal/agent/workmemory.go:179-186 | In every state of a round the fingerprint of the sources taken from the last look is the one a walk of the tree would give. |
| `Executions.RoundNotes` | internal/agent/round.go:394-407 | After a round the ledger is what it was and then the commands the executor ran in it, in the order they were recorded. |
| `Executions.LoopHearsTheExecutor` | internal/agent/loop.go:689-702 | What the loop weighs its claims with is what the executor ran, round by round. |
| `Executions.ClaimsOfTheExecutor` | internal/agent/loop.go:826-838 | A claim reaches the anchor only when no command the executor really ran leaves a check failing, or after four claims were sent back over one; and the loop and the executor hold one ledger. |
| `Coherence.BoxWritesAreNotSeen` | internal/agent/round.go:65-70 | An action that writes the tree with no sync after it leaves a read answered with what the tree no longer prints. |
| `Batches.SideBySideIsOneByOne` | internal/agent/parallelreads.go:52-81 | Reads run side by side give the output, failure, tree, counters and memory they give one after another exactly when no read of the batch is answered by an earlier one, none is refused as a made-up check and no hint is added to any. |
| `Batches.HeldAlong` | internal/agent/parallelreads.go:19-41 | A read of a batch would be answered by the memory along the way exactly when an earlier one ended well and has its words, or holds its lines and fits its entry. |
| `Batches.BatchIsOneByOne` | internal/agent/parallelreads.go:52-81 | If nothing tells the reads of a batch apart from reads run on their own, the two ways agree in everything. |
| `Batches.AgreeingIsPlain` | internal/agent/parallelreads.go:52-81 | Where the two ways agree in how many commands ran and how much was printed, nothing told the reads apart. |
| `Batches.RoundIsSequential` | internal/agent/round.go:45-55 | A whole round with such batches gives what its actions give one after another. |
| `RoundRuns.RoundRun.RunReads` | internal/agent/parallelreads.go:54-81 | Each read fills its own place, and they are recorded in order. |
| `RoundRuns.RoundRun.RunTheLine` | internal/agent/round.go:269-312 | A line is refused as a made-up check or by the policy, asked about, or run and recorded with its hint. |
| `RoundRuns.RoundRun.RunTheShell` | internal/agent/round.go:251-266 | A read still shown is answered from memory and counted, not run. |
| `RoundRuns.RoundRun.RunRound` | internal/agent/round.go:35-56 | A round syncs first, then runs its actions, batches side by side. |
| `WorkLogs.WorkLog.Write` | internal/agent/worklog.go:12-22 | A log keeps at most three times the cap, whatever is written to it. |
| `WorkLogs.WorkLog.TextWith` | internal/agent/worklog.go:24-29 | The log with extra is the middle cut of everything written and extra. |
| `WorkLogs.WriteAll` | internal/agent/worklog.go:12-29 | For every sequence of writes and every extra, the text is the middle cut of their concatenation. |
| `WorkLogs.EndsCutAsTheWhole` | internal/agent/worklog.go:24-29 | The two ends of a log that dropped its middle are cut to the text the whole is cut to. |
| `MiddleCut.Truncate` | internal/agent/agent.go:1253-1262 | The back-off loop stops at the last character start. |
| `MiddleCut.CutMiddle` | internal/agent/agent.go:1290-1297 | The two loops and the marker give the specified text. |
| `MiddleCut.TruncateMiddle` | internal/agent/agent.go:1281-1286 | A text within its limit is left as it is, and a longer one cut in its middle. |
| `MiddleCut.TruncateKeepsCharacters` | internal/agent/agent.go:1253-1262 | The cut of valid UTF-8 is valid, and backs off three bytes at most. |
| `MiddleCut.MiddleCutOfValidText` | internal/agent/agent.go:1281-1297 | The middle cut of valid UTF-8 is valid, a prefix and a suffix around the marker, longer than the limit and by at most 3 bytes and the marker, with an omitted count at most 3 below the true one. |
| `MiddleCut.MiddleCutOfAscii` | internal/agent/agent.go:1281-1297 | The exact length of the cut of ASCII text. |
| `MiddleCut.MiddleCutOfNoStarts` | internal/agent/agent.go:1290-1297 | Of a text with no character start only the marker is left. |
| `DirectOutputs.ShrinkOutputs` | internal/agent/direct.go:225-243 | Every tool message is cut, in place, to the limit of its age. |
| `DirectOutputs.ShrunkWithinLimits` | internal/agent/direct.go:225-243 | After every shrinking each tool output is within the limit of its age plus the cut's own overhead, and the conversation is as valid as it was. |
| `DirectOutputs.LimitShrinksWithAge` | internal/agent/direct.go:225-243 | As messages are added an output is never allowed more. |
| `DirectOutputs.CutOutputsAreCutAgain` | internal/agent/direct.go:225-243 | A text is over its limit after the cut exactly when it was before: a cut output is cut again. |
| `EditBlock.EditRoundTrips` | internal/agent/fileactions.go:88-110 | Reading what the direct mode prints gives path, search and replacement back exactly when the path has no newline, the search is not empty and no divider begins in it. |
| `EditBlock.CheckedTextIsTheReplacement` | internal/agent/fileactions.go:76-86 | The text looked at for made-up checks is the replacement exactly when the search does not start with the divider's line, and always ends with it. |
| `EditBlock.CountIsOne` | internal/agent/fileactions.go:110-124 | A count of one means a first occurrence with none from its end on. |
| `EditBlock.CountOneIsOnePlace` | internal/agent/fileactions.go:110-124 | A count of one means one place for exactly the search texts that cannot overlap themselves. |
| `EditBlock.OverlappingSearchIsEdited` | internal/agent/fileactions.go:110-124 | "aa" is counted once in "aaa", at two places. |
| `EditBlock.File.Edit` | internal/agent/fileactions.go:88-124 | An applied block replaces the one place of its search text; any other leaves the file unchanged. |
| `EditBlock.EditIsUndone` | internal/agent/direct.go:110-111 | The printed inverse of an applied edit gives the file back. |
| `Live.DecodePartial` | internal/agent/live.go:121-142 | The decoding loop gives the specified text and how much of it was used. |
| `Live.PartialStrings` | internal/agent/live.go:86-112 | The scan gives every value of the field, the last one possibly cut. |
| `Live.SnapshotsOnlyGrow` | internal/agent/live.go:86-112 | Of any two prefixes of a reply, the shorter shows values that are those of the longer, but for its last, which is a prefix. |
| `Live.DecodeUndoesWriting` | internal/agent/live.go:121-170 | What the decoder makes of any legal JSON string, whatever follows its closing quote. |
| `Live.DecodeUndoesJson` | internal/agent/live.go:121-170 | Decoding any legal JSON string gives the text RFC 8259 says it stands for exactly when it has no `\r`, `\b` or `\f` and no surrogate escape. |
| `Live.MistakenEscapes` | internal/agent/live.go:146-158 | A backspace escape decodes to the letter b, a form feed to f, a carriage return to nothing. |
| `Live.MistakenPair` | internal/agent/live.go:161-170 | A surrogate pair, one character of four bytes, decodes to six bytes. |
| `Live.FieldRoundTrips` | internal/agent/live.go:86-112 | Wherever the name of a field is found in a reply and a string follows it, with any space JSON allows, that string is shown next and the search goes on after its quote; what is shown is what the string means exactly when it has no mistaken escape. |
| `Live.RuneBytesAreUtf8` | internal/agent/live.go:161-170 | A decoded \u escape is written as valid UTF-8. |
| `Fleet.NoUpdateIsLost` | internal/agent/fleet.go:140-189 | Under every interleaving, once an agent was spawned and until close: an unpublished change has a timer set or a thread on its way to look; what was published is what was taken, in order, but for one on its way; and versions never go back. |
| `Fleet.AtRestIsUpToDate` | internal/agent/fleet.go:140-189 | A fleet with no timer and no thread under way has published its last list of members. |
| `Fleet.SomeoneCanMove` | internal/agent/fleet.go:140-189 | While a change is unpublished, the timer or some thread on its way can move. |
| `Fleet.MoveKeeps` | internal/agent/fleet.go:73-115 | Every move of every thread keeps the whole invariant. |
| `Fleet.AtMostOneAfterClose` | internal/agent/fleet.go:231-248 | At most one snapshot is handed over after the fleet is closed, and only one already taken when it was. |
| `Fleet.OneIsPublishedAfterClose` | internal/agent/fleet.go:231-248 | There is a run in which one is. |
| `Agents.TurnsAreBounded` | internal/agent/subagents.go:231-315 | Under every interleaving at most the limit run at once, ids are unique, a report is handed over at most once and only whole, at most one claim is held, and every agent has left when the turn is over. |
| `Agents.MoveKeeps` | internal/agent/subagents.go:560-585 | Every move of the main agent and of the others keeps the whole invariant. |
| `Agents.WaitingEnds` | internal/agent/subagents.go:123-131 | While the main agent waits for the others, one of them can move, or all have left. |
| `Agents.WaitingGetsNearer` | internal/agent/subagents.go:292-299 | Each move of an agent takes it a step nearer its end, so the wait is bounded. |
| `Agents.SlotsBound` | internal/agent/parallel.go:53-71 | In whatever order subtasks come and go, no more run at once than there are slots, and while one has not ended one can move. |
| `Agents.BothBound` | internal/agent/parallel.go:53-71 | Agents started before a plan and its subtasks side by side are bounded apart: whatever both have done, at most twice max_parallel run at once. |

## Left out

- Direct mode beyond its output limits and edit block: `directRun`, its gate retries and goal checks.
- The text of prompts, reasons, reports, journal details and progress lines; telemetry and timings.
- What the live view shows around the decoded strings (`liveView.add`, `liveText`).
- The policy, the read-only classification, the sandbox, git and the model client: their answers are inputs.
- Path and symlink confinement (`workspacePath`, `resolveExisting`) and the reading of gate files.
- The throttle interval of the fleet as a time: whether a change must wait is an arbitrary choice at each decision.
- Concurrent calls of the fleet's `close`: one caller is modelled, as in the program.
- What the shell does beyond quotes, escapes, separators and here-documents: comments, substitutions, lines joined inside a body, and parentheses, which stay in the segments. `&` and `>&` are read as POSIX has them, not `&>` as some shells do. A bare number after `<<` is a shift, as the program has it.
- Files whose last line lacks its newline, in the coherence of ranges.
- Non-ASCII blanks in `strings.Fields` and `strings.TrimSpace`.
- Approvals kept within a turn and asked for a whole round: the answer to each asked line is an input.
- Fleet.AtMostOneAfterClose: counts snapshots, and does not model the line each is printed as.
- Subtasks.RunSubtasksParallel: the subtasks end in any order, but none is half done while another runs; how many hold a slot at once is `Agents.SlotsBound`.
