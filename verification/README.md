# CLI_Commander in Dafny

CLI_Commander (`cli_commander.py`) keeps named, long-lived shell sessions in
tmux and records them in a JSON registry. A session is either a REPL (its
launch command starts with `python`, `python3`, `bash`, `sh` or `zsh`),
driven by typing keystrokes and reading the pane back, or a one-shot
session, whose commands are wrapped so that their output goes to a
per-name temporary file. For a REPL, each send reports what is new in the
pane since the previous send, or the whole pane on the first send and when
nothing changed.

This project models the deterministic logic inside that plumbing:

- `Text`: Python's `str.strip`, `str.splitlines`, `"\n".join` and
  `str.startswith`, as far as the program uses them, with the
  round-trip facts between split and join.
- `OutputCapture`: the output-diff engine of the REPL path. It cleans the
  pane capture, finds the longest common line prefix with the stored
  baseline, and reports the stripped remainder, or the `(No output)`
  sentinel.
- `ProcessProbe`: the falsy-pid guards of `is_process_running` and
  `terminate_process`.
- `Commander`: the registry (process name to record) and the actions
  `send`, `run`, `new`, `close`, `close_all`, `list` and the dispatcher
  `execute_command`. It also builds the derived strings: session id, temp
  path and wrapped command. Every answer from the outside world is an
  input in `Env`. This covers tmux has-session, the spawned pane pid,
  send-keys failure, the captured pane, the temp file, the clock and
  signal delivery (signal 0 and SIGTERM answered separately). So each
  action is a pure function of the registry and those answers.
- `Scenarios`: properties relating several actions.
- `Cli`: `main`'s switch precedence, validation and exit status, and one
  invocation end to end.

Behaviour of the code that is easy to miss:

- With no stored baseline, or a pane that has not changed, the REPL path
  reports the whole capture, not the sentinel.
- `close_all` calls `close` on every name, and `close` refuses an empty
  name. So a record stored under the empty name survives `close_all`. The
  registry is empty afterwards only when there was no such record.
- `new` stores a bare record before starting `bash`. If the start fails,
  that record stays, so a failed `new` is the one action that changes the
  registry.
- The temporary file path depends only on the name. Two invocations on the
  same name share it.
- The keyword test is a bare prefix test, so `shuf` or `shred` count as
  REPLs through `sh`.
- Apart from an uncaught error from the two unguarded tmux calls (see
  "Left out"), the exit status is 1 only when a required switch value is
  missing. A failed action still exits with 0.
- The usage text mentions `--send`, but the parser defines no such
  switch. `main` therefore never dispatches `send`.
- Negative pids pass the falsy-pid guard.

## Model

| member | source | states |
|---|---|---|
| Text.Strip | cli_commander.py:148 | the result has no whitespace at either end, is no longer than the input, and is empty exactly when the input is all whitespace |
| Text.StripTrimmed | cli_commander.py:217 | stripping text that already has no outer whitespace returns it unchanged |
| Text.StripSlice | cli_commander.py:148 | the stripped text is one contiguous slice of the input with only whitespace before and after it |
| Text.JoinShape | cli_commander.py:164 | the newline-joined text opens with the first line, has a newline right after it when more lines follow, and closes with the last line |
| Text.StripUnique | cli_commander.py:148 | text with no whitespace at either end, framed only by whitespace, is exactly what stripping returns |
| Text.StripTrailing | cli_commander.py:148 | a text that is not all whitespace splits into a part ending in a non-space and trailing whitespace, and the part strips like the whole |
| Text.StripFrame | cli_commander.py:148 | for text that is not all whitespace, the stripped text sits between two all-whitespace margins and ends in a non-space |
| Text.StripAppended | cli_commander.py:148 | text opening with a non-space, followed by a part ending in a non-space and then only whitespace, strips to everything before that whitespace |
| Text.StripDropsTrailingSpace | cli_commander.py:164 | a trailing whitespace character does not change the stripped text |
| Text.SplitLines | cli_commander.py:155-156 | splitting yields no lines exactly for the empty text |
| Text.SplitLinesNoNewline | cli_commander.py:155-156 | no line produced by splitting contains a newline |
| Text.JoinSplitLines | cli_commander.py:155-166 | joining the lines of a text with newlines gives back the text, less one final newline |
| Text.SplitLinesJoin | cli_commander.py:155-166 | splitting the newline-join of newline-free lines whose last line is non-empty gives back those lines |
| Text.SplitLinesAt | cli_commander.py:155-156 | the lines of a text split at a single newline are the lines before it followed by the lines after it |
| Text.JoinSuffix | cli_commander.py:164-166 | the join of a suffix of the lines is a tail of the join of all lines |
| OutputCapture.Snapshot | cli_commander.py:148-150 | the cleaned capture is never empty and has no outer whitespace; it is the sentinel exactly when the pane is all whitespace, and the stripped pane otherwise |
| OutputCapture.CommonPrefixLen | cli_commander.py:157-162 | the count of leading lines both captures share: within both lengths, equal prefixes, and the next lines differ |
| OutputCapture.CommonPrefixLenUnique | cli_commander.py:157-162 | any count with those three properties is the common-prefix length |
| OutputCapture.DiffText | cli_commander.py:163-164 | the reported diff has no whitespace at either end, and is empty when every current line was already among the previous lines at the same place |
| OutputCapture.DiffStart | cli_commander.py:157-162 | the scanning loop stops at the longest common line prefix, never beyond either line count |
| OutputCapture.Response | cli_commander.py:151-170 | a non-empty capture gives a non-empty response; with no baseline or an unchanged pane the whole capture is returned |
| Text.SplitLinesOfAppended | cli_commander.py:155-156 | the lines of a text, a newline and more text are the text's lines followed by the added text's lines |
| OutputCapture.DiffTextOfExtension | cli_commander.py:157-166 | when the new lines extend the old ones, the diff is the added lines joined and stripped |
| OutputCapture.ResponseToAppendedOutput | cli_commander.py:151-170 | when the pane is the baseline followed by a newline and more text, the response is that text stripped, or the sentinel if it is blank |
| OutputCapture.ResponseOnFirstLineDivergence | cli_commander.py:157-166 | when the first lines differ, the whole cleaned capture is reported |
| OutputCapture.ResponseIsSliceOfSnapshot | cli_commander.py:152-170 | the response is the sentinel or a contiguous piece of the current capture |
| OutputCapture.DiffTextIsSlice | cli_commander.py:155-166 | the stripped new lines after the common prefix form one contiguous piece of the capture they came from |
| OutputCapture.DiffTextFromStart | cli_commander.py:157-166 | when the first lines already differ, the diff is the whole joined text of the new lines, stripped |
| OutputCapture.ResponseExamples | cli_commander.py:151-170 | worked cases: no baseline and an unchanged pane give the whole pane, one appended line gives that line |
| OutputCapture.ResponseExampleFirstLineChanged | cli_commander.py:157-170 | worked case: a changed first line gives the whole pane |
| ProcessProbe.IsProcessRunning | cli_commander.py:76-84 | a falsy pid is never running; otherwise running means signal 0 is delivered |
| ProcessProbe.TerminateProcess | cli_commander.py:59-73 | a falsy pid is refused; otherwise success means SIGTERM was delivered |
| Commander.StartsWithAny | cli_commander.py:134-137 | true exactly when the text starts with some keyword of the list |
| Commander.IsRepl | cli_commander.py:130-137 | a REPL exactly when the stripped launch command, with a missing one read as empty, starts with one of the five keywords |
| Commander.IsReplByPrefix | cli_commander.py:131-137 | the keyword python3 is redundant: four prefixes decide the classification |
| Commander.IsReplExamples | cli_commander.py:131-137 | python3 and shuf are REPLs; echo hi, an empty and a missing command are not |
| Commander.SessionId | cli_commander.py:219 | the session id is cli_ followed by the name |
| Commander.SessionIdInjective | cli_commander.py:219 | distinct names get distinct sessions |
| Commander.TmpPath | cli_commander.py:177 | the temp path is the fixed prefix, the name and the fixed suffix |
| Commander.TmpPathInjective | cli_commander.py:177 | distinct names get distinct temp files |
| Commander.WrapCommand | cli_commander.py:177-179 | the typed text is the stripped command in parentheses, redirected with stderr to the name's temp path |
| Commander.SendToProcess | cli_commander.py:120-192 | success exactly when the name is known, has a session, the keystrokes go through and the capture or file read succeeds; failure changes nothing; a REPL send stores the full cleaned capture as baseline and reports a non-empty response; a one-shot send never changes the registry; no other record changes |
| Commander.Run | cli_commander.py:213-246 | unknown name fails unchanged; with no live session a pid is needed, and success records pid, stripped command, start time and the name's session while keeping other fields; with a live session it is a send; no other record changes |
| Commander.New | cli_commander.py:200-211 | an existing name succeeds unchanged; otherwise exactly the name is added, as a bare record if the start fails, or as a started bash session with no baseline |
| Commander.Close | cli_commander.py:248-265 | succeeds exactly for a known non-empty name, removing only that record; asks tmux to kill the recorded session, and reports a termination exactly when the pid is truthy, answers the liveness probe and receives SIGTERM |
| Commander.CloseAll | cli_commander.py:267-272 | every record except one under the empty name is removed, in any order; termination is reported for exactly the removed records whose pid answers the probe and receives SIGTERM |
| Commander.List | cli_commander.py:274-286 | fails exactly for an unknown non-empty name; shows only existing records, all of them when no name is given |
| Commander.Execute | cli_commander.py:194-289 | send, run, new and close give exactly the success flag, registry and response (the command output a send reports) of the action they dispatch to; unknown actions fail unchanged; a failed action leaves the registry unchanged except for the bare record of a failed new; close_all keeps only an empty-name record; list changes nothing; the registry invariant is preserved |
| Commander.SendPreservesWellFormed | cli_commander.py:139-174 | a send keeps every record either bare or fully started with its own session and a non-empty baseline |
| Commander.RunPreservesWellFormed | cli_commander.py:224-240 | starting a session keeps the registry invariant |
| Commander.NewPreservesWellFormed | cli_commander.py:200-211 | adding a bare record and starting bash keeps the registry invariant |
| Scenarios.NewIsIdempotent | cli_commander.py:200-211 | a second new on the same name succeeds and changes nothing |
| Scenarios.CloseThenLookupsFail | cli_commander.py:248-286 | after close, listing or closing the name fails and a full listing omits it |
| Scenarios.FirstSendReportsWholeCapture | cli_commander.py:143-172 | the first send to a freshly started bash reports the whole cleaned pane and stores it as the baseline |
| Scenarios.SnapshotOfAppended | cli_commander.py:148-150 | cleaning a raw pane made of a clean baseline, a newline and non-blank text keeps the baseline and the newline and drops only the text's trailing whitespace |
| Scenarios.NextSendReportsAppendedLines | cli_commander.py:151-172 | when the raw pane (trailing newline and all) is the stored baseline with more non-blank text below it, a send reports exactly that text, stripped, and stores the cleaned pane as the new baseline |
| Scenarios.OneShotSendKeepsRegistry | cli_commander.py:175-189 | a one-shot send leaves the registry alone and reports the stripped file text |
| Cli.Main | cli_commander.py:313-357 | exit status 1 exactly on rejection; only the five registry actions are dispatched; new, run and close get a non-empty name and run a non-empty command |
| Cli.FirstSet | cli_commander.py:329-355 | the position of the first switch that is set |
| Cli.MainFollowsFirstSwitch | cli_commander.py:329-357 | the first switch set, in the order new, run, close, close_all, list, test, decides the action; rejection happens exactly when that switch's required values are missing; with no switch the help is shown |
| Cli.Invoke | cli_commander.py:326-357 | one invocation: the exit status is main's; a rejection, help or list leaves the registry unchanged; `--new` leaves the name registered with new's registry, `--run` saves run's registry, close_all and close remove their keys; the registry invariant is preserved |

## Left out

- tmux subprocess calls (has-session, new-session, list-panes, send-keys, capture-pane, kill-session): external process I/O. Their results are `Env` fields, and the failures the code catches are booleans or `None`. Two calls are not guarded by a `try` (has-session in `run`, kill-session in `close`); see the Commander.Run and Commander.Close lines below.
- `os.kill`, the SIGKILL follow-up and `time.sleep`: OS signals and timing. Only the falsy-pid guards and the delivered-or-not answer are modelled.
- JSON load and save of the registry file, and the temp file read and remove: file I/O. The registry is a map, and the temp file is a `TmpFile` input.
- `log` timestamps and printing, `argparse` parsing, `--wait` and the unused `wait_time`, and `run_test`: presentation and demo plumbing.
- Cli.Invoke: says nothing about the registry after `--test`. The demo in `run_test` drives a second commander over the same registry file, and that is not modelled.
- Shell quoting and injection through the f-string commands: they depend on shell semantics.
- Text.SplitLines: splits on '\n' only. Python's `splitlines` also breaks at '\r', '\v', '\f', '\x1c'-'\x1e', '\x85' and the Unicode line and paragraph separators.
- Text.Strip: strips the ASCII whitespace set (space, '\t'-'\r', '\x1c'-'\x1f'). Python also strips Unicode spaces such as '\x85' and '\xa0'.
- Commander.Entry: an empty record `{}` is falsy in `list`. The model has no empty record, so that failure is not modelled.
- Commander.Execute: takes the name and command as strings. A `None` name is passed as "" by `Cli.Invoke`, which matches `close`, `close_all` and `list`. `main` never passes `None` to `new`, `run` or `send`.
- Commander.Run: `tmux has-session` (cli_commander.py:221-222) runs before the `try`, so an error raised when the shell cannot be started escapes `execute_command` and `main`, and the program ends with a traceback and exit status 1. The model has no such path.
- Commander.Run: the `tmux session started (PID: …, session: …)` line logged as a RESPONSE after a fresh start (cli_commander.py:239) is not modelled; the outcome's `response` is only the command output a send reports.
- Commander.Close: `tmux kill-session` (cli_commander.py:256-258) has no `try` around it. An error raised there escapes with a traceback and exit status 1, and the record is not deleted; inside `close_all` the loop stops part-way. The model always removes a known non-empty name.
- Commander.CloseAll: one `delivers` answer per pid and signal serves every close, so two records sharing a pid are both reported terminated, although the second liveness probe would really come after the first SIGTERM; only the reported set depends on this, not the registry.
- Commander.CloseAll: dictionary iteration order is not modelled. The loop closes the names in any order, and its result does not depend on it.
- Commander.Registry: values in the file that are not strings or integers, such as a non-string `command`, are not modelled.
