/** Properties that relate several actions on one registry. */
module Scenarios {
  import opened Wrappers
  import opened Text
  import opened OutputCapture
  import opened ProcessProbe
  import opened Commander

  /** A second `new` on the same name changes nothing and still succeeds,
      whatever tmux answers the second time. */
  lemma {:induction false} NewIsIdempotent(reg: Registry, name: string, env1: Env, env2: Env)
    ensures var reg1 := New(reg, name, env1).reg;
      New(reg1, name, env2).ok && New(reg1, name, env2).reg == reg1
  {
  }

  /** Once closed, a name is gone: listing it and closing it again fail. */
  lemma {:induction false} CloseThenLookupsFail(reg: Registry, name: string, delivers: (int, Signal) -> bool)
    requires name != "" && name in reg
    ensures var reg1 := Close(reg, name, delivers).reg;
      !List(reg1, name).ok && !Close(reg1, name, delivers).ok && name !in List(reg1, "").shown
  {
  }

  /** A new shell is a REPL session, and the first command sent to it
      reports the whole cleaned pane, which becomes the baseline. */
  lemma {:induction false} FirstSendReportsWholeCapture(
    reg: Registry, name: string, command: string, env1: Env, env2: Env)
    requires name !in reg && !env1.sessionExists && env1.spawnedPid.Some?
    requires !env2.sendFails && env2.pane.Some?
    ensures var reg1 := New(reg, name, env1).reg;
      var o := SendToProcess(reg1, name, command, env2);
      && o.ok
      && o.response == Some(Snapshot(env2.pane.value))
      && o.reg[name].lastReplOutput == Some(Snapshot(env2.pane.value))
  {
    var reg1 := New(reg, name, env1).reg;
    StripTrimmed("bash");
    assert StartsWith("bash", ReplKeywords[2]);
    assert IsRepl(reg1[name].command);
  }

  /** In a REPL session whose pane has grown by some text below the stored
      baseline, a send reports exactly that text, stripped, and the cleaned
      pane becomes the new baseline. The raw capture may end in whitespace
      (tmux ends it with a newline); the baseline is a stored snapshot, so
      it has no whitespace at either end. */
  lemma {:induction false} NextSendReportsAppendedLines(
    reg: Registry, name: string, command: string, env: Env, prev: string, tail: string)
    requires name in reg && IsRepl(reg[name].command) && Truthy(reg[name].tmuxSession)
    requires reg[name].lastReplOutput == Some(prev)
    requires prev != "" && !IsSpace(prev[0]) && !IsSpace(prev[|prev| - 1])
    requires !AllSpace(tail)
    requires !env.sendFails && env.pane == Some(prev + "\n" + tail)
    ensures var o := SendToProcess(reg, name, command, env);
      && o.ok
      && o.response == Some(Strip(tail))
      && o.reg[name].lastReplOutput == Some(Snapshot(env.pane.value))
  {
    var kept := SnapshotOfAppended(prev, tail);
    ResponseToAppendedOutput(prev, kept);
  }

  /** Cleaning a raw pane made of a clean baseline, a newline and more
      text keeps the baseline and the newline, and drops only the trailing
      whitespace of the added text. */
  lemma {:induction false} SnapshotOfAppended(prev: string, tail: string) returns (kept: string)
    requires prev != "" && !IsSpace(prev[0]) && !IsSpace(prev[|prev| - 1])
    requires !AllSpace(tail)
    ensures Snapshot(prev + "\n" + tail) == prev + "\n" + kept
    ensures Strip(kept) == Strip(tail) && Strip(tail) != ""
  {
    var e := StripTrailing(tail);
    kept := tail[..e];
    assert tail == kept + tail[e..];
    var x := prev + "\n";
    StripAppended(x, kept, tail[e..]);
    assert Strip(x + tail) != "";
  }

  /** A one-shot session never changes the registry on a send, and reports
      the file's text without surrounding whitespace. */
  lemma {:induction false} OneShotSendKeepsRegistry(
    reg: Registry, name: string, command: string, env: Env)
    requires name in reg && Truthy(reg[name].tmuxSession) && !IsRepl(reg[name].command)
    requires !env.sendFails && env.tmpFile.Holds?
    ensures var o := SendToProcess(reg, name, command, env);
      o.ok && o.reg == reg && o.response == Some(Strip(env.tmpFile.text))
      && o.sent == Some("(" + Strip(command) + ") > " + TmpPath(name) + " 2>&1")
  {
  }
}
