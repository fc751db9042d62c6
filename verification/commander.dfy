/** The process registry and the actions of `CLI_Commander`
    (cli_commander.py:86-289). The registry is the in-memory dictionary
    that the source loads from and saves to its JSON file; every effect on
    tmux, the operating system, the clock and the temporary output file is
    an input in `Env`, so each action is a pure function of the registry
    and the world's answers. */
module Commander {
  import opened Wrappers
  import opened Text
  import opened OutputCapture
  import opened ProcessProbe

  /** One registry record. A key that is absent and a JSON null are both
      `None`. */
  datatype Entry = Entry(
    pid: Option<int>,
    command: Option<string>,
    startTime: Option<string>,
    tmuxSession: Option<string>,
    lastReplOutput: Option<string>)

  /** Process name to record; iteration order is not modelled. */
  type Registry = map<string, Entry>

  /** The record `new` stores before it starts the shell. */
  const FreshEntry: Entry := Entry(None, None, None, None, None)

  /** Python truthiness of an optional string. */
  predicate Truthy(s: Option<string>) {
    s.Some? && s.value != ""
  }

  /** What reading the per-session temporary output file yields.
      `Unreadable` stands for any error raised while the file is opened,
      read or removed afterwards: each makes the send fail. */
  datatype TmpFile = Missing | Unreadable | Holds(text: string)

  /** The world's answers to one action. */
  datatype Env = Env(
    sessionExists: bool,      // `tmux has-session` exits with status 0
    spawnedPid: Option<int>,  // pid of the new pane; None when new-session or list-panes fails or the pid does not parse
    now: string,              // the start-time stamp
    sendFails: bool,          // `tmux send-keys` exits with an error
    pane: Option<string>,     // stdout of `tmux capture-pane`; None when it fails
    tmpFile: TmpFile,
    delivers: (int, Signal) -> bool)  // whether a signal reaches a pid

  /** The result of `send` or `run`: success flag, the new registry, the
      command output a send reports (if any), and what was handed to tmux
      (the keystrokes sent, or the launch command of a new session). */
  datatype Outcome = Outcome(ok: bool, reg: Registry, response: Option<string>, sent: Option<string>)

  // ---------------------------------------------------------------------
  // Session classification and derived names
  // ---------------------------------------------------------------------

  /** Launch commands whose session is driven interactively. */
  const ReplKeywords: seq<string> := ["python", "python3", "bash", "sh", "zsh"]

  function StartsWithAny(s: string, keywords: seq<string>): (r: bool)
    ensures r <==> exists i :: 0 <= i < |keywords| && StartsWith(s, keywords[i])
  {
    if keywords == [] then false
    else StartsWith(s, keywords[0]) || StartsWithAny(s, keywords[1..])
  }

  /** A session is a REPL when its stored launch command, with a missing
      or null command read as "", starts with one of the keywords after
      stripping. */
  function IsRepl(command: Option<string>): (r: bool)
    ensures r ==> command.Some? && Strip(command.value) != ""
    ensures r <==> exists i :: 0 <= i < |ReplKeywords| && StartsWith(Strip(command.GetOr("")), ReplKeywords[i])
  {
    StartsWithAny(Strip(command.GetOr("")), ReplKeywords)
  }

  /** "python3" adds nothing to the keyword list: the prefix test needs
      only four keywords. */
  lemma {:induction false} IsReplByPrefix(command: Option<string>)
    ensures var t := Strip(command.GetOr(""));
      IsRepl(command) <==> StartsWith(t, "python") || StartsWith(t, "bash") || StartsWith(t, "sh") || StartsWith(t, "zsh")
  {
    var t := Strip(command.GetOr(""));
    var kws := ReplKeywords;
    if StartsWith(t, "python") {
      assert StartsWith(t, kws[0]);
    } else if StartsWith(t, "bash") {
      assert StartsWith(t, kws[2]);
    } else if StartsWith(t, "sh") {
      assert StartsWith(t, kws[3]);
    } else if StartsWith(t, "zsh") {
      assert StartsWith(t, kws[4]);
    }
    if IsRepl(command) {
      var i :| 0 <= i < |kws| && StartsWith(t, kws[i]);
      if i == 1 {
        assert t[..6] == t[..7][..6];
      }
    }
  }

  /** Worked cases. The keyword test is a bare prefix test, so a command
      such as "shuf" counts as a REPL through "sh". */
  lemma {:induction false} IsReplExamples()
    ensures IsRepl(Some("python3")) && IsRepl(Some("shuf"))
    ensures !IsRepl(Some("echo hi")) && !IsRepl(None) && !IsRepl(Some(""))
  {
    StripTrimmed("python3");
    StripTrimmed("shuf");
    assert StartsWith("python3", ReplKeywords[0]);
    assert StartsWith("shuf", ReplKeywords[3]);
    var t := "echo hi";
    StripTrimmed(t);
    IsReplByPrefix(Some(t));
    assert t[0] == 'e';
    assert !StartsWith(t, "python") && !StartsWith(t, "bash") && !StartsWith(t, "sh") && !StartsWith(t, "zsh") by {
      assert "python"[0] != 'e' && "bash"[0] != 'e' && "sh"[0] != 'e' && "zsh"[0] != 'e';
    }
    StripTrimmed("");
    IsReplByPrefix(None);
  }

  /** The tmux session name of a process: "cli_" followed by the name. */
  function SessionId(name: string): (id: string)
    ensures |id| == |name| + 4
    ensures id[..4] == "cli_" && id[4..] == name
  {
    "cli_" + name
  }

  /** Distinct processes get distinct sessions. */
  lemma {:induction false} SessionIdInjective(a: string, b: string)
    requires SessionId(a) == SessionId(b)
    ensures a == b
  {
  }

  const TmpPrefix: string := "/tmp/cli_commander_"
  const TmpSuffix: string := "_output.txt"

  /** Where a one-shot command's output is redirected; fixed per name. */
  function TmpPath(name: string): (path: string)
    ensures |path| == |TmpPrefix| + |name| + |TmpSuffix|
    ensures StartsWith(path, TmpPrefix)
    ensures path[|TmpPrefix|..|TmpPrefix| + |name|] == name
    ensures path[|TmpPrefix| + |name|..] == TmpSuffix
  {
    TmpPrefix + name + TmpSuffix
  }

  /** Distinct processes never share a temporary file. */
  lemma {:induction false} TmpPathInjective(a: string, b: string)
    requires TmpPath(a) == TmpPath(b)
    ensures a == b
  {
  }

  /** The shell text typed into a one-shot session: the stripped command in
      parentheses, both output streams redirected to the temporary file. */
  function WrapCommand(command: string, name: string): (w: string)
    ensures var c := Strip(command);
      |w| == |c| + |TmpPath(name)| + 10
      && w[0] == '(' && w[1..1 + |c|] == c
      && w[1 + |c|..5 + |c|] == ") > "
      && w[5 + |c|..|w| - 5] == TmpPath(name)
      && w[|w| - 5..] == " 2>&1"
  {
    "(" + Strip(command) + ") > " + TmpPath(name) + " 2>&1"
  }

  // ---------------------------------------------------------------------
  // Registry invariant
  // ---------------------------------------------------------------------

  /** A record is either a bare entry (no session yet) or a started one:
      pid, launch command, start time and session are set together, the
      session is the name's own, and a REPL baseline exists only for a
      started session and is never empty. */
  predicate WellFormedEntry(name: string, e: Entry) {
    && (e.pid.Some? <==> e.tmuxSession.Some?)
    && (e.command.Some? <==> e.tmuxSession.Some?)
    && (e.startTime.Some? <==> e.tmuxSession.Some?)
    && (e.tmuxSession.Some? ==> e.tmuxSession.value == SessionId(name))
    && (e.lastReplOutput.Some? ==> e.tmuxSession.Some? && e.lastReplOutput.value != "")
  }

  predicate WellFormed(reg: Registry) {
    forall k :: k in reg ==> WellFormedEntry(k, reg[k])
  }

  // ---------------------------------------------------------------------
  // send
  // ---------------------------------------------------------------------

  /** `send_to_process`. A REPL session gets the raw command as keystrokes,
      then its pane is captured and reported against the stored baseline,
      which becomes the new capture. A one-shot session gets the stripped
      command wrapped in a redirection, and its response is the stripped
      content of the temporary file, or "" when there is none. */
  function SendToProcess(reg: Registry, name: string, command: string, env: Env): (o: Outcome)
    ensures o.ok <==>
      && name in reg && Truthy(reg[name].tmuxSession) && !env.sendFails
      && (if IsRepl(reg[name].command) then env.pane.Some? else !env.tmpFile.Unreadable?)
    ensures !o.ok ==> o.reg == reg && o.response == None
    ensures o.reg.Keys == reg.Keys
    ensures forall k :: k in reg && k != name ==> o.reg[k] == reg[k]
    ensures name in reg && !IsRepl(reg[name].command) ==> o.reg == reg
    ensures o.ok && IsRepl(reg[name].command) ==>
      && o.sent == Some(command)
      && o.reg[name] == reg[name].(lastReplOutput := Some(Snapshot(env.pane.value)))
      && o.response == Some(Response(reg[name].lastReplOutput.GetOr(""), Snapshot(env.pane.value)))
      && o.response.value != ""
    ensures o.ok && !IsRepl(reg[name].command) ==>
      && o.sent == Some(WrapCommand(command, name))
      && o.response == Some(if env.tmpFile.Holds? then Strip(env.tmpFile.text) else "")
  {
    if name !in reg then Outcome(false, reg, None, None)
    else
      var info := reg[name];
      if !Truthy(info.tmuxSession) then Outcome(false, reg, None, None)
      else if IsRepl(info.command) then
        if env.sendFails then Outcome(false, reg, None, Some(command))
        else
          match env.pane
          case None => Outcome(false, reg, None, Some(command))
          case Some(raw) =>
            var output := Snapshot(raw);
            var prev := info.lastReplOutput.GetOr("");
            Outcome(true, reg[name := info.(lastReplOutput := Some(output))], Some(Response(prev, output)), Some(command))
      else
        var typed := WrapCommand(command, name);
        if env.sendFails then Outcome(false, reg, None, Some(typed))
        else
          match env.tmpFile
          case Missing => Outcome(true, reg, Some(""), Some(typed))
          case Unreadable => Outcome(false, reg, None, Some(typed))
          case Holds(text) => Outcome(true, reg, Some(Strip(text)), Some(typed))
  }

  // ---------------------------------------------------------------------
  // run and new
  // ---------------------------------------------------------------------

  /** `run`: start the session when tmux has none for this name, recording
      pid, stripped command, start time and session and keeping any other
      field of the record; otherwise the command is a `send`. */
  function Run(reg: Registry, name: string, command: string, env: Env): (o: Outcome)
    ensures name !in reg ==> !o.ok
    ensures !o.ok ==> o.reg == reg
    ensures o.reg.Keys == reg.Keys
    ensures forall k :: k in reg && k != name ==> o.reg[k] == reg[k]
    ensures name in reg && !env.sessionExists ==>
      && (o.ok <==> env.spawnedPid.Some?)
      && (o.ok ==> o.sent == Some(Strip(command)) && o.response == None)
      && (o.ok ==> o.reg[name] == reg[name].(pid := env.spawnedPid, command := Some(Strip(command)),
                                              startTime := Some(env.now), tmuxSession := Some(SessionId(name))))
    ensures name in reg && env.sessionExists ==> o == SendToProcess(reg, name, command, env)
  {
    if name !in reg then Outcome(false, reg, None, None)
    else if !env.sessionExists then
      var launch := Strip(command);
      match env.spawnedPid
      case None => Outcome(false, reg, None, Some(launch))
      case Some(pid) =>
        var started := reg[name].(pid := Some(pid), command := Some(launch),
                                  startTime := Some(env.now), tmuxSession := Some(SessionId(name)));
        Outcome(true, reg[name := started], None, Some(launch))
    else
      SendToProcess(reg, name, command, env)
  }

  /** `new`: an existing name is left alone and reported as success;
      otherwise a bare record is stored and "bash" is run in it. The bare
      record stays when the start fails. */
  function New(reg: Registry, name: string, env: Env): (o: Outcome)
    ensures name in reg ==> o.ok && o.reg == reg
    ensures o.reg.Keys == reg.Keys + {name}
    ensures forall k :: k in reg ==> o.reg[k] == reg[k]
    ensures name !in reg && !o.ok ==> o.reg[name] == FreshEntry
    ensures name !in reg && env.sessionExists ==> !o.ok
    ensures name !in reg && !env.sessionExists ==>
      && (o.ok <==> env.spawnedPid.Some?)
      && (o.ok ==> o.reg[name] == Entry(env.spawnedPid, Some("bash"), Some(env.now), Some(SessionId(name)), None))
  {
    if name in reg then Outcome(true, reg, None, None)
    else
      StripTrimmed("bash");
      Run(reg[name := FreshEntry], name, "bash", env)
  }

  // ---------------------------------------------------------------------
  // close, close_all, list
  // ---------------------------------------------------------------------

  /** The result of `close`: success flag, the new registry, the session
      asked to be killed, and whether SIGTERM was delivered to the pid. */
  datatype Closed = Closed(ok: bool, reg: Registry, killedSession: Option<string>, terminated: bool)

  /** `close`: an empty or unknown name fails; otherwise the session is
      killed if recorded, a running pid is sent SIGTERM, and the record is
      removed. */
  function Close(reg: Registry, name: string, delivers: (int, Signal) -> bool): (c: Closed)
    ensures c.ok <==> name != "" && name in reg
    ensures c.ok ==> c.reg.Keys == reg.Keys - {name} && forall k :: k in c.reg ==> c.reg[k] == reg[k]
    ensures !c.ok ==> c.reg == reg && c.killedSession == None && !c.terminated
    ensures c.killedSession.Some? <==> c.ok && Truthy(reg[name].tmuxSession)
    ensures c.killedSession.Some? ==> c.killedSession == reg[name].tmuxSession
    ensures c.terminated <==>
      c.ok && PidTruthy(reg[name].pid) && delivers(reg[name].pid.value, Probe) && delivers(reg[name].pid.value, Term)
  {
    if name == "" || name !in reg then Closed(false, reg, None, false)
    else
      var info := reg[name];
      var killed := if Truthy(info.tmuxSession) then info.tmuxSession else None;
      var terminated := IsProcessRunning(info.pid, delivers) && TerminateProcess(info.pid, delivers);
      Closed(true, reg - {name}, killed, terminated)
  }

  /** `close_all`: `close` on every name present at the start, in any
      order. Every record goes except one under the empty name, which
      `close` refuses. */
  method CloseAll(reg: Registry, delivers: (int, Signal) -> bool) returns (reg': Registry, terminated: set<string>)
    ensures reg'.Keys == reg.Keys * {""}
    ensures "" !in reg ==> reg' == map[]
    ensures forall k :: k in reg' ==> reg'[k] == reg[k]
    ensures forall k :: k in terminated <==>
      k in reg && k != "" && PidTruthy(reg[k].pid) && delivers(reg[k].pid.value, Probe) && delivers(reg[k].pid.value, Term)
  {
    reg' := reg;
    terminated := {};
    var pending := reg.Keys;
    while pending != {}
      invariant pending <= reg.Keys
      invariant forall k :: k in reg' <==> k in pending || (k in reg && k == "")
      invariant forall k :: k in reg' ==> reg'[k] == reg[k]
      invariant forall k :: k in terminated <==>
        k in reg && k !in pending && k != "" && PidTruthy(reg[k].pid)
        && delivers(reg[k].pid.value, Probe) && delivers(reg[k].pid.value, Term)
      decreases |pending|
    {
      var name :| name in pending;
      var c := Close(reg', name, delivers);
      reg' := c.reg;
      if c.terminated {
        terminated := terminated + {name};
      }
      pending := pending - {name};
    }
  }

  /** The result of `list`: success flag and the records shown. */
  datatype Listing = Listing(ok: bool, shown: Registry)

  /** `list`: with no name (or an empty one) every record is shown;
      otherwise only the named one, and an unknown name fails. */
  function List(reg: Registry, name: string): (l: Listing)
    ensures l.ok <==> name == "" || name in reg
    ensures l.shown.Keys <= reg.Keys && forall k :: k in l.shown ==> l.shown[k] == reg[k]
    ensures name == "" ==> l.shown == reg
    ensures name != "" ==> l.shown.Keys == reg.Keys * {name}
  {
    if name == "" then Listing(true, reg)
    else if name in reg then Listing(true, map[name := reg[name]])
    else Listing(false, map[])
  }

  // ---------------------------------------------------------------------
  // The action dispatcher
  // ---------------------------------------------------------------------

  /** `execute_command`: dispatch on the action word. Only `new` can leave
      the registry changed after failing (the bare record it stored). */
  method Execute(reg: Registry, action: string, name: string, command: string, env: Env)
    returns (ok: bool, reg': Registry, response: Option<string>)
    ensures action !in {"send", "new", "run", "close", "close_all", "list"} ==> !ok && reg' == reg
    ensures !ok && action != "new" ==> reg' == reg
    ensures !ok && action == "new" ==> reg' == reg[name := FreshEntry]
    ensures action in {"send", "run"} ==>
      reg'.Keys == reg.Keys && forall k :: k in reg && k != name ==> reg'[k] == reg[k]
    ensures action == "send" ==> var o := SendToProcess(reg, name, command, env);
      ok == o.ok && reg' == o.reg && response == o.response
    ensures action == "run" ==> var o := Run(reg, name, command, env);
      ok == o.ok && reg' == o.reg && response == o.response
    ensures action == "new" ==> var o := New(reg, name, env);
      ok == o.ok && reg' == o.reg && response == o.response
    ensures action == "close" ==> var c := Close(reg, name, env.delivers);
      ok == c.ok && reg' == c.reg
    ensures action == "new" ==> (name in reg ==> ok && reg' == reg)
    ensures action == "new" ==> reg'.Keys == reg.Keys + {name} && forall k :: k in reg ==> reg'[k] == reg[k]
    ensures action == "close" ==> (ok <==> name != "" && name in reg)
    ensures action == "close" && ok ==> reg'.Keys == reg.Keys - {name}
    ensures action == "close_all" ==> ok && reg'.Keys == reg.Keys * {""}
    ensures action == "list" ==> reg' == reg && (ok <==> name == "" || name in reg)
    ensures action in {"close", "close_all"} ==> forall k :: k in reg' ==> reg'[k] == reg[k]
    ensures WellFormed(reg) ==> WellFormed(reg')
  {
    response := None;
    if action == "send" {
      var o := SendToProcess(reg, name, command, env);
      SendPreservesWellFormed(reg, name, command, env);
      ok, reg', response := o.ok, o.reg, o.response;
    } else if action == "new" {
      var o := New(reg, name, env);
      NewPreservesWellFormed(reg, name, env);
      ok, reg', response := o.ok, o.reg, o.response;
    } else if action == "run" {
      var o := Run(reg, name, command, env);
      RunPreservesWellFormed(reg, name, command, env);
      ok, reg', response := o.ok, o.reg, o.response;
    } else if action == "close" {
      var c := Close(reg, name, env.delivers);
      ok, reg' := c.ok, c.reg;
    } else if action == "close_all" {
      var terminated;
      reg', terminated := CloseAll(reg, env.delivers);
      ok := true;
    } else if action == "list" {
      ok, reg' := List(reg, name).ok, reg;
    } else {
      ok, reg' := false, reg;
    }
  }

  // ---------------------------------------------------------------------
  // Invariant preservation
  // ---------------------------------------------------------------------

  lemma {:induction false} SendPreservesWellFormed(reg: Registry, name: string, command: string, env: Env)
    ensures WellFormed(reg) ==> WellFormed(SendToProcess(reg, name, command, env).reg)
  {
  }

  lemma {:induction false} RunPreservesWellFormed(reg: Registry, name: string, command: string, env: Env)
    ensures WellFormed(reg) ==> WellFormed(Run(reg, name, command, env).reg)
  {
  }

  lemma {:induction false} NewPreservesWellFormed(reg: Registry, name: string, env: Env)
    ensures WellFormed(reg) ==> WellFormed(New(reg, name, env).reg)
  {
  }
}
