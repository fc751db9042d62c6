/** The command-line front end, `main` (cli_commander.py:313-357): flag
    validation, the choice of action and the exit status. Argument parsing
    itself is not modelled; `Args` is what the parser hands over. */
module Cli {
  import opened Wrappers
  import opened Commander

  /** Parsed command line: the six switches and the two optional values. */
  datatype Args = Args(
    newFlag: bool, runFlag: bool, closeFlag: bool, closeAllFlag: bool,
    listFlag: bool, testFlag: bool,
    name: Option<string>, command: Option<string>)

  /** What `main` goes on to do. */
  datatype Dispatch =
    | Reject                                                   // a required value is missing
    | Call(action: string, name: Option<string>, command: Option<string>)
    | RunTest
    | Help

  datatype Exit = Exit(code: int, dispatch: Dispatch)

  /** `main`: the first switch set, in the order new, run, close,
      close_all, list, test, decides; with none set the help text is
      printed. The status is 1 only for a missing required value: a failed
      action still exits with 0. */
  function Main(a: Args): (e: Exit)
    ensures e.code == 0 || e.code == 1
    ensures e.code == 1 <==> e.dispatch == Reject
    ensures e.dispatch.Call? ==> e.dispatch.action in {"new", "run", "close", "close_all", "list"}
    ensures e.dispatch.Call? && e.dispatch.action in {"new", "run", "close"} ==> Truthy(e.dispatch.name)
    ensures e.dispatch.Call? && e.dispatch.action == "run" ==> Truthy(e.dispatch.command)
  {
    if a.newFlag then
      if !Truthy(a.name) then Exit(1, Reject) else Exit(0, Call("new", a.name, None))
    else if a.runFlag then
      if !Truthy(a.name) || !Truthy(a.command) then Exit(1, Reject) else Exit(0, Call("run", a.name, a.command))
    else if a.closeFlag then
      if !Truthy(a.name) then Exit(1, Reject) else Exit(0, Call("close", a.name, None))
    else if a.closeAllFlag then Exit(0, Call("close_all", None, None))
    else if a.listFlag then Exit(0, Call("list", a.name, None))
    else if a.testFlag then Exit(0, RunTest)
    else Exit(0, Help)
  }

  /** Reference for the switch precedence: switches paired with the word
      each selects, in the order `main` checks them. */
  function Switches(a: Args): seq<(bool, string)> {
    [(a.newFlag, "new"), (a.runFlag, "run"), (a.closeFlag, "close"),
     (a.closeAllFlag, "close_all"), (a.listFlag, "list"), (a.testFlag, "test")]
  }

  /** Position of the first switch that is set; |switches| when none is. */
  function FirstSet(switches: seq<(bool, string)>): (i: nat)
    ensures i <= |switches|
    ensures forall j :: 0 <= j < i ==> !switches[j].0
    ensures i < |switches| ==> switches[i].0
  {
    if switches == [] || switches[0].0 then 0
    else 1 + FirstSet(switches[1..])
  }

  /** `main` dispatches on exactly the first switch set, and rejects exactly
      when that switch needs a value that is absent or empty. */
  lemma {:induction false} MainFollowsFirstSwitch(a: Args)
    ensures var s := Switches(a);
      var i := FirstSet(s);
      if i == |s| then Main(a) == Exit(0, Help)
      else
        var w := s[i].1;
        && (Main(a).code == 1 <==>
              ((w == "new" || w == "close") && !Truthy(a.name))
              || (w == "run" && (!Truthy(a.name) || !Truthy(a.command))))
        && (Main(a).dispatch.Call? <==> Main(a).code == 0 && w != "test")
        && (Main(a).dispatch.Call? ==> Main(a).dispatch.action == w)
        && (Main(a).dispatch == RunTest <==> w == "test")
  {
    var s := Switches(a);
    var i := FirstSet(s);
    assert s[0] == (a.newFlag, "new") && s[1] == (a.runFlag, "run") && s[2] == (a.closeFlag, "close");
    assert s[3] == (a.closeAllFlag, "close_all") && s[4] == (a.listFlag, "list") && s[5] == (a.testFlag, "test");
    if a.newFlag {
      assert i == 0;
    } else if a.runFlag {
      assert i == 1;
    } else if a.closeFlag {
      assert i == 2;
    } else if a.closeAllFlag {
      assert i == 3;
    } else if a.listFlag {
      assert i == 4;
    } else if a.testFlag {
      assert i == 5;
    } else {
      assert i == 6;
    }
  }

  /** One invocation: `main` followed by the action it selects, with an
      absent name or command passed on as "" (the actions treat both
      alike on every path `main` can reach). Returns the exit status and
      the registry that is saved. */
  method Invoke(a: Args, reg: Registry, env: Env) returns (code: int, reg': Registry)
    ensures code == Main(a).code
    ensures Main(a).dispatch == Reject || Main(a).dispatch == Help ==> reg' == reg
    ensures Main(a).dispatch.Call? && Main(a).dispatch.action == "list" ==> reg' == reg
    ensures Main(a).dispatch.Call? && Main(a).dispatch.action == "close_all" ==> reg'.Keys == reg.Keys * {""}
    ensures Main(a).dispatch.Call? && Main(a).dispatch.action == "close" ==> reg'.Keys == reg.Keys - {a.name.value}
    ensures Main(a).dispatch.Call? && Main(a).dispatch.action == "new" ==>
      a.name.value in reg' && reg' == New(reg, a.name.value, env).reg
    ensures Main(a).dispatch.Call? && Main(a).dispatch.action == "run" ==>
      reg' == Run(reg, a.name.value, a.command.value, env).reg
    ensures WellFormed(reg) ==> WellFormed(reg')
  {
    var e := Main(a);
    code := e.code;
    match e.dispatch
    case Call(action, name, command) =>
      var ok, response;
      ok, reg', response := Execute(reg, action, name.GetOr(""), command.GetOr(""), env);
    case _ =>
      // Rejection and help touch nothing; the demo run is not modelled.
      reg' := reg;
  }
}
