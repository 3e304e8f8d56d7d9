/**
 * `execute_actions`: for each action naming a program, wait until the
 * controller is idle, stop it, load the program, play it, and wait until it
 * has finished, skipping the rest of an action whose load or play the
 * controller refuses.
 *
 * The reference functions below say which commands are sent, in terms of the
 * controller's replies; the method `ExecuteActions` is proved to send exactly
 * those over a `Dashboard.Session`.
 */
module Executor {
  import opened Wrappers
  import opened Seqs
  import opened PyText
  import opened Json
  import opened Dashboard

  /** The default `programs_folder`. */
  const DefaultFolder: string := "/programs/interaction/"

  /** `"true" in response.lower()`: the controller reports a running program. */
  predicate Busy(response: string) {
    Contains(Lower(response), "true")
  }

  /** The controller refused the `load` command. */
  predicate LoadRejected(response: string) {
    Contains(response, "File not found") || Contains(response, "Loading program failed")
  }

  /** The controller refused the `play` command. */
  predicate PlayRejected(response: string) {
    Contains(response, "Failed to execute") || Contains(response, "Starting program failed")
  }

  /** A closed connection never reports a running program, so every busy reply is one the controller sent. */
  lemma BusyIsSent(responses: seq<string>, i: nat)
    ensures Busy(ResponseAt(responses, i)) ==> i < |responses|
  {
    if i >= |responses| {
      assert Lower("") == "";
    }
  }

  /** How many replies from `n` on report a running program. */
  function BusyRun(responses: seq<string>, n: nat): nat
    decreases |responses| - n
  {
    if n < |responses| && Busy(ResponseAt(responses, n)) then 1 + BusyRun(responses, n + 1) else 0
  }

  /** `BusyRun` counts the busy replies from `n` up to the first that is not busy. */
  lemma {:induction false} BusyRunSpec(responses: seq<string>, n: nat)
    ensures forall j | n <= j < n + BusyRun(responses, n) :: Busy(ResponseAt(responses, j))
    ensures !Busy(ResponseAt(responses, n + BusyRun(responses, n)))
    decreases |responses| - n
  {
    BusyIsSent(responses, n);
    if n < |responses| && Busy(ResponseAt(responses, n)) {
      BusyRunSpec(responses, n + 1);
    }
  }

  /** `BusyRun` is the only count with those two properties. */
  lemma {:induction false} BusyRunUnique(responses: seq<string>, n: nat, k: nat)
    requires forall j | n <= j < n + k :: Busy(ResponseAt(responses, j))
    requires !Busy(ResponseAt(responses, n + k))
    ensures BusyRun(responses, n) == k
    decreases k
  {
    BusyIsSent(responses, n);
    if k > 0 {
      BusyRunUnique(responses, n + 1, k - 1);
    }
  }

  /** `count` copies of `cmd`. */
  function Repeat(cmd: string, count: nat): (r: seq<string>)
    ensures |r| == count
  {
    if count == 0 then [] else Repeat(cmd, count - 1) + [cmd]
  }

  /** Every entry of `Repeat(cmd, count)` is `cmd`. */
  lemma {:induction false} RepeatAll(cmd: string, count: nat)
    ensures forall j | 0 <= j < count :: Repeat(cmd, count)[j] == cmd
  {
    if count > 0 {
      RepeatAll(cmd, count - 1);
    }
  }

  /** What a run of actions does: the commands it sends, the next reply to read, the progress messages, and whether it raised. */
  datatype Run = Run(cmds: seq<string>, next: nat, progress: nat, crashed: bool)

  /** One run followed by another that starts where the first stopped reading. */
  function Then(first: Run, second: Run): Run {
    Run(first.cmds + second.cmds, second.next, first.progress + second.progress, second.crashed)
  }

  /** `action.get("program")`. */
  function ProgramOf(action: Value): Value
    requires action.Dict?
  {
    Lookup(action.members, "program").GetOr(Null)
  }

  /** `f"{programs_folder}/{program}"`. */
  function ProgramPath(folder: string, program: Value): string {
    folder + "/" + PyStr(program)
  }

  const LoadPrefix: string := "load "

  /** The busy-wait before a program is loaded: `running` until a reply no longer reports a running program. */
  function Wait(responses: seq<string>, n: nat): Run {
    var k := BusyRun(responses, n);
    Run(Repeat("running", k + 1), n + k + 1, 0, false)
  }

  /** The busy-wait after `play`: the same polls, with one progress message per ten extra polls. */
  function WaitCounting(responses: seq<string>, n: nat): Run {
    var k := BusyRun(responses, n);
    Run(Repeat("running", k + 1), n + k + 1, k / 10, false)
  }

  /** From `stop` on, with the `stop` reply at `m`: load, play unless the load was refused, then wait. */
  function Launch(responses: seq<string>, m: nat, load: string): Run {
    if LoadRejected(ResponseAt(responses, m + 1)) then Run(["stop", load], m + 2, 0, false)
    else if PlayRejected(ResponseAt(responses, m + 2)) then Run(["stop", load, "play"], m + 3, 0, false)
    else Then(Run(["stop", load, "play"], m + 3, 0, false), WaitCounting(responses, m + 3))
  }

  /**
   * The reference for one pass of the `for` body, reading replies from `n`.
   * An action that is not a dict has no `get` and raises.
   */
  function Perform(responses: seq<string>, n: nat, action: Value, folder: string): Run {
    if !action.Dict? then Run([], n, 0, true)
    else if !Truthy(ProgramOf(action)) then Run([], n, 0, false)
    else
      var w := Wait(responses, n);
      Then(w, Launch(responses, w.next, LoadPrefix + ProgramPath(folder, ProgramOf(action))))
  }

  /** The reference for the `for` loop over a list of actions, reading replies from `n`. */
  function Execute(responses: seq<string>, n: nat, actions: seq<Value>, folder: string): Run
    decreases |actions|
  {
    if actions == [] then Run([], n, 0, false)
    else
      var first := Perform(responses, n, actions[0], folder);
      if first.crashed then first else Then(first, Execute(responses, first.next, actions[1..], folder))
  }

  /**
   * What `for action in actions` iterates over: a list's items, a string's
   * characters, a dict's keys; any other value is not iterable and raises.
   */
  function Entries(v: Value): (r: Option<seq<Value>>)
    ensures v.List? ==> r == Some(v.items)
    ensures v.Null? || v.Bool? || v.Int? ==> r.None?
  {
    match v
    case List(items) => Some(items)
    case Str(s) => Some(seq(|s|, k requires 0 <= k < |s| => Str([s[k]])))
    case Dict(members) => Some(seq(|members|, k requires 0 <= k < |members| => Str(members[k].0)))
    case _ => None
  }

  /** The reference for `execute_actions(sock, actions, folder)`. */
  function ExecuteValue(responses: seq<string>, n: nat, actions: Value, folder: string): Run {
    match Entries(actions)
    case None => Run([], n, 0, true)
    case Some(items) => Execute(responses, n, items, folder)
  }

  // ---------------------------------------------------------------------------
  // Properties of the reference
  // ---------------------------------------------------------------------------

  /** An action without a program, or with an empty one, sends nothing and reads nothing. */
  lemma NoProgramNoCommands(responses: seq<string>, n: nat, action: Value, folder: string)
    requires action.Dict? && !Truthy(ProgramOf(action))
    ensures Perform(responses, n, action, folder) == Run([], n, 0, false)
  {
  }

  /**
   * A busy-wait from reply `n` polls `running` `k + 1` times, where the first
   * `k` replies report a running program and the next does not; the one
   * after `play` shows one progress message per ten extra polls.
   */
  lemma WaitLog(responses: seq<string>, n: nat)
    ensures var w := Wait(responses, n);
      var k := |w.cmds| - 1;
      && |w.cmds| >= 1 && w.next == n + |w.cmds| && !w.crashed
      && (forall j | 0 <= j < |w.cmds| :: w.cmds[j] == "running")
      && (forall j | n <= j < n + k :: Busy(ResponseAt(responses, j)))
      && !Busy(ResponseAt(responses, n + k))
    ensures WaitCounting(responses, n)
         == Run(Wait(responses, n).cmds, Wait(responses, n).next, (|Wait(responses, n).cmds| - 1) / 10, false)
  {
    BusyRunSpec(responses, n);
    RepeatAll("running", BusyRun(responses, n) + 1);
  }

  /**
   * After the first busy-wait, with the `stop` reply at `m`: `stop`, then the
   * `load`, then `play` exactly when the load was not refused, then, exactly
   * when the play was not refused either, the second busy-wait.
   */
  lemma LaunchLog(responses: seq<string>, m: nat, load: string)
    ensures var r := Launch(responses, m, load);
      && !r.crashed && |r.cmds| >= 2 && r.cmds[..2] == ["stop", load]
      && (|r.cmds| > 2 <==> !LoadRejected(ResponseAt(responses, m + 1)))
      && (|r.cmds| > 2 ==> r.cmds[2] == "play")
      && (|r.cmds| > 3 <==> !LoadRejected(ResponseAt(responses, m + 1)) && !PlayRejected(ResponseAt(responses, m + 2)))
      && (|r.cmds| > 3 ==> r.cmds[3..] == WaitCounting(responses, m + 3).cmds
                           && r.progress == WaitCounting(responses, m + 3).progress)
      && (|r.cmds| <= 3 ==> r.progress == 0)
      && r.next == m + |r.cmds|
  {
    var r := Launch(responses, m, load);
    if !LoadRejected(ResponseAt(responses, m + 1)) && !PlayRejected(ResponseAt(responses, m + 2)) {
      var w := WaitCounting(responses, m + 3);
      assert r.cmds == ["stop", load, "play"] + w.cmds;
      assert r.cmds[3..] == w.cmds;
    }
  }

  /** One action with a program runs the first busy-wait, then everything from `stop` on. */
  lemma ActionLog(responses: seq<string>, n: nat, action: Value, folder: string)
    requires action.Dict? && Truthy(ProgramOf(action))
    ensures var r := Perform(responses, n, action, folder);
      var w := Wait(responses, n);
      var l := Launch(responses, w.next, LoadPrefix + ProgramPath(folder, ProgramOf(action)));
      && r.cmds[..|w.cmds|] == w.cmds && r.cmds[|w.cmds|..] == l.cmds
      && r.next == l.next && r.progress == l.progress && !r.crashed
  {
    var r := Perform(responses, n, action, folder);
    var w := Wait(responses, n);
    assert r.cmds[..|w.cmds|] == w.cmds;
  }

  /** Every command reads exactly one reply: a run reads as many replies as it sends commands. */
  lemma {:induction false} ExecuteReads(responses: seq<string>, n: nat, actions: seq<Value>, folder: string)
    ensures Execute(responses, n, actions, folder).next == n + |Execute(responses, n, actions, folder).cmds|
    decreases |actions|
  {
    if actions != [] {
      var first := Perform(responses, n, actions[0], folder);
      if !first.crashed {
        ExecuteReads(responses, first.next, actions[1..], folder);
      }
    }
  }

  /** The loop raises exactly when some action is not a dict; `ExecuteStep` says that it then stops. */
  lemma {:induction false} CrashIff(responses: seq<string>, n: nat, actions: seq<Value>, folder: string)
    ensures Execute(responses, n, actions, folder).crashed <==> exists j | 0 <= j < |actions| :: !actions[j].Dict?
    decreases |actions|
  {
    if actions != [] {
      var first := Perform(responses, n, actions[0], folder);
      if !first.crashed {
        CrashIff(responses, first.next, actions[1..], folder);
        if exists j | 0 <= j < |actions[1..]| :: !actions[1..][j].Dict? {
          var j :| 0 <= j < |actions[1..]| && !actions[1..][j].Dict?;
          assert !actions[j + 1].Dict?;
        }
        if exists j | 0 <= j < |actions| :: !actions[j].Dict? {
          var j :| 0 <= j < |actions| && !actions[j].Dict?;
          assert j != 0;
          assert !actions[1..][j - 1].Dict?;
        }
      }
    }
  }

  /** The paths of the `load` commands among `cmds`, in order. */
  function Loads(cmds: seq<string>): seq<string> {
    if cmds == [] then []
    else if StartsWith(cmds[0], LoadPrefix) then [cmds[0][|LoadPrefix|..]] + Loads(cmds[1..])
    else Loads(cmds[1..])
  }

  /** The program paths of the actions that name a program, in list order. */
  function Programs(actions: seq<Value>, folder: string): seq<string> {
    if actions == [] then []
    else if actions[0].Dict? && Truthy(ProgramOf(actions[0]))
    then [ProgramPath(folder, ProgramOf(actions[0]))] + Programs(actions[1..], folder)
    else Programs(actions[1..], folder)
  }

  lemma {:induction false} LoadsAppend(a: seq<string>, b: seq<string>)
    ensures Loads(a + b) == Loads(a) + Loads(b)
  {
    if a == [] {
      assert a + b == b;
    } else {
      assert (a + b)[0] == a[0];
      assert (a + b)[1..] == a[1..] + b;
      LoadsAppend(a[1..], b);
    }
  }

  /** A single command contributes a load exactly when it starts with `load `. */
  lemma LoadsOne(cmd: string)
    ensures Loads([cmd]) == if StartsWith(cmd, LoadPrefix) then [cmd[|LoadPrefix|..]] else []
    ensures cmd == "running" || cmd == "stop" || cmd == "play" ==> !StartsWith(cmd, LoadPrefix)
  {
    assert [cmd][1..] == [];
    if cmd == "running" || cmd == "stop" || cmd == "play" {
      assert cmd[0] != 'l';
    }
  }

  lemma {:induction false} LoadsRepeat(count: nat)
    ensures Loads(Repeat("running", count)) == []
  {
    if count > 0 {
      LoadsRepeat(count - 1);
      LoadsAppend(Repeat("running", count - 1), ["running"]);
      LoadsOne("running");
    }
  }

  /** Everything from `stop` on holds exactly one `load`: the one given. */
  lemma LoadsOfLaunch(responses: seq<string>, m: nat, load: string)
    requires StartsWith(load, LoadPrefix)
    ensures Loads(Launch(responses, m, load).cmds) == [load[|LoadPrefix|..]]
  {
    LoadsOne("stop");
    LoadsOne("play");
    LoadsOne(load);
    LoadsAppend(["stop"], [load]);
    assert ["stop"] + [load] == ["stop", load];
    LoadsAppend(["stop", load], ["play"]);
    assert ["stop", load] + ["play"] == ["stop", load, "play"];
    if !LoadRejected(ResponseAt(responses, m + 1)) && !PlayRejected(ResponseAt(responses, m + 2)) {
      LoadsRepeat(BusyRun(responses, m + 3) + 1);
      LoadsAppend(["stop", load, "play"], WaitCounting(responses, m + 3).cmds);
    }
  }

  /** One action sends a single `load`, of its own program, when it names one, and none otherwise. */
  lemma LoadsOfPerform(responses: seq<string>, n: nat, action: Value, folder: string)
    requires action.Dict?
    ensures Loads(Perform(responses, n, action, folder).cmds)
         == if Truthy(ProgramOf(action)) then [ProgramPath(folder, ProgramOf(action))] else []
  {
    if Truthy(ProgramOf(action)) {
      var load := LoadPrefix + ProgramPath(folder, ProgramOf(action));
      var w := Wait(responses, n);
      assert load[..|LoadPrefix|] == LoadPrefix && load[|LoadPrefix|..] == ProgramPath(folder, ProgramOf(action));
      LoadsOfLaunch(responses, w.next, load);
      LoadsRepeat(BusyRun(responses, n) + 1);
      LoadsAppend(w.cmds, Launch(responses, w.next, load).cmds);
    }
  }

  /**
   * When no action raises, every action naming a program gets its `load`, in
   * list order, whatever the controller answered to earlier ones: a refused
   * load or play skips only the rest of its own action.
   */
  lemma {:induction false} LoadsInOrder(responses: seq<string>, n: nat, actions: seq<Value>, folder: string)
    requires !Execute(responses, n, actions, folder).crashed
    ensures Loads(Execute(responses, n, actions, folder).cmds) == Programs(actions, folder)
    decreases |actions|
  {
    if actions != [] {
      var first := Perform(responses, n, actions[0], folder);
      LoadsOfPerform(responses, n, actions[0], folder);
      LoadsInOrder(responses, first.next, actions[1..], folder);
      LoadsAppend(first.cmds, Execute(responses, first.next, actions[1..], folder).cmds);
    }
  }

  /** Running the actions of `a + b` is running those of `a`, then, unless one raised, those of `b`. */
  lemma {:induction false} ExecuteAppend(responses: seq<string>, n: nat, a: seq<Value>, b: seq<Value>, folder: string)
    ensures var ra := Execute(responses, n, a, folder);
      Execute(responses, n, a + b, folder)
        == if ra.crashed then ra else Then(ra, Execute(responses, ra.next, b, folder))
    decreases |a|
  {
    if a == [] {
      assert a + b == b;
      assert [] + Execute(responses, n, b, folder).cmds == Execute(responses, n, b, folder).cmds;
    } else {
      assert (a + b)[0] == a[0];
      assert (a + b)[1..] == a[1..] + b;
      var first := Perform(responses, n, a[0], folder);
      if !first.crashed {
        ExecuteAppend(responses, first.next, a[1..], b, folder);
        var rest := Execute(responses, first.next, a[1..], folder);
        if !rest.crashed {
          var tail := Execute(responses, rest.next, b, folder);
          AppendAssoc(first.cmds, rest.cmds, tail.cmds);
        }
      }
    }
  }


  // ---------------------------------------------------------------------------
  // The commands, sent over the dashboard socket
  // ---------------------------------------------------------------------------

  /** The first busy-wait: poll `running` until the controller no longer reports a running program. */
  method AwaitIdle(s: Session)
    modifies s
    ensures var w := Wait(s.responses, old(s.next));
      s.log == old(s.log) + w.cmds && s.next == w.next
  {
    ghost var n := s.next;
    ghost var log0 := s.log;
    var running := s.Send("running");
    ghost var polls := 0;
    while Busy(running)
      invariant s.next == n + polls + 1
      invariant s.log == log0 + Repeat("running", polls + 1)
      invariant running == ResponseAt(s.responses, n + polls)
      invariant BusyRun(s.responses, n) == polls + BusyRun(s.responses, n + polls)
      decreases |s.responses| - s.next
    {
      BusyIsSent(s.responses, n + polls);
      AppendAssoc(log0, Repeat("running", polls + 1), ["running"]);
      running := s.Send("running");
      polls := polls + 1;
    }
  }

  /**
   * The second busy-wait, after `play`: poll `running` until the program has
   * finished, counting the extra polls in `check_count`; `progress` is how
   * many progress messages that count triggers.
   */
  method AwaitCompletion(s: Session) returns (progress: nat)
    modifies s
    ensures var w := WaitCounting(s.responses, old(s.next));
      s.log == old(s.log) + w.cmds && s.next == w.next && progress == w.progress
  {
    ghost var n := s.next;
    ghost var log0 := s.log;
    var running := s.Send("running");
    var checkCount := 0;
    progress := 0;
    while Busy(running)
      invariant s.next == n + checkCount + 1
      invariant s.log == log0 + Repeat("running", checkCount + 1)
      invariant running == ResponseAt(s.responses, n + checkCount)
      invariant BusyRun(s.responses, n) == checkCount + BusyRun(s.responses, n + checkCount)
      invariant progress == checkCount / 10
      decreases |s.responses| - s.next
    {
      BusyIsSent(s.responses, n + checkCount);
      AppendAssoc(log0, Repeat("running", checkCount + 1), ["running"]);
      running := s.Send("running");
      checkCount := checkCount + 1;
      if checkCount % 10 == 0 {
        progress := progress + 1;
      }
    }
  }

  /** From `stop` on: `stop`, `load`, and, unless the controller refuses, `play` and the second busy-wait. */
  method LaunchProgram(s: Session, load: string) returns (progress: nat)
    modifies s
    ensures var r := Launch(s.responses, old(s.next), load);
      s.log == old(s.log) + r.cmds && s.next == r.next && progress == r.progress
  {
    ghost var m := s.next;
    ghost var log0 := s.log;
    var stopped := s.Send("stop");
    var response := s.Send(load);
    assert s.log == log0 + ["stop", load];
    if LoadRejected(response) {
      return 0;
    }
    response := s.Send("play");
    assert s.log == log0 + ["stop", load, "play"];
    if PlayRejected(response) {
      return 0;
    }
    progress := AwaitCompletion(s);
    AppendAssoc(log0, ["stop", load, "play"], WaitCounting(s.responses, m + 3).cmds);
  }

  /** One pass of the `for` body of `execute_actions`. */
  method PerformAction(s: Session, action: Value, folder: string) returns (crashed: bool, progress: nat)
    modifies s
    ensures var r := Perform(s.responses, old(s.next), action, folder);
      && s.log == old(s.log) + r.cmds
      && s.next == r.next
      && crashed == r.crashed
      && progress == r.progress
  {
    ghost var log0 := s.log;
    if !action.Dict? {
      return true, 0;
    }
    var program := Lookup(action.members, "program").GetOr(Null);
    if !Truthy(program) {
      return false, 0;
    }
    ghost var w := Wait(s.responses, s.next);
    AwaitIdle(s);
    var programPath := folder + "/" + PyStr(program);
    progress := LaunchProgram(s, LoadPrefix + programPath);
    AppendAssoc(log0, w.cmds, Launch(s.responses, w.next, LoadPrefix + programPath).cmds);
    crashed := false;
  }

  /** The reference for a single action. */
  lemma ExecuteOne(responses: seq<string>, n: nat, x: Value, folder: string)
    ensures var step := Perform(responses, n, x, folder);
      Execute(responses, n, [x], folder) == if step.crashed then step else Then(step, Run([], step.next, 0, false))
  {
    assert [x][1..] == [];
  }

  /** How the reference for a prefix of the actions grows by one action. */
  lemma ExecuteStep(responses: seq<string>, n: nat, items: seq<Value>, i: nat, folder: string)
    requires i < |items| && !Execute(responses, n, items[..i], folder).crashed
    ensures var before := Execute(responses, n, items[..i], folder);
      var step := Perform(responses, before.next, items[i], folder);
      && (!step.crashed ==> Execute(responses, n, items[..i + 1], folder) == Then(before, step))
      && (step.crashed ==> Execute(responses, n, items, folder) == Then(before, step))
  {
    var before := Execute(responses, n, items[..i], folder);
    var step := Perform(responses, before.next, items[i], folder);
    ExecuteAppend(responses, n, items[..i], [items[i]], folder);
    assert items[..i + 1] == items[..i] + [items[i]];
    ExecuteOne(responses, before.next, items[i], folder);
    if step.crashed {
      ExecuteAppend(responses, n, items[..i + 1], items[i + 1..], folder);
      assert items[..i + 1] + items[i + 1..] == items;
    } else {
      AppendEmpty(step.cmds);
    }
  }


  /** `execute_actions(sock, actions, programs_folder)`. */
  method ExecuteActions(s: Session, actions: Value, folder: string) returns (crashed: bool, progress: nat)
    modifies s
    ensures var r := ExecuteValue(s.responses, old(s.next), actions, folder);
      && s.log == old(s.log) + r.cmds
      && s.next == r.next
      && crashed == r.crashed
      && progress == r.progress
  {
    ghost var n := s.next;
    ghost var log0 := s.log;
    var entries := Entries(actions);
    if entries.None? {
      return true, 0;
    }
    var items := entries.value;
    progress := 0;
    for i := 0 to |items|
      invariant var r := Execute(s.responses, n, items[..i], folder);
        && !r.crashed && s.log == log0 + r.cmds && s.next == r.next && progress == r.progress
    {
      ghost var before := Execute(s.responses, n, items[..i], folder);
      var failed, shown := PerformAction(s, items[i], folder);
      ExecuteStep(s.responses, n, items, i, folder);
      AppendAssoc(log0, before.cmds, Perform(s.responses, before.next, items[i], folder).cmds);
      if failed {
        return true, progress + shown;
      }
      progress := progress + shown;
    }
    assert items[..|items|] == items;
    crashed := false;
  }
}
