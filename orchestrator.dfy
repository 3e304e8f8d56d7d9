/**
 * The loop of `main`: for every content the file watcher yields, decide
 * whether it is new, turn it into a prompt, ask the completion service for
 * actions, and run them on the robot controller.
 *
 * The watcher's yields are a finite sequence, the completion service's
 * behaviour on the `k`-th request of the run is `servers(k)`, and `parse` is
 * the JSON decoder shared with `Completion`.
 */
module Orchestrator {
  import opened Wrappers
  import opened Json
  import opened Completion
  import opened Dashboard
  import opened Executor
  import Seqs

  /** What the loop body makes of one yielded content. */
  datatype Handling =
      /** The first content: it becomes the baseline and is not acted on. */
    | Baseline
      /** Equal to the content stored last: skipped. */
    | Unchanged
      /** `json.loads` raised: the change is dropped. */
    | InvalidJson
      /** No `"text"`, or an empty one: the change is dropped. */
    | NoInstruction
      /**
       * An exception nothing catches: `data.get` on a decoded value that is
       * not a dict, or a `"text"` that is not a string, which `process_request`
       * cannot concatenate to the system prompt.
       */
    | Fatal
      /** The prompt for `process_request`. */
    | Ask(prompt: string)

  /**
   * How the loop body classifies `content`, given the content stored so far:
   * the first content is the baseline and a repeated one is unchanged; a new
   * content is invalid JSON exactly when it does not decode; a decoded value
   * that is not a dict raises at `data.get`; a dict without a truthy `"text"`
   * is dropped; a truthy `"text"` that is not a string raises in
   * `process_request`; and a non-empty string `"text"` is the prompt.
   */
  function Classify(initial: Option<string>, content: string, parse: string -> Option<Value>): (h: Handling)
    ensures h.Baseline? <==> initial.None?
    ensures h.Unchanged? <==> initial == Some(content)
    ensures h.Ask? ==> h.prompt != [] && initial.Some? && initial != Some(content)
    ensures h.Ask? ==> exists data :: parse(content) == Some(data) && data.Dict?
                                      && Lookup(data.members, "text") == Some(Str(h.prompt))
    ensures initial.Some? && initial != Some(content) ==>
      match parse(content)
      case None => h == InvalidJson
      case Some(data) =>
        && (!data.Dict? ==> h == Fatal)
        && (data.Dict? ==>
              var text := Lookup(data.members, "text");
              && (text.None? || !Truthy(text.value) <==> h == NoInstruction)
              && (text.Some? && Truthy(text.value) && !text.value.Str? ==> h == Fatal)
              && (text.Some? && text.value.Str? && text.value.s != [] ==> h == Ask(text.value.s)))
  {
    if initial.None? then Baseline
    else if content == initial.value then Unchanged
    else
      match parse(content)
      case None => InvalidJson
      case Some(data) =>
        if !data.Dict? then Fatal
        else
          var text := Lookup(data.members, "text").GetOr(Null);
          if !Truthy(text) then NoInstruction
          else if !text.Str? then Fatal
          else Ask(text.s)
  }

  /**
   * The loop's state: the stored content, the prompts sent so far, the
   * action lists executed so far, the dashboard commands they sent, the next
   * controller reply, and whether an exception ended the loop.
   */
  datatype LoopState = LoopState(
    initial: Option<string>,
    prompts: seq<string>,
    executed: seq<Value>,
    cmds: seq<string>,
    next: nat,
    crashed: bool)

  /** The state before the first yield, with the controller's next reply at `next`. */
  function Start(next: nat): LoopState {
    LoopState(None, [], [], [], next, false)
  }

  /** The reference for one pass of the loop body. */
  ghost function Handle(st: LoopState, content: string, cfg: Config, servers: nat -> nat -> Exchange,
                        parse: string -> Option<Value>, responses: seq<string>): LoopState
  {
    var stored := st.(initial := Some(content));
    match Classify(st.initial, content, parse)
    case Ask(prompt) =>
      var asked := stored.(prompts := st.prompts + [prompt]);
      (match ExpectedResult(cfg, servers(|st.prompts|), parse)
       case Raised => asked.(crashed := true)
       case Returned(actions) =>
         if !Truthy(actions) then asked
         else
           var run := ExecuteValue(responses, st.next, actions, DefaultFolder);
           asked.(executed := st.executed + [actions], cmds := st.cmds + run.cmds,
                  next := run.next, crashed := run.crashed))
    case Fatal => stored.(crashed := true)
    case _ => stored
  }

  /** The reference for the loop over the yields `changes`: each pass in turn, until one raises. */
  ghost function Loop(start: LoopState, changes: seq<(string, string)>, cfg: Config, servers: nat -> nat -> Exchange,
                      parse: string -> Option<Value>, responses: seq<string>): LoopState
    decreases |changes|
  {
    if changes == [] then start
    else
      var before := Loop(start, changes[..|changes| - 1], cfg, servers, parse, responses);
      if before.crashed then before
      else Handle(before, changes[|changes| - 1].1, cfg, servers, parse, responses)
  }

  // ---------------------------------------------------------------------------
  // Properties
  // ---------------------------------------------------------------------------

  /** `process_request` never answers with a dict: a decoded dict comes back wrapped in a list. */
  lemma ResultNeverDict(cfg: Config, server: nat -> Exchange, parse: string -> Option<Value>)
    ensures ExpectedResult(cfg, server, parse).Returned? ==> !ExpectedResult(cfg, server, parse).value.Dict?
  {
  }

  /**
   * One pass of the loop body: the content is stored whatever happens; the
   * first content and an unchanged one do nothing else; invalid JSON and a
   * missing or empty instruction drop the change and the loop goes on; a
   * prompt is sent exactly when the content is classified as one; the answer
   * is executed, with the default folder, exactly when it is non-empty; and an
   * executed answer is never a dict.
   */
  lemma HandleSpec(st: LoopState, content: string, cfg: Config, servers: nat -> nat -> Exchange,
                   parse: string -> Option<Value>, responses: seq<string>)
    ensures var r := Handle(st, content, cfg, servers, parse, responses);
      var h := Classify(st.initial, content, parse);
      && r.initial == Some(content)
      && (st.initial.None? ==> r == st.(initial := Some(content)))
      && (st.initial == Some(content) ==> r == st)
      && (h.InvalidJson? || h.NoInstruction? ==> r == st.(initial := Some(content)))
      && (h.Fatal? ==> r == st.(initial := Some(content), crashed := true))
      && (h.Ask? ==> r.prompts == st.prompts + [h.prompt])
      && (!h.Ask? ==> r.prompts == st.prompts && r.executed == st.executed)
      && (r.executed == st.executed || (exists v :: r.executed == st.executed + [v] && Truthy(v) && !v.Dict?))
      && (r.executed == st.executed ==> r.cmds == st.cmds && r.next == st.next)
    ensures var r := Handle(st, content, cfg, servers, parse, responses);
      var h := Classify(st.initial, content, parse);
      h.Ask? ==>
        match ExpectedResult(cfg, servers(|st.prompts|), parse)
        case Raised => r == st.(initial := Some(content), prompts := st.prompts + [h.prompt], crashed := true)
        case Returned(v) =>
          && (!Truthy(v) ==> r == st.(initial := Some(content), prompts := st.prompts + [h.prompt]))
          && (Truthy(v) ==>
                var run := ExecuteValue(responses, st.next, v, DefaultFolder);
                && r.executed == st.executed + [v] && r.cmds == st.cmds + run.cmds
                && r.next == run.next && r.crashed == run.crashed)
  {
    var h := Classify(st.initial, content, parse);
    if h.Ask? {
      ResultNeverDict(cfg, servers(|st.prompts|), parse);
      var r := Handle(st, content, cfg, servers, parse, responses);
      if r.executed != st.executed {
        var v := ExpectedResult(cfg, servers(|st.prompts|), parse).value;
        assert r.executed == st.executed + [v];
      }
    }
  }

  /** Once a pass has raised, no later yield changes anything. */
  lemma {:induction false} CrashSticks(start: LoopState, changes: seq<(string, string)>, j: nat, cfg: Config,
                                       servers: nat -> nat -> Exchange, parse: string -> Option<Value>, responses: seq<string>)
    requires j <= |changes| && Loop(start, changes[..j], cfg, servers, parse, responses).crashed
    ensures Loop(start, changes, cfg, servers, parse, responses) == Loop(start, changes[..j], cfg, servers, parse, responses)
    decreases |changes| - j
  {
    if j < |changes| {
      var c := changes[..j + 1];
      assert c[..|c| - 1] == changes[..j];
      CrashSticks(start, changes, j + 1, cfg, servers, parse, responses);
    } else {
      assert changes[..j] == changes;
    }
  }

  /**
   * Over the whole run: unless a pass raised, the stored content is the last
   * yielded one; every executed action list is non-empty and not a dict; and
   * the dashboard commands are those of the executed lists, after the start's.
   */
  lemma {:induction false} LoopInvariant(start: LoopState, changes: seq<(string, string)>, cfg: Config,
                                         servers: nat -> nat -> Exchange, parse: string -> Option<Value>, responses: seq<string>)
    requires forall k | 0 <= k < |start.executed| :: Truthy(start.executed[k]) && !start.executed[k].Dict?
    ensures var r := Loop(start, changes, cfg, servers, parse, responses);
      && (changes != [] && !r.crashed ==> r.initial == Some(changes[|changes| - 1].1))
      && (forall k | 0 <= k < |r.executed| :: Truthy(r.executed[k]) && !r.executed[k].Dict?)
      && |r.executed| <= |start.executed| + |changes|
      && |r.prompts| <= |start.prompts| + |changes|
    decreases |changes|
  {
    if changes != [] {
      var init := changes[..|changes| - 1];
      LoopInvariant(start, init, cfg, servers, parse, responses);
      var before := Loop(start, init, cfg, servers, parse, responses);
      if !before.crashed {
        HandleSpec(before, changes[|changes| - 1].1, cfg, servers, parse, responses);
      }
    }
  }

  /** The first yield is only stored: no prompt, no command. */
  lemma FirstYieldIgnored(next: nat, change: (string, string), cfg: Config, servers: nat -> nat -> Exchange,
                          parse: string -> Option<Value>, responses: seq<string>)
    ensures Loop(Start(next), [change], cfg, servers, parse, responses) == Start(next).(initial := Some(change.1))
  {
    assert [change][..0] == [];
  }

  /** A yield equal to the one before it is skipped entirely. */
  lemma RepeatIgnored(start: LoopState, changes: seq<(string, string)>, change: (string, string), cfg: Config,
                      servers: nat -> nat -> Exchange, parse: string -> Option<Value>, responses: seq<string>)
    requires changes != [] && changes[|changes| - 1].1 == change.1
    requires forall k | 0 <= k < |start.executed| :: Truthy(start.executed[k]) && !start.executed[k].Dict?
    ensures Loop(start, changes + [change], cfg, servers, parse, responses) == Loop(start, changes, cfg, servers, parse, responses)
  {
    var all := changes + [change];
    assert all[..|all| - 1] == changes;
    LoopInvariant(start, changes, cfg, servers, parse, responses);
    var before := Loop(start, changes, cfg, servers, parse, responses);
    if !before.crashed {
      HandleSpec(before, change.1, cfg, servers, parse, responses);
    }
  }

  // ---------------------------------------------------------------------------
  // One run from end to end
  // ---------------------------------------------------------------------------

  /** The file's content before and after the change. */
  const First: string := "{\"text\":\"go\"}"
  const Second: string := "{\"text\":\"move forward\"}"

  const Body: string := "{\"program\":\"forward.urp\"}"

  /** The completion text of the run below: the action in a ```json fence. */
  const Answer: string := Fence + "json" + "\n" + Body + "\n" + Fence

  /** The action the fenced answer decodes to. */
  const Forward: Value := Dict([("program", Str("forward.urp"))])

  /** The single streamed event: the fenced answer, with `done` set. */
  const Event: Value := Dict([("response", Str(Answer)), ("done", Bool(true))])

  /** The stream of the run below gathers exactly the fenced answer. */
  lemma AnswerStreamed(parse: string -> Option<Value>, line: string)
    requires line != "" && parse(line) == Some(Event)
    ensures ExpectedStream([line], false, parse) == Collected(Answer)
  {
    EventsOne(line, parse);
    assert Lookup(Event.members, "done") == Some(Bool(true));
    assert Lookup(Event.members, "response") == Some(Str(Answer));
    assert ThroughDone([Event]) == [Event];
    assert Concat([Event]) == Answer by {
      assert Fragment(Event) == Answer;
      assert Concat([Event][1..]) == "";
    }
  }

  /** Cleaning the fenced answer leaves the action's JSON text. */
  lemma AnswerCleaned()
    ensures CleanResponse(Answer) == Body
  {
    assert Body[0] == '{' && Body[|Body| - 1] == '}';
    FencedClean("json", "\n", Body, "\n");
  }

  /** A single streamed event carrying the fenced action, with `done` set, answers that action as a list. */
  lemma FencedAnswer(cfg: Config, server: nat -> Exchange, parse: string -> Option<Value>, line: string)
    requires line != "" && parse(line) == Some(Event)
    requires parse(Body) == Some(Forward)
    requires server(0) == Stream([line], false)
    ensures ExpectedResult(cfg, server, parse) == Returned(List([Forward]))
  {
    AnswerStreamed(parse, line);
    AnswerCleaned();
    assert ExpectedAttempt(server(0), parse) == Parsed(Forward);
    SingleObjectWrapped(cfg, server, parse, Forward);
  }

  /**
   * The file first holds `{"text":"go"}`, which is the baseline, then
   * `{"text":"move forward"}`; the completion service streams one event whose
   * response is `{"program":"forward.urp"}` in a ```json fence, with `done`
   * set. Then exactly that one prompt is sent, the one-element action list is
   * run without raising, and the only program loaded is `forward.urp` from the
   * default folder, whatever the controller answers.
   */
  lemma MoveForward(next: nat, path: string, cfg: Config, servers: nat -> nat -> Exchange,
                    parse: string -> Option<Value>, responses: seq<string>, line: string)
    requires parse(Second) == Some(Dict([("text", Str("move forward"))]))
    requires line != "" && parse(line) == Some(Event)
    requires parse(Body) == Some(Forward)
    requires servers(0)(0) == Stream([line], false)
    ensures var r := Loop(Start(next), [(path, First), (path, Second)], cfg, servers, parse, responses);
      && r.prompts == ["move forward"]
      && r.executed == [List([Forward])]
      && !r.crashed
      && Loads(r.cmds) == ["/programs/interaction//forward.urp"]
  {
    var changes := [(path, First), (path, Second)];
    assert changes[..1] == [(path, First)];
    FirstYieldIgnored(next, (path, First), cfg, servers, parse, responses);
    var st := Start(next).(initial := Some(First));
    LoopStep(Start(next), changes, 1, cfg, servers, parse, responses);
    assert changes[..2] == changes;
    assert Loop(Start(next), changes, cfg, servers, parse, responses) == Handle(st, Second, cfg, servers, parse, responses);
    SecondAsked(parse);
    FencedAnswer(cfg, servers(0), parse, line);
    HandleSpec(st, Second, cfg, servers, parse, responses);
    ForwardRun(responses, next);
    var r := Handle(st, Second, cfg, servers, parse, responses);
    var run := ExecuteValue(responses, next, List([Forward]), DefaultFolder);
    assert r.cmds == [] + run.cmds;
    assert [] + run.cmds == run.cmds;
  }

  /** The second content differs from the baseline and asks for `move forward`. */
  lemma SecondAsked(parse: string -> Option<Value>)
    requires parse(Second) == Some(Dict([("text", Str("move forward"))]))
    ensures Classify(Some(First), Second, parse) == Ask("move forward")
  {
    assert First != Second by {
      assert |First| != |Second|;
    }
    assert Lookup([("text", Str("move forward"))], "text") == Some(Str("move forward"));
  }

  /** Running the one-element list of the fenced action loads `forward.urp`, once, and does not raise. */
  lemma ForwardRun(responses: seq<string>, next: nat)
    ensures var run := ExecuteValue(responses, next, List([Forward]), DefaultFolder);
      !run.crashed && Loads(run.cmds) == ["/programs/interaction//forward.urp"]
  {
    assert Lookup(Forward.members, "program") == Some(Str("forward.urp"));
    assert ExecuteValue(responses, next, List([Forward]), DefaultFolder) == Execute(responses, next, [Forward], DefaultFolder);
    CrashIff(responses, next, [Forward], DefaultFolder);
    LoadsInOrder(responses, next, [Forward], DefaultFolder);
    assert Programs([Forward], DefaultFolder) == [ProgramPath(DefaultFolder, Str("forward.urp"))];
    assert ProgramPath(DefaultFolder, Str("forward.urp")) == DefaultFolder + "/" + "forward.urp";
    assert DefaultFolder + "/" + "forward.urp" == "/programs/interaction//forward.urp";
  }

  // ---------------------------------------------------------------------------
  // The loop of `main`
  // ---------------------------------------------------------------------------

  lemma LoopStep(start: LoopState, changes: seq<(string, string)>, i: nat, cfg: Config,
                 servers: nat -> nat -> Exchange, parse: string -> Option<Value>, responses: seq<string>)
    requires i < |changes| && !Loop(start, changes[..i], cfg, servers, parse, responses).crashed
    ensures Loop(start, changes[..i + 1], cfg, servers, parse, responses)
         == Handle(Loop(start, changes[..i], cfg, servers, parse, responses), changes[i].1, cfg, servers, parse, responses)
  {
    var c := changes[..i + 1];
    assert c[..|c| - 1] == changes[..i];
  }

  /**
   * `main` after connecting: read the controller's greeting, then handle the
   * yields `changes` in order. `prompts` are the prompts sent to the
   * completion service, `executed` the action lists run on the controller.
   */
  method Serve(s: Session, changes: seq<(string, string)>, cfg: Config, servers: nat -> nat -> Exchange,
               parse: string -> Option<Value>)
    returns (prompts: seq<string>, executed: seq<Value>, crashed: bool)
    modifies s
    ensures var r := Loop(Start(old(s.next) + 1), changes, cfg, servers, parse, s.responses);
      && prompts == r.prompts && executed == r.executed && crashed == r.crashed
      && s.log == old(s.log) + r.cmds && s.next == r.next
  {
    var greeting := s.Receive();
    ghost var start := Start(s.next);
    ghost var log0 := s.log;
    ghost var cmds: seq<string> := [];
    var initialContent: Option<string> := None;
    prompts := [];
    executed := [];
    crashed := false;
    for i := 0 to |changes|
      invariant s.log == log0 + cmds
      invariant Loop(start, changes[..i], cfg, servers, parse, s.responses)
             == LoopState(initialContent, prompts, executed, cmds, s.next, false)
    {
      ghost var st := LoopState(initialContent, prompts, executed, cmds, s.next, false);
      var content := changes[i].1;
      LoopStep(start, changes, i, cfg, servers, parse, s.responses);
      ghost var after := Handle(st, content, cfg, servers, parse, s.responses);
      if initialContent.None? {
        initialContent := Some(content);
        continue;
      }
      if content == initialContent.value {
        continue;
      }
      initialContent := Some(content);
      var data := parse(content);
      if data.None? {
        continue;
      }
      if !data.value.Dict? {
        CrashSticks(start, changes, i + 1, cfg, servers, parse, s.responses);
        return prompts, executed, true;
      }
      var userPrompt := Lookup(data.value.members, "text").GetOr(Null);
      if !Truthy(userPrompt) {
        continue;
      }
      if !userPrompt.Str? {
        CrashSticks(start, changes, i + 1, cfg, servers, parse, s.responses);
        return prompts, executed, true;
      }
      var actions, sent := ProcessRequest(cfg, userPrompt.s, servers(|prompts|), parse);
      prompts := prompts + [userPrompt.s];
      if actions.Raised? {
        CrashSticks(start, changes, i + 1, cfg, servers, parse, s.responses);
        return prompts, executed, true;
      }
      if Truthy(actions.value) {
        executed := executed + [actions.value];
        ghost var run := ExecuteValue(s.responses, s.next, actions.value, DefaultFolder);
        var failed, progress := ExecuteActions(s, actions.value, DefaultFolder);
        Seqs.AppendAssoc(log0, cmds, run.cmds);
        cmds := cmds + run.cmds;
        if failed {
          CrashSticks(start, changes, i + 1, cfg, servers, parse, s.responses);
          return prompts, executed, true;
        }
      }
    }
    assert changes[..|changes|] == changes;
  }
}
