/**
 * `LLM_Agent.process_request`: send one streaming completion request, gather
 * the `"response"` fragments of the stream, clean up the text, decode it, and
 * retry a bounded number of times on a transport or decode failure.
 *
 * The HTTP transport is replaced by a `server` giving, for each attempt, what
 * the streaming request produced; the JSON decoder is the parameter `parse`,
 * which answers `None` where `json.loads` raises `JSONDecodeError`.
 */
module Completion {
  import opened Wrappers
  import opened Seqs
  import opened PyText
  import opened Json

  /** The agent's fixed configuration. */
  datatype Config = Config(modelName: string, maxRetries: int, url: string, systemPrompt: string)

  const DefaultMaxRetries: int := 3

  /** `LLM_Agent.__init__`: every field comes from the configuration; `max_retries` defaults to 3. */
  function MakeConfig(modelName: string, maxRetries: Option<int>, url: string, systemPrompt: string): (c: Config)
    ensures c.modelName == modelName && c.url == url && c.systemPrompt == systemPrompt
    ensures maxRetries.None? ==> c.maxRetries == 3
    ensures maxRetries.Some? ==> c.maxRetries == maxRetries.value
  {
    Config(modelName, maxRetries.GetOr(DefaultMaxRetries), url, systemPrompt)
  }

  /** The JSON body of the completion request. */
  datatype Request = Request(model: string, prompt: string, stream: bool)

  /** The request body: the system prompt, one newline, then the user's prompt, streamed. */
  function Message(cfg: Config, userPrompt: string): (r: Request)
    ensures r.model == cfg.modelName && r.stream
    ensures |r.prompt| == |cfg.systemPrompt| + 1 + |userPrompt|
    ensures r.prompt[..|cfg.systemPrompt|] == cfg.systemPrompt
    ensures r.prompt[|cfg.systemPrompt|] == '\n'
    ensures r.prompt[|cfg.systemPrompt| + 1..] == userPrompt
  {
    Request(cfg.modelName, cfg.systemPrompt + "\n" + userPrompt, true)
  }

  /** What one streaming `requests.post` produced. */
  datatype Exchange =
      /** The request itself raised a `RequestException`. */
    | Refused
      /** The stream delivered `lines`; when `cut`, asking for the next line raised a `RequestException`. */
    | Stream(lines: seq<string>, cut: bool)

  // ---------------------------------------------------------------------------
  // Stream accumulation: the reference definition
  // ---------------------------------------------------------------------------

  /** The decoded events of a stream: non-empty lines that decode, in order. */
  ghost function Events(lines: seq<string>, parse: string -> Option<Value>): (evs: seq<Value>)
    ensures |evs| <= |lines|
  {
    if lines == [] then []
    else
      var rest := Events(lines[1..], parse);
      if lines[0] != "" && parse(lines[0]).Some? then [parse(lines[0]).value] + rest else rest
  }

  /**
   * An event the loop consumes without raising: a dict whose `"response"`,
   * when present, is a string. Any other decoded value makes `"response" in
   * event`, `event["response"]`, the string concatenation or `event.get` raise
   * a `TypeError` or `AttributeError` that nothing catches.
   */
  predicate WellFormed(e: Value) {
    e.Dict? && (var r := Lookup(e.members, "response"); r.None? || r.value.Str?)
  }

  /** `event.get("done", False)` is truthy. */
  predicate IsDone(e: Value) {
    e.Dict? && Truthy(Lookup(e.members, "done").GetOr(Bool(false)))
  }

  /** The text an event contributes: its `"response"` string, or nothing. */
  function Fragment(e: Value): string {
    if e.Dict? && Lookup(e.members, "response").Some? && Lookup(e.members, "response").value.Str?
    then Lookup(e.members, "response").value.s
    else ""
  }

  ghost predicate AllWellFormed(evs: seq<Value>) {
    forall k | 0 <= k < |evs| :: WellFormed(evs[k])
  }

  ghost predicate NoneDone(evs: seq<Value>) {
    forall k | 0 <= k < |evs| :: !IsDone(evs[k])
  }

  /** The events up to and including the first that is done; all of them when none is. */
  ghost function ThroughDone(evs: seq<Value>): (r: seq<Value>)
  {
    if evs == [] then []
    else if IsDone(evs[0]) then [evs[0]]
    else [evs[0]] + ThroughDone(evs[1..])
  }

  /** `ThroughDone` is the shortest prefix that ends in a done event, or everything when none is done. */
  lemma {:induction false} ThroughDoneIsPrefix(evs: seq<Value>)
    ensures |ThroughDone(evs)| <= |evs| && ThroughDone(evs) == evs[..|ThroughDone(evs)|]
    ensures ThroughDone(evs) == [] || NoneDone(ThroughDone(evs)[..|ThroughDone(evs)| - 1])
    ensures ThroughDone(evs) == evs || (ThroughDone(evs) != [] && IsDone(ThroughDone(evs)[|ThroughDone(evs)| - 1]))
  {
    if evs != [] && !IsDone(evs[0]) {
      ThroughDoneIsPrefix(evs[1..]);
      var rest := ThroughDone(evs[1..]);
      assert ThroughDone(evs) == [evs[0]] + rest;
      assert rest != [] ==> ([evs[0]] + rest)[..|rest|] == [evs[0]] + rest[..|rest| - 1];
    }
  }

  /** The in-order concatenation of the events' fragments. */
  ghost function Concat(evs: seq<Value>): string {
    if evs == [] then "" else Fragment(evs[0]) + Concat(evs[1..])
  }

  /** How reading one stream ends. */
  datatype StreamOutcome =
    | Collected(text: string)
      /** The stream broke with a `RequestException`. */
    | Broken
      /** A malformed event raised an exception nothing catches. */
    | Malformed

  /** What the streaming loop makes of a stream: the reference the loop is proved against. */
  ghost function ExpectedStream(lines: seq<string>, cut: bool, parse: string -> Option<Value>): StreamOutcome {
    var evs := Events(lines, parse);
    var used := ThroughDone(evs);
    if !AllWellFormed(used) then Malformed
    else if cut && NoneDone(evs) then Broken
    else Collected(Concat(used))
  }

  lemma {:induction false} EventsAppend(a: seq<string>, b: seq<string>, parse: string -> Option<Value>)
    ensures Events(a + b, parse) == Events(a, parse) + Events(b, parse)
  {
    if a != [] {
      assert (a + b)[1..] == a[1..] + b;
      EventsAppend(a[1..], b, parse);
    } else {
      assert a + b == b;
    }
  }

  lemma {:induction false} ThroughDoneAppend(a: seq<Value>, b: seq<Value>)
    requires NoneDone(a)
    ensures ThroughDone(a + b) == a + ThroughDone(b)
  {
    if a != [] {
      assert (a + b)[0] == a[0];
      assert (a + b)[1..] == a[1..] + b;
      ThroughDoneAppend(a[1..], b);
    } else {
      assert a + b == b;
    }
  }

  lemma {:induction false} ThroughDonePrefix(a: seq<Value>, b: seq<Value>)
    requires !NoneDone(a)
    ensures ThroughDone(a + b) == ThroughDone(a)
  {
    assert a != [];
    assert (a + b)[0] == a[0];
    if !IsDone(a[0]) {
      assert (a + b)[1..] == a[1..] + b;
      assert !NoneDone(a[1..]) by {
        var k :| 0 <= k < |a| && IsDone(a[k]);
        assert a[1..][k - 1] == a[k];
      }
      ThroughDonePrefix(a[1..], b);
    }
  }

  lemma {:induction false} ConcatAppend(a: seq<Value>, b: seq<Value>)
    ensures Concat(a + b) == Concat(a) + Concat(b)
  {
    if a != [] {
      assert (a + b)[1..] == a[1..] + b;
      ConcatAppend(a[1..], b);
    } else {
      assert a + b == b;
    }
  }

  /** The events of a single line. */
  lemma EventsOne(line: string, parse: string -> Option<Value>)
    ensures Events([line], parse) == if line != "" && parse(line).Some? then [parse(line).value] else []
  {
    assert [line][1..] == [];
  }

  /** An empty line, or one that does not decode, changes nothing about the outcome. */
  lemma SkippedLineIgnored(a: seq<string>, line: string, b: seq<string>, cut: bool, parse: string -> Option<Value>)
    requires line == "" || parse(line).None?
    ensures ExpectedStream(a + [line] + b, cut, parse) == ExpectedStream(a + b, cut, parse)
  {
    assert a + [line] + b == a + ([line] + b);
    EventsAppend([line], b, parse);
    EventsOne(line, parse);
    assert Events([line] + b, parse) == Events(b, parse);
    EventsAppend(a, [line] + b, parse);
    EventsAppend(a, b, parse);
    assert Events(a + [line] + b, parse) == Events(a + b, parse);
  }

  /** Once an event says `done`, nothing the stream delivers afterwards, nor a later break, matters. */
  lemma AfterDoneIgnored(a: seq<string>, b: seq<string>, cut: bool, cut': bool, parse: string -> Option<Value>)
    requires !NoneDone(Events(a, parse))
    ensures ExpectedStream(a + b, cut, parse) == ExpectedStream(a, cut', parse)
  {
    EventsAppend(a, b, parse);
    ThroughDonePrefix(Events(a, parse), Events(b, parse));
    assert !NoneDone(Events(a, parse) + Events(b, parse)) by {
      var k :| 0 <= k < |Events(a, parse)| && IsDone(Events(a, parse)[k]);
      assert (Events(a, parse) + Events(b, parse))[k] == Events(a, parse)[k];
    }
  }

  /** A stream of well-formed events that ends normally yields the concatenation of all their fragments. */
  lemma WholeStreamCollected(lines: seq<string>, parse: string -> Option<Value>)
    requires AllWellFormed(Events(lines, parse)) && NoneDone(Events(lines, parse))
    ensures ExpectedStream(lines, false, parse) == Collected(Concat(Events(lines, parse)))
  {
    ThroughDoneAppend(Events(lines, parse), []);
    assert Events(lines, parse) + [] == Events(lines, parse);
  }

  /** The events of a stream's first `i + 1` lines extend those of its first `i` by those of line `i`. */
  lemma LinePrefix(lines: seq<string>, i: nat, parse: string -> Option<Value>)
    requires i < |lines|
    ensures Events(lines[..i + 1], parse) == Events(lines[..i], parse) + Events([lines[i]], parse)
  {
    assert lines[..i + 1] == lines[..i] + [lines[i]];
    EventsAppend(lines[..i], [lines[i]], parse);
  }

  /** The events of a stream are those of its first `i + 1` lines followed by those of the rest. */
  lemma LineSplit(lines: seq<string>, i: nat, parse: string -> Option<Value>)
    requires i < |lines|
    ensures Events(lines, parse) == Events(lines[..i + 1], parse) + Events(lines[i + 1..], parse)
  {
    assert lines == lines[..i + 1] + lines[i + 1..];
    EventsAppend(lines[..i + 1], lines[i + 1..], parse);
  }

  /** How the events of a stream's first `i + 1` lines, and of all of it, extend those of its first `i`. */
  lemma LineStep(lines: seq<string>, i: nat, parse: string -> Option<Value>)
    requires i < |lines|
    ensures lines[i] == "" || parse(lines[i]).None? ==> Events(lines[..i + 1], parse) == Events(lines[..i], parse)
    ensures lines[i] != "" && parse(lines[i]).Some? ==>
      && Events(lines[..i + 1], parse) == Events(lines[..i], parse) + [parse(lines[i]).value]
      && Events(lines, parse) == Events(lines[..i], parse) + ([parse(lines[i]).value] + Events(lines[i + 1..], parse))
  {
    LinePrefix(lines, i, parse);
    LineSplit(lines, i, parse);
    EventsOne(lines[i], parse);
    AppendAssoc(Events(lines[..i], parse), Events([lines[i]], parse), Events(lines[i + 1..], parse));
    if lines[i] == "" || parse(lines[i]).None? {
      AppendEmpty(Events(lines[..i], parse));
    }
  }

  /** What the loop needs of an event it has just decoded after `before`, none of which was done. */
  lemma EventStep(before: seq<Value>, event: Value, after: seq<Value>)
    requires NoneDone(before)
    ensures !WellFormed(event) ==> !AllWellFormed(ThroughDone(before + ([event] + after)))
    ensures IsDone(event) ==> ThroughDone(before + ([event] + after)) == before + [event]
    ensures IsDone(event) ==> !NoneDone(before + ([event] + after))
    ensures Concat(before + [event]) == Concat(before) + Fragment(event)
  {
    var rest := [event] + after;
    ThroughDoneAppend(before, rest);
    assert rest != [] && rest[0] == event;
    assert ThroughDone(rest) == [event] || ThroughDone(rest) == [event] + ThroughDone(rest[1..]);
    assert ThroughDone(before + rest)[|before|] == event;
    assert (before + rest)[|before|] == event;
    ConcatAppend(before, [event]);
    assert [event][1..] == [];
  }

  /** The loop's invariant after the first `i` lines: every event so far is well formed and none is done. */
  ghost predicate Clean(lines: seq<string>, i: nat, parse: string -> Option<Value>)
    requires i <= |lines|
  {
    AllWellFormed(Events(lines[..i], parse)) && NoneDone(Events(lines[..i], parse))
  }

  /** A malformed event on line `i`, after clean lines, decides the outcome. */
  lemma MalformedAt(lines: seq<string>, i: nat, cut: bool, parse: string -> Option<Value>)
    requires i < |lines| && Clean(lines, i, parse)
    requires lines[i] != "" && parse(lines[i]).Some? && !WellFormed(parse(lines[i]).value)
    ensures ExpectedStream(lines, cut, parse) == Malformed
  {
    LineStep(lines, i, parse);
    EventStep(Events(lines[..i], parse), parse(lines[i]).value, Events(lines[i + 1..], parse));
  }

  /** A well-formed done event on line `i`, after clean lines, ends the stream with what was gathered. */
  lemma DoneAt(lines: seq<string>, i: nat, cut: bool, parse: string -> Option<Value>)
    requires i < |lines| && Clean(lines, i, parse)
    requires lines[i] != "" && parse(lines[i]).Some?
    requires WellFormed(parse(lines[i]).value) && IsDone(parse(lines[i]).value)
    ensures ExpectedStream(lines, cut, parse)
      == Collected(Concat(Events(lines[..i], parse)) + Fragment(parse(lines[i]).value))
  {
    var before := Events(lines[..i], parse);
    var event := parse(lines[i]).value;
    LineStep(lines, i, parse);
    EventStep(before, event, Events(lines[i + 1..], parse));
    assert AllWellFormed(before + [event]) by {
      forall k | 0 <= k < |before| + 1
        ensures WellFormed((before + [event])[k])
      {
        if k < |before| {
          assert (before + [event])[k] == before[k];
        }
      }
    }
  }

  /** A line that is skipped, or holds a well-formed event that is not done, keeps the invariant. */
  lemma ContinueAt(lines: seq<string>, i: nat, parse: string -> Option<Value>)
    requires i < |lines| && Clean(lines, i, parse)
    requires lines[i] != "" && parse(lines[i]).Some? ==>
      WellFormed(parse(lines[i]).value) && !IsDone(parse(lines[i]).value)
    ensures Clean(lines, i + 1, parse)
    ensures Concat(Events(lines[..i + 1], parse)) == Concat(Events(lines[..i], parse))
      + (if lines[i] != "" && parse(lines[i]).Some? then Fragment(parse(lines[i]).value) else "")
  {
    var before := Events(lines[..i], parse);
    LineStep(lines, i, parse);
    if lines[i] != "" && parse(lines[i]).Some? {
      var event := parse(lines[i]).value;
      EventStep(before, event, Events(lines[i + 1..], parse));
      forall k | 0 <= k < |before| + 1
        ensures WellFormed((before + [event])[k]) && !IsDone((before + [event])[k])
      {
        if k < |before| {
          assert (before + [event])[k] == before[k];
        }
      }
    } else {
      AppendEmpty(Concat(before));
    }
  }

  /** A stream whose lines are all clean ends by breaking or with everything gathered. */
  lemma EndOfStream(lines: seq<string>, cut: bool, parse: string -> Option<Value>)
    requires Clean(lines, |lines|, parse)
    ensures ExpectedStream(lines, cut, parse)
      == if cut then Broken else Collected(Concat(Events(lines, parse)))
  {
    assert lines[..|lines|] == lines;
    ThroughDoneAppend(Events(lines, parse), []);
    AppendEmpty(Events(lines, parse));
  }

  /** The streaming loop of `process_request`. */
  method CollectStream(lines: seq<string>, cut: bool, parse: string -> Option<Value>) returns (out: StreamOutcome)
    ensures out == ExpectedStream(lines, cut, parse)
  {
    var text := "";
    var i := 0;
    while i < |lines|
      invariant 0 <= i <= |lines|
      invariant Clean(lines, i, parse)
      invariant text == Concat(Events(lines[..i], parse))
    {
      var line := lines[i];
      if line != "" {
        var decoded := parse(line);
        if decoded.Some? {
          var event := decoded.value;
          if !WellFormed(event) {
            MalformedAt(lines, i, cut, parse);
            return Malformed;
          }
          text := text + Fragment(event);
          if IsDone(event) {
            DoneAt(lines, i, cut, parse);
            return Collected(text);
          }
        }
      }
      ContinueAt(lines, i, parse);
      i := i + 1;
    }
    EndOfStream(lines, cut, parse);
    assert lines[..i] == lines;
    out := if cut then Broken else Collected(text);
  }

  // ---------------------------------------------------------------------------
  // Post-processing
  // ---------------------------------------------------------------------------

  const Fence: string := "```"

  /** `re.sub(r"^```(?:json)?\s*", "", t)` on a text that starts with the fence. */
  function DropOpening(t: string): string
    requires StartsWith(t, Fence)
  {
    var u := t[3..];
    TrimStart(if StartsWith(u, "json") then u[4..] else u)
  }

  /**
   * `re.sub(r"\s*```$", "", s)`: the closing fence and the whitespace before it
   * go; `$` also matches just before a final newline, which then stays.
   */
  function DropClosing(s: string): string {
    if EndsWith(s, Fence) then TrimEnd(s[..|s| - 3])
    else if EndsWith(s, Fence + "\n") then TrimEnd(s[..|s| - 4]) + "\n"
    else s
  }

  /** The fence is stripped only from a text that starts with it; any other text is left exactly as it is. */
  function Unfence(t: string): (r: string)
    ensures !StartsWith(t, Fence) ==> r == t
  {
    if StartsWith(t, Fence) then DropClosing(DropOpening(t)) else t
  }

  /** The text handed to the decoder: `collected_text.strip()`, then the fence strip. */
  function CleanResponse(collected: string): string {
    Unfence(Strip(collected))
  }

  /** `strip()` removes exactly the whitespace around a text that starts and ends with a backtick. */
  lemma StripPadded(pre: string, x: string, post: string)
    requires AllSpace(pre) && AllSpace(post)
    requires x != [] && x[0] == '`' && x[|x| - 1] == '`'
    ensures Strip(pre + x + post) == x
  {
    assert pre + x + post == pre + (x + post);
    TrimStartPadded(pre, x + post);
    TrimEndPadded(x, post);
  }

  /**
   * `^```(?:json)?\s*` removes the fence, the optional `json` tag and the whole
   * whitespace run after them, whatever it holds. Without a tag and without
   * whitespace, a body that itself starts with `json` would lose those letters.
   */
  lemma DropOpeningTagged(tag: string, ws: string, body: string)
    requires tag == "" || tag == "json"
    requires AllSpace(ws)
    requires body == [] || !IsSpace(body[0])
    requires tag == "json" || ws != [] || !StartsWith(body, "json")
    ensures DropOpening(Fence + tag + ws + body) == body
  {
    var u := (Fence + tag + ws + body)[3..];
    assert u == tag + ws + body;
    if tag == "json" {
      assert StartsWith(u, "json");
      assert u[4..] == ws + body;
    } else {
      assert u == ws + body;
      if ws != [] {
        assert u[0] == ws[0];
        assert IsSpace(u[0]);
      } else {
        assert u == body;
      }
      assert !StartsWith(u, "json");
    }
    TrimStartPadded(ws, body);
  }

  /** `\s*```$` removes the closing fence and the whole whitespace run before it. */
  lemma DropClosingFenced(body: string, ws: string)
    requires AllSpace(ws)
    requires body == [] || !IsSpace(body[|body| - 1])
    ensures DropClosing(body + ws + Fence) == body
  {
    var w := body + ws + Fence;
    assert EndsWith(w, Fence);
    assert w[..|w| - 3] == body + ws;
    TrimEndPadded(body, ws);
  }

  /** A text that goes on with whitespace or a backtick starts with `json` only when its first part does. */
  lemma PrefixJson(body: string, rest: string)
    requires rest != [] && (IsSpace(rest[0]) || rest[0] == '`')
    ensures StartsWith(body + rest, "json") ==> StartsWith(body, "json")
  {
    var t := body + rest;
    assert t[|body|] == rest[0];
    if |body| >= 4 {
      assert t[..4] == body[..4];
    }
  }

  /** Two whitespace runs in a row are one whitespace run. */
  lemma AllSpaceAppend(ws: string, ws': string)
    requires AllSpace(ws) && AllSpace(ws')
    ensures AllSpace(ws + ws')
  {
    forall k | 0 <= k < |ws + ws'|
      ensures IsSpace((ws + ws')[k])
    {
      if k < |ws| {
        assert (ws + ws')[k] == ws[k];
      } else {
        assert (ws + ws')[k] == ws'[k - |ws|];
      }
    }
  }

  /** Both fence regexes together leave exactly the body inside the fence. */
  lemma Unfenced(tag: string, ws: string, body: string, ws': string)
    requires AllSpace(ws) && AllSpace(ws')
    requires tag == "" || tag == "json"
    requires body == [] || (!IsSpace(body[0]) && !IsSpace(body[|body| - 1]))
    requires tag == "json" || ws != [] || !StartsWith(body, "json")
    ensures DropClosing(DropOpening(Fence + tag + ws + body + ws' + Fence)) == body
  {
    if body == [] {
      assert Fence + tag + ws + body + ws' + Fence == Fence + tag + (ws + ws') + Fence;
      AllSpaceAppend(ws, ws');
      DropOpeningTagged(tag, ws + ws', Fence);
      assert DropClosing(Fence) == "" by {
        assert Fence[..0] == "";
      }
    } else {
      assert Fence + tag + ws + body + ws' + Fence == Fence + tag + ws + (body + ws' + Fence);
      PrefixJson(body, ws' + Fence);
      DropOpeningTagged(tag, ws, body + ws' + Fence);
      DropClosingFenced(body, ws');
    }
  }

  /** A fenced body with nothing around the fences cleans up to the body. */
  lemma FencedClean(tag: string, ws: string, body: string, ws': string)
    requires AllSpace(ws) && AllSpace(ws')
    requires tag == "" || tag == "json"
    requires body == [] || (!IsSpace(body[0]) && !IsSpace(body[|body| - 1]))
    requires tag == "json" || ws != [] || !StartsWith(body, "json")
    ensures CleanResponse(Fence + tag + ws + body + ws' + Fence) == body
  {
    var fenced := Fence + tag + ws + body + ws' + Fence;
    assert "" + fenced + "" == fenced;
    StripPadded("", fenced, "");
    assert fenced[..3] == Fence;
    Unfenced(tag, ws, body, ws');
  }

  /**
   * A body wrapped in a ``` or ```json fence, with any whitespace between the
   * fences and the body and around the whole, comes out as the body itself;
   * and a stripped body that does not itself start with the fence is also
   * passed through unchanged, so decoding the fenced text and decoding the
   * bare text give the same value.
   */
  lemma FencedRoundTrip(pre: string, tag: string, ws: string, body: string, ws': string, post: string)
    requires AllSpace(pre) && AllSpace(ws) && AllSpace(ws') && AllSpace(post)
    requires tag == "" || tag == "json"
    requires body == [] || (!IsSpace(body[0]) && !IsSpace(body[|body| - 1]))
    requires tag == "json" || ws != [] || !StartsWith(body, "json")
    ensures CleanResponse(pre + Fence + tag + ws + body + ws' + Fence + post) == body
    ensures !StartsWith(body, Fence) ==> CleanResponse(body) == body
  {
    var fenced := Fence + tag + ws + body + ws' + Fence;
    assert pre + Fence + tag + ws + body + ws' + Fence + post == pre + fenced + post;
    StripPadded(pre, fenced, post);
    assert fenced[..3] == Fence;
    Unfenced(tag, ws, body, ws');
    StripStripped(body);
  }

  /** `process_request` always answers with a list when it decodes an object: a dict becomes a one-element list. */
  function AsActionList(v: Value): (r: Value)
    ensures !r.Dict?
    ensures v.Dict? ==> r == List([v])
    ensures !v.Dict? ==> r == v
  {
    if v.Dict? then List([v]) else v
  }

  // ---------------------------------------------------------------------------
  // One attempt, and the retry loop
  // ---------------------------------------------------------------------------

  datatype AttemptOutcome =
    | Parsed(value: Value)
      /** A `RequestException` or `JSONDecodeError`: the loop retries. */
    | Failed
      /** An exception the retry loop does not catch. */
    | Crashed

  /** What the rest of the `try` body makes of how the stream ended. */
  function AfterStream(streamed: StreamOutcome, parse: string -> Option<Value>): AttemptOutcome {
    match streamed
    case Malformed => Crashed
    case Broken => Failed
    case Collected(text) =>
      match parse(CleanResponse(text))
      case None => Failed
      case Some(v) => Parsed(v)
  }

  /** What one pass through the body of the `try` makes of an exchange. */
  ghost function ExpectedAttempt(ex: Exchange, parse: string -> Option<Value>): AttemptOutcome {
    match ex
    case Refused => Failed
    case Stream(lines, cut) => AfterStream(ExpectedStream(lines, cut, parse), parse)
  }

  /** One pass through the body of the `try`. */
  method Attempt(ex: Exchange, parse: string -> Option<Value>) returns (outcome: AttemptOutcome)
    ensures outcome == ExpectedAttempt(ex, parse)
  {
    outcome := Failed;
    if ex.Stream? {
      var streamed := CollectStream(ex.lines, ex.cut, parse);
      outcome := AfterStream(streamed, parse);
    }
  }

  /** How many attempts the loop makes at most: `max_retries`, but never fewer than one. */
  function Budget(maxRetries: int): (n: nat)
    ensures 1 <= n && maxRetries <= n
    ensures n == 1 || n == maxRetries
  {
    if maxRetries < 1 then 1 else maxRetries
  }

  /** The first attempt at or after `from` that does not fail, or `budget` if they all do. */
  ghost function FirstSettled(server: nat -> Exchange, parse: string -> Option<Value>, from: nat, budget: nat): (k: nat)
    requires from <= budget
    ensures from <= k <= budget
    decreases budget - from
  {
    if from == budget || ExpectedAttempt(server(from), parse) != Failed then from
    else FirstSettled(server, parse, from + 1, budget)
  }

  /** Every attempt before `FirstSettled` fails, and the one it names, if any, does not. */
  lemma {:induction false} FirstSettledIsFirst(server: nat -> Exchange, parse: string -> Option<Value>, from: nat, budget: nat)
    requires from <= budget
    ensures forall j | from <= j < FirstSettled(server, parse, from, budget) :: ExpectedAttempt(server(j), parse) == Failed
    ensures FirstSettled(server, parse, from, budget) < budget ==>
              ExpectedAttempt(server(FirstSettled(server, parse, from, budget)), parse) != Failed
    decreases budget - from
  {
    if from < budget && ExpectedAttempt(server(from), parse) == Failed {
      FirstSettledIsFirst(server, parse, from + 1, budget);
    }
  }

  /** What `process_request` answers: a value, or an exception it lets escape. */
  datatype AgentResult = Returned(value: Value) | Raised

  /** The number of requests `process_request` sends. */
  ghost function ExpectedAttempts(cfg: Config, server: nat -> Exchange, parse: string -> Option<Value>): nat {
    var b := Budget(cfg.maxRetries);
    var k := FirstSettled(server, parse, 0, b);
    if k < b then k + 1 else b
  }

  /** What `process_request` answers: the first attempt that settles decides, otherwise the soft failure `[]`. */
  ghost function ExpectedResult(cfg: Config, server: nat -> Exchange, parse: string -> Option<Value>): AgentResult {
    var b := Budget(cfg.maxRetries);
    var k := FirstSettled(server, parse, 0, b);
    if k == b then Returned(List([]))
    else
      match ExpectedAttempt(server(k), parse)
      case Parsed(v) => Returned(AsActionList(v))
      case _ => Raised
  }

  /**
   * `process_request`: one request per attempt, all with the same body;
   * `server(i)` is what attempt `i` (counting from 0) gets back.
   */
  method ProcessRequest(cfg: Config, userPrompt: string, server: nat -> Exchange, parse: string -> Option<Value>)
    returns (result: AgentResult, sent: seq<Request>)
    ensures result == ExpectedResult(cfg, server, parse)
    ensures |sent| == ExpectedAttempts(cfg, server, parse)
    ensures forall k | 0 <= k < |sent| :: sent[k] == Message(cfg, userPrompt)
  {
    var message := Message(cfg, userPrompt);
    ghost var b := Budget(cfg.maxRetries);
    var retryCount: nat := 0;
    sent := [];
    while true
      invariant retryCount < b
      invariant |sent| == retryCount
      invariant forall k | 0 <= k < |sent| :: sent[k] == message
      invariant FirstSettled(server, parse, 0, b) == FirstSettled(server, parse, retryCount, b)
      decreases b - retryCount
    {
      sent := sent + [message];
      var outcome := Attempt(server(retryCount), parse);
      if !outcome.Failed? {
        result := if outcome.Parsed? then Returned(AsActionList(outcome.value)) else Raised;
        return;
      }
      retryCount := retryCount + 1;
      if retryCount >= cfg.maxRetries {
        result := Returned(List([]));
        return;
      }
    }
  }

  /** `FirstSettled` is the only index with its two defining properties. */
  lemma {:induction false} SettledAt(server: nat -> Exchange, parse: string -> Option<Value>, budget: nat, from: nat, n: nat)
    requires from <= n <= budget
    requires forall j | from <= j < n :: ExpectedAttempt(server(j), parse) == Failed
    requires n < budget ==> ExpectedAttempt(server(n), parse) != Failed
    ensures FirstSettled(server, parse, from, budget) == n
    decreases n - from
  {
    if from < n {
      SettledAt(server, parse, budget, from + 1, n);
    }
  }

  /**
   * Against a completion service that always fails, `process_request` sends
   * exactly `max(1, max_retries)` requests and returns `[]` without raising.
   */
  lemma SoftFailure(cfg: Config, server: nat -> Exchange, parse: string -> Option<Value>)
    requires forall i: nat :: ExpectedAttempt(server(i), parse) == Failed
    ensures ExpectedResult(cfg, server, parse) == Returned(List([]))
    ensures ExpectedAttempts(cfg, server, parse) == if cfg.maxRetries < 1 then 1 else cfg.maxRetries
  {
    SettledAt(server, parse, Budget(cfg.maxRetries), 0, Budget(cfg.maxRetries));
  }

  /** With the default configuration, an always-failing service is asked exactly three times. */
  lemma DefaultSoftFailure(modelName: string, url: string, systemPrompt: string,
                           server: nat -> Exchange, parse: string -> Option<Value>)
    requires forall i: nat :: ExpectedAttempt(server(i), parse) == Failed
    ensures ExpectedAttempts(MakeConfig(modelName, None, url, systemPrompt), server, parse) == 3
  {
    SoftFailure(MakeConfig(modelName, None, url, systemPrompt), server, parse);
  }

  /** A first attempt that streams a single object yields that object as a one-element list. */
  lemma SingleObjectWrapped(cfg: Config, server: nat -> Exchange, parse: string -> Option<Value>, v: Value)
    requires ExpectedAttempt(server(0), parse) == Parsed(v) && v.Dict?
    ensures ExpectedResult(cfg, server, parse) == Returned(List([v]))
    ensures ExpectedAttempts(cfg, server, parse) == 1
  {
    SettledAt(server, parse, Budget(cfg.maxRetries), 0, 0);
  }
}
