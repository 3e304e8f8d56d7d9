/**
 * The robot controller's dashboard connection as `main.py` uses it: `send_cmd`
 * writes one newline-terminated command and answers with the stripped reply.
 *
 * The TCP socket is replaced by a transcript of the controller's raw replies,
 * consumed one per `recv`. Past the end of the transcript the controller has
 * closed the connection, and `recv` answers the empty string.
 */
module Dashboard {
  import opened PyText

  /** `cmd + "\n"`: the line one command puts on the wire. */
  function Frame(cmd: string): string {
    cmd + "\n"
  }

  /** Everything the commands of `log` put on the wire, in order. */
  function Wire(log: seq<string>): (w: string)
    ensures |w| == |log| + SumLengths(log)
  {
    if log == [] then "" else Frame(log[0]) + Wire(log[1..])
  }

  function SumLengths(log: seq<string>): nat {
    if log == [] then 0 else |log[0]| + SumLengths(log[1..])
  }

  /** Sending one more command appends its frame to what is already on the wire. */
  lemma {:induction false} WireAppend(log: seq<string>, cmd: string)
    ensures Wire(log + [cmd]) == Wire(log) + Frame(cmd)
  {
    if log == [] {
      assert log + [cmd] == [cmd];
      assert [cmd][1..] == [];
    } else {
      assert (log + [cmd])[1..] == log[1..] + [cmd];
      WireAppend(log[1..], cmd);
    }
  }

  /**
   * How the controller reads the wire: every newline ends one command; text
   * after the last newline is an incomplete command it has not read yet.
   * `pending` is the part of the current line read so far.
   */
  function Lines(w: string, pending: string): seq<string> {
    if w == [] then []
    else if w[0] == '\n' then [pending] + Lines(w[1..], "")
    else Lines(w[1..], pending + [w[0]])
  }

  /** A command without a newline in it is read back whole, up to its newline. */
  lemma {:induction false} LinesFrame(cmd: string, rest: string, pending: string)
    requires '\n' !in cmd
    ensures Lines(Frame(cmd) + rest, pending) == [pending + cmd] + Lines(rest, "")
  {
    if cmd == [] {
      assert pending + cmd == pending;
      assert (Frame(cmd) + rest)[1..] == rest;
    } else {
      assert (Frame(cmd) + rest)[0] == cmd[0];
      assert (Frame(cmd) + rest)[1..] == Frame(cmd[1..]) + rest;
      assert '\n' !in cmd[1..] by {
        forall k | 0 <= k < |cmd[1..]|
          ensures cmd[1..][k] != '\n'
        {
          assert cmd[1..][k] == cmd[k + 1];
        }
      }
      LinesFrame(cmd[1..], rest, pending + [cmd[0]]);
      assert (pending + [cmd[0]]) + cmd[1..] == pending + cmd;
    }
  }

  /** The controller reads back exactly the commands that were sent, in order, when none holds a newline. */
  lemma {:induction false} WireRoundTrip(log: seq<string>)
    requires forall k | 0 <= k < |log| :: '\n' !in log[k]
    ensures Lines(Wire(log), "") == log
  {
    if log != [] {
      LinesFrame(log[0], Wire(log[1..]), "");
      WireRoundTrip(log[1..]);
      assert "" + log[0] == log[0];
    }
  }

  /** What `recv` delivers for reply `i`: the transcript's entry, or nothing once the controller has closed. */
  function ReplyAt(replies: seq<string>, i: nat): string {
    if i < |replies| then replies[i] else ""
  }

  /** The decoded, stripped form of every reply of the transcript, as `send_cmd` returns them. */
  function Stripped(replies: seq<string>): (r: seq<string>)
    ensures |r| == |replies|
  {
    seq(|replies|, i requires 0 <= i < |replies| => Strip(replies[i]))
  }

  /** What `send_cmd` returns for reply `i`, given the stripped transcript. */
  function ResponseAt(responses: seq<string>, i: nat): string {
    if i < |responses| then responses[i] else ""
  }

  /** The response for reply `i` is `recv(...).decode().strip()` of that reply, and empty once the controller has closed. */
  lemma StrippedAt(replies: seq<string>, i: nat)
    ensures ResponseAt(Stripped(replies), i) == Strip(ReplyAt(replies, i))
    ensures i >= |replies| ==> ResponseAt(Stripped(replies), i) == ""
  {
    if i >= |replies| {
      assert Strip("") == "";
    }
  }

  /**
   * The dashboard socket: the controller's replies (and how `send_cmd` returns
   * them), how many have been read, and every command sent.
   */
  class Session {
    const replies: seq<string>
    const responses: seq<string>
    var next: nat
    var log: seq<string>

    /** A freshly connected socket: nothing read, nothing sent. */
    constructor (replies: seq<string>)
      ensures this.replies == replies && responses == Stripped(replies)
      ensures next == 0 && log == []
    {
      this.replies := replies;
      responses := Stripped(replies);
      next := 0;
      log := [];
    }

    /** The bytes sent so far. */
    function Sent(): string
      reads this
    {
      Wire(log)
    }

    /**
     * `send_cmd`: writes `cmd` and one newline, then reads one reply and
     * strips it; what is now on the wire is `Sent()`, which `WireAppend`
     * relates to what was there before.
     */
    method Send(cmd: string) returns (response: string)
      modifies this
      ensures log == old(log) + [cmd]
      ensures next == old(next) + 1
      ensures response == ResponseAt(responses, old(next))
    {
      log := log + [cmd];
      response := ResponseAt(responses, next);
      next := next + 1;
    }

    /** A bare `sock.recv(...).decode().strip()`, as for the controller's greeting: nothing is sent. */
    method Receive() returns (response: string)
      modifies this
      ensures log == old(log)
      ensures next == old(next) + 1
      ensures response == ResponseAt(responses, old(next))
    {
      response := ResponseAt(responses, next);
      next := next + 1;
    }
  }
}
