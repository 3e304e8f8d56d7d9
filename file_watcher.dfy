/**
 * `SSHFileWatcher`: poll one remote file over SFTP and yield its content
 * whenever its MD5 fingerprint changes.
 *
 * The SFTP session is replaced by one observation per poll: what opening the
 * file for hashing found (its bytes, that it is missing, or another error),
 * and what `_read_file` returned, when it returned. That read gives bytes
 * whatever the mode flag; the model takes them as their decoded text. The
 * digest `hashlib.md5(...).hexdigest()` is the parameter `md5`. The generator,
 * which never ends, is modelled by what it yields over any finite run of
 * polls.
 */
module FileWatcher {
  import opened Wrappers
  import opened Seqs

  predicate IsHexDigit(c: char) {
    '0' <= c <= '9' || 'a' <= c <= 'f'
  }

  /** What `hexdigest()` returns: 32 lower-case hexadecimal digits. */
  type Digest = d: string | |d| == 32 && forall i | 0 <= i < |d| :: IsHexDigit(d[i])
    witness "00000000000000000000000000000000"

  /** What `_get_file_hash` met when it opened the file in binary mode. */
  datatype Probe =
    | Present(bytes: seq<bv8>)
      /** `FileNotFoundError`, which `_get_file_hash` turns into the empty fingerprint. */
    | Missing
      /** Any other exception, which reaches the `except Exception` of the loop. */
    | Unreachable

  /** One pass of the polling loop: the probe, and what `_read_file` returned (`None`: it raised). */
  datatype Poll = Poll(probe: Probe, read: Option<string>)

  /** `_get_file_hash`: the MD5 digest of the bytes, `""` for a missing file, or `None` when it raises. */
  function FileHash(probe: Probe, md5: seq<bv8> -> Digest): (h: Option<string>)
    ensures probe.Missing? <==> h == Some("")
    ensures probe.Unreachable? <==> h.None?
    ensures probe.Present? ==> h == Some(md5(probe.bytes))
  {
    match probe
    case Present(bytes) => Some(md5(bytes))
    case Missing => Some("")
    case Unreachable => None
  }

  /** The state after one poll: the new `last_hash`, and the content yielded, if any. */
  datatype Outcome = Outcome(last: Option<string>, yielded: Option<string>)

  /**
   * One pass of the `while True` body. The hash is compared with `last_hash`;
   * on a change `last_hash` is updated first, and then the file is read; any
   * exception ends the pass without a yield.
   */
  function Step(last: Option<string>, poll: Poll, md5: seq<bv8> -> Digest): (o: Outcome)
    ensures o.yielded.Some? <==> FileHash(poll.probe, md5).Some? && FileHash(poll.probe, md5) != last && poll.read.Some?
    ensures o.yielded.Some? ==> o.yielded == poll.read
    ensures o.last == (if FileHash(poll.probe, md5).Some? then FileHash(poll.probe, md5) else last)
  {
    match FileHash(poll.probe, md5)
    case None => Outcome(last, None)
    case Some(h) =>
      if Some(h) == last then Outcome(last, None)
      else Outcome(Some(h), poll.read)
  }

  /** The pairs `(remote_path, content)` the generator yields over `polls`, starting from `last`. */
  function Trace(path: string, last: Option<string>, polls: seq<Poll>, md5: seq<bv8> -> Digest): seq<(string, string)>
    decreases |polls|
  {
    if polls == [] then []
    else
      var o := Step(last, polls[0], md5);
      (if o.yielded.Some? then [(path, o.yielded.value)] else []) + Trace(path, o.last, polls[1..], md5)
  }

  /** `last_hash` after `polls`, starting from `last`. */
  function LastHash(last: Option<string>, polls: seq<Poll>, md5: seq<bv8> -> Digest): Option<string>
    decreases |polls|
  {
    if polls == [] then last else LastHash(Step(last, polls[0], md5).last, polls[1..], md5)
  }


  // ---------------------------------------------------------------------------
  // Properties
  // ---------------------------------------------------------------------------

  /** A digest is never the empty fingerprint of a missing file. */
  lemma DigestNotEmpty(md5: seq<bv8> -> Digest, bytes: seq<bv8>)
    ensures md5(bytes) != ""
  {
    assert |md5(bytes)| == 32;
  }

  /** The generator never stops: what it yields over `a + b` is what it yields over `a`, then over `b`. */
  lemma {:induction false} TraceAppend(path: string, last: Option<string>, a: seq<Poll>, b: seq<Poll>, md5: seq<bv8> -> Digest)
    ensures Trace(path, last, a + b, md5) == Trace(path, last, a, md5) + Trace(path, LastHash(last, a, md5), b, md5)
    decreases |a|
  {
    if a == [] {
      assert a + b == b;
    } else {
      assert (a + b)[0] == a[0];
      assert (a + b)[1..] == a[1..] + b;
      var o := Step(last, a[0], md5);
      TraceAppend(path, o.last, a[1..], b, md5);
      AppendAssoc(if o.yielded.Some? then [(path, o.yielded.value)] else [],
                  Trace(path, o.last, a[1..], md5), Trace(path, LastHash(o.last, a[1..], md5), b, md5));
    }
  }

  /** Every yield carries the watched path, unchanged. */
  lemma {:induction false} PathUnchanged(path: string, last: Option<string>, polls: seq<Poll>, md5: seq<bv8> -> Digest)
    ensures forall k | 0 <= k < |Trace(path, last, polls, md5)| :: Trace(path, last, polls, md5)[k].0 == path
    decreases |polls|
  {
    if polls != [] {
      var o := Step(last, polls[0], md5);
      PathUnchanged(path, o.last, polls[1..], md5);
    }
  }

  /** A poll that raises before the comparison changes nothing: polling simply continues. */
  lemma FailedPollIgnored(path: string, last: Option<string>, poll: Poll, rest: seq<Poll>, md5: seq<bv8> -> Digest)
    requires poll.probe.Unreachable?
    ensures Trace(path, last, [poll] + rest, md5) == Trace(path, last, rest, md5)
  {
    assert ([poll] + rest)[1..] == rest;
  }

  /** A poll whose hash equals `last_hash` yields nothing and leaves `last_hash` as it was. */
  lemma UnchangedPollIgnored(path: string, h: string, poll: Poll, rest: seq<Poll>, md5: seq<bv8> -> Digest)
    requires FileHash(poll.probe, md5) == Some(h)
    ensures Step(Some(h), poll, md5) == Outcome(Some(h), None)
    ensures Trace(path, Some(h), [poll] + rest, md5) == Trace(path, Some(h), rest, md5)
  {
    assert ([poll] + rest)[1..] == rest;
  }

  /**
   * The first poll whose hash can be computed always reads, because
   * `last_hash` starts as `None`; when that read succeeds its content is the
   * first yield.
   */
  lemma FirstSuccessfulPollYields(path: string, failed: seq<Poll>, poll: Poll, rest: seq<Poll>, md5: seq<bv8> -> Digest)
    requires forall k | 0 <= k < |failed| :: failed[k].probe.Unreachable?
    requires !poll.probe.Unreachable? && poll.read.Some?
    ensures Trace(path, None, failed + [poll] + rest, md5)
         == [(path, poll.read.value)] + Trace(path, FileHash(poll.probe, md5), rest, md5)
  {
    FailuresIgnored(path, None, failed, md5);
    TraceAppend(path, None, failed, [poll] + rest, md5);
    assert failed + [poll] + rest == failed + ([poll] + rest);
    assert ([poll] + rest)[1..] == rest;
  }

  /** Polls that all raise yield nothing and leave `last_hash` alone. */
  lemma {:induction false} FailuresIgnored(path: string, last: Option<string>, polls: seq<Poll>, md5: seq<bv8> -> Digest)
    requires forall k | 0 <= k < |polls| :: polls[k].probe.Unreachable?
    ensures Trace(path, last, polls, md5) == [] && LastHash(last, polls, md5) == last
    decreases |polls|
  {
    if polls != [] {
      FailuresIgnored(path, last, polls[1..], md5);
    }
  }

  /** After `last_hash` has taken the value `h`, polls that find `h` again, or raise, yield nothing. */
  lemma {:induction false} SettledHashYieldsNothing(path: string, h: string, polls: seq<Poll>, md5: seq<bv8> -> Digest)
    requires forall k | 0 <= k < |polls| :: FileHash(polls[k].probe, md5) in {None, Some(h)}
    ensures Trace(path, Some(h), polls, md5) == []
    decreases |polls|
  {
    if polls != [] {
      SettledHashYieldsNothing(path, h, polls[1..], md5);
    }
  }

  /**
   * A change whose read fails is lost: `last_hash` already holds the new
   * hash, so the content is not yielded later unless the hash changes again.
   */
  lemma DroppedChange(path: string, last: Option<string>, poll: Poll, rest: seq<Poll>, md5: seq<bv8> -> Digest)
    requires FileHash(poll.probe, md5).Some? && FileHash(poll.probe, md5) != last && poll.read.None?
    requires forall k | 0 <= k < |rest| :: FileHash(rest[k].probe, md5) in {None, FileHash(poll.probe, md5)}
    ensures Trace(path, last, [poll] + rest, md5) == []
  {
    assert ([poll] + rest)[1..] == rest;
    SettledHashYieldsNothing(path, FileHash(poll.probe, md5).value, rest, md5);
  }

  /**
   * A file that stays missing never yields: its fingerprint is `""`, the read
   * after the first `""` raises, and every later `""` matches `last_hash`.
   */
  lemma {:induction false} MissingNeverYields(path: string, last: Option<string>, polls: seq<Poll>, md5: seq<bv8> -> Digest)
    requires forall k | 0 <= k < |polls| :: !polls[k].probe.Present?
    requires forall k | 0 <= k < |polls| :: polls[k].probe.Missing? ==> polls[k].read.None?
    ensures Trace(path, last, polls, md5) == []
    decreases |polls|
  {
    if polls != [] {
      MissingNeverYields(path, Step(last, polls[0], md5).last, polls[1..], md5);
    }
  }

  // ---------------------------------------------------------------------------
  // The watcher object
  // ---------------------------------------------------------------------------

  /** The two connections a watcher holds. */
  datatype Client = SshClient | SftpClient

  /** The clients `close` closes, in order: only those that are set, the SFTP client first. */
  function Closing(ssh: bool, sftp: bool): (r: seq<Client>)
    ensures SftpClient in r <==> sftp
    ensures SshClient in r <==> ssh
    ensures |r| == (if ssh then 1 else 0) + (if sftp then 1 else 0)
    ensures ssh && sftp ==> r == [SftpClient, SshClient]
  {
    (if sftp then [SftpClient] else []) + (if ssh then [SshClient] else [])
  }

  class Watcher {
    const hostname: string
    const username: string
    const password: Option<string>
    const port: int
    const keyFilename: Option<string>
    /** `ssh_client` and `sftp_client` are not `None`. */
    var ssh: bool
    var sftp: bool
    /** Every `close()` call made on a client, in order. */
    var closed: seq<Client>

    /** `__init__`, whose `_connect` either opens both clients or raises (an exception this model leaves out). */
    constructor (hostname: string, username: string, password: Option<string>, port: int, keyFilename: Option<string>)
      ensures this.hostname == hostname && this.username == username && this.password == password
      ensures this.port == port && this.keyFilename == keyFilename
      ensures ssh && sftp && closed == []
    {
      this.hostname := hostname;
      this.username := username;
      this.password := password;
      this.port := port;
      this.keyFilename := keyFilename;
      ssh := true;
      sftp := true;
      closed := [];
    }

    /** `close`: closes the clients that are set, SFTP before SSH, and leaves both fields as they were. */
    method Close()
      modifies this
      ensures closed == old(closed) + Closing(ssh, sftp)
      ensures ssh == old(ssh) && sftp == old(sftp)
    {
      if sftp {
        closed := closed + [SftpClient];
      }
      if ssh {
        closed := closed + [SshClient];
      }
    }

    /** `watch_file(remote_path)` over the polls `polls`: the loop that updates `last_hash`. */
    method WatchFile(remotePath: string, polls: seq<Poll>, md5: seq<bv8> -> Digest) returns (changes: seq<(string, string)>)
      ensures changes == Trace(remotePath, None, polls, md5)
    {
      var lastHash: Option<string> := None;
      changes := [];
      var i := 0;
      while i < |polls|
        invariant 0 <= i <= |polls|
        invariant changes + Trace(remotePath, lastHash, polls[i..], md5) == Trace(remotePath, None, polls, md5)
      {
        var poll := polls[i];
        ghost var before := lastHash;
        ghost var rest := Trace(remotePath, lastHash, polls[i + 1..], md5);
        var currentHash := FileHash(poll.probe, md5);
        var emitted: seq<(string, string)> := [];
        if currentHash.Some? && currentHash != lastHash {
          lastHash := currentHash;
          if poll.read.Some? {
            emitted := [(remotePath, poll.read.value)];
          }
        }
        assert polls[i..][0] == poll && polls[i..][1..] == polls[i + 1..];
        assert Trace(remotePath, before, polls[i..], md5)
            == emitted + Trace(remotePath, lastHash, polls[i + 1..], md5);
        AppendAssoc(changes, emitted, Trace(remotePath, lastHash, polls[i + 1..], md5));
        changes := changes + emitted;
        i := i + 1;
      }
    }
  }
}
