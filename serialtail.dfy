/**
 * The serial tail of flasher.go: the reader task (`echoSerial`), the
 * supervisor loop that watches its messages and a once-a-second tick for
 * inactivity, and the outer loop that reopens the port when asked to.
 *
 * The tasks and their channel are modelled as the sequence of messages the
 * supervisor receives, each with the clock reading at which it is handled;
 * a port read is modelled by its result.
 */
module SerialTail {
  import opened GoStrings

  /** Size of the reader's reused buffer: a read returns at most this many bytes. */
  const BufferSize := 256

  /** Nanoseconds in a second: `time.Time` readings are nanoseconds, `TailInactivity` is seconds. */
  const Second := 1_000_000_000

  /** The result of one `port.Read(buff)`: the `n` bytes read, or an error. */
  datatype ReadResult = ReadOk(chunk: seq<byte>) | ReadError

  /** `EchoStatus`, the message on the channel between the tasks and the supervisor. */
  datatype EchoStatus = EchoStatus(data: bool, exited: bool)

  /** What the reader sends after a successful read. */
  const DataStatus := EchoStatus(true, false)
  /** What the one-second heartbeat sends. */
  const TickStatus := EchoStatus(false, false)
  /** What the reader sends when it stops. */
  const ExitedStatus := EchoStatus(false, true)

  /** A step of the reader, in order: a message sent, or text printed (and appended to the log file when there is one). */
  datatype ReaderEvent = Send(status: EchoStatus) | Echo(text: seq<byte>)

  // ---------------------------------------------------------------------------
  // The reader
  // ---------------------------------------------------------------------------

  /** Line 119: every carriage return is deleted from the chunk, everything else kept in order. */
  function StripCR(chunk: seq<byte>): (r: seq<byte>)
    ensures r == Without(chunk, CR)
    ensures CR !in r
    ensures |r| == |chunk| - multiset(chunk)[CR]
  {
    RemoveAllSingle(chunk, CR);
    WithoutOmits(chunk, CR);
    WithoutLength(chunk, CR);
    RemoveAll(chunk, [CR])
  }

  /** Stripping twice is stripping once. */
  lemma StripCRIdempotent(chunk: seq<byte>)
    ensures StripCR(StripCR(chunk)) == StripCR(chunk)
  {
    WithoutIdempotent(chunk, CR);
  }

  /** Stripping keeps every other byte value as often as it occurred. */
  lemma StripCRKeepsOtherBytes(chunk: seq<byte>, b: byte)
    requires b != CR
    ensures multiset(StripCR(chunk))[b] == multiset(chunk)[b]
  {
    WithoutCounts(chunk, CR);
  }

  /** The read ends the reader's loop: an error, or zero bytes. */
  predicate Stops(read: ReadResult)
  {
    read.ReadError? || read.chunk == []
  }

  /**
   * What the reader does with a sequence of read results: per successful
   * non-empty read, a data message and then the sanitised chunk; at the first
   * read that stops the loop, the exited message. Running out of results
   * counts as a failed read (the supervisor has closed the port).
   */
  function ReaderTrace(results: seq<ReadResult>): (t: seq<ReaderEvent>)
    ensures |t| % 2 == 1 && t[|t| - 1] == Send(ExitedStatus)
    ensures t[0] == Send(ExitedStatus) <==> results == [] || Stops(results[0])
    decreases |results|
  {
    if results == [] || Stops(results[0]) then [Send(ExitedStatus)]
    else [Send(DataStatus), Echo(StripCR(results[0].chunk))] + ReaderTrace(results[1..])
  }

  /** The number of leading results that returned data. */
  function Served(results: seq<ReadResult>): (n: nat)
    ensures n <= |results|
    ensures forall j :: 0 <= j < n ==> !Stops(results[j])
    ensures n < |results| ==> Stops(results[n])
    decreases |results|
  {
    if results == [] || Stops(results[0]) then 0 else 1 + Served(results[1..])
  }

  /** One step of the reader's loop, seen from the trace. */
  lemma ReaderTraceStep(results: seq<ReadResult>, i: nat)
    requires i < |results| && !Stops(results[i])
    ensures ReaderTrace(results[i..]) ==
      [Send(DataStatus), Echo(StripCR(results[i].chunk))] + ReaderTrace(results[i + 1..])
  {
    assert results[i..][1..] == results[i + 1..];
  }

  /** `port.Read(buff)`: the bytes of the read land at the front of the buffer. */
  method ReadInto(buff: array<byte>, chunk: seq<byte>)
    requires |chunk| <= buff.Length
    modifies buff
    ensures buff[..|chunk|] == chunk
    ensures buff[|chunk|..] == old(buff[|chunk|..])
  {
    forall k | 0 <= k < |chunk| {
      buff[k] := chunk[k];
    }
  }

  /**
   * `echoSerial`: reads into the reused buffer until an error or an empty
   * read, sending the data message before echoing each sanitised chunk.
   */
  method EchoSerial(results: seq<ReadResult>) returns (trace: seq<ReaderEvent>)
    requires forall i :: 0 <= i < |results| && results[i].ReadOk? ==> |results[i].chunk| <= BufferSize
    ensures trace == ReaderTrace(results)
  {
    var buff := new byte[BufferSize];
    trace := [];
    var i := 0;
    while i < |results| && results[i].ReadOk? && results[i].chunk != []
      invariant 0 <= i <= |results|
      invariant trace + ReaderTrace(results[i..]) == ReaderTrace(results)
      decreases |results| - i
    {
      var chunk := results[i].chunk;
      var n := |chunk|;
      ReadInto(buff, chunk);
      ReaderTraceStep(results, i);
      var sanitized := StripCR(buff[..n]);
      trace := trace + [Send(DataStatus), Echo(sanitized)];
      i := i + 1;
    }
    assert ReaderTrace(results[i..]) == [Send(ExitedStatus)];
    trace := trace + [Send(ExitedStatus)];
  }

  /**
   * The reader's behaviour, read by position: the good read `k` shows up as
   * the data message `2k` followed by its sanitised echo at `2k + 1`.
   */
  lemma {:induction false} ReaderTraceAt(results: seq<ReadResult>, k: nat)
    requires k < Served(results)
    ensures k + k + 1 < |ReaderTrace(results)|
    ensures ReaderTrace(results)[k + k] == Send(DataStatus)
    ensures ReaderTrace(results)[k + k + 1] == Echo(StripCR(results[k].chunk))
    decreases k
  {
    ReaderTraceStep(results, 0);
    assert results[0..] == results;
    var t := ReaderTrace(results);
    var rest := ReaderTrace(results[1..]);
    assert t == [Send(DataStatus), Echo(StripCR(results[0].chunk))] + rest;
    if k > 0 {
      ReaderTraceAt(results[1..], k - 1);
      var j := (k - 1) + (k - 1);
      assert rest[j] == Send(DataStatus) && rest[j + 1] == Echo(StripCR(results[1..][k - 1].chunk));
      assert t[k + k] == rest[j] && t[k + k + 1] == rest[j + 1];
      assert results[1..][k - 1] == results[k];
    }
  }

  /** The trace has one data message and one echo per good read, and one exited message at the end. */
  lemma {:induction false} ReaderTraceLength(results: seq<ReadResult>)
    ensures |ReaderTrace(results)| == Served(results) + Served(results) + 1
    ensures ReaderTrace(results)[|ReaderTrace(results)| - 1] == Send(ExitedStatus)
    decreases |results|
  {
    if results != [] && !Stops(results[0]) {
      ReaderTraceStep(results, 0);
      assert results[0..] == results;
      ReaderTraceLength(results[1..]);
    }
  }

  /** Only the last message of the reader is the exited one. */
  predicate ExitedOnlyAtEnd(t: seq<ReaderEvent>)
  {
    forall k :: 0 <= k < |t| - 1 ==> t[k] != Send(ExitedStatus)
  }

  lemma {:induction false} ExitedOnlyLast(results: seq<ReadResult>)
    ensures ExitedOnlyAtEnd(ReaderTrace(results))
    decreases |results|
  {
    if results != [] && !Stops(results[0]) {
      ExitedOnlyLast(results[1..]);
      var rest := ReaderTrace(results[1..]);
      var t := ReaderTrace(results);
      assert t == [Send(DataStatus), Echo(StripCR(results[0].chunk))] + rest;
      assert |t| == |rest| + 2;
      assert ExitedOnlyAtEnd(rest);
      forall k | 2 <= k < |t| - 1 ensures t[k] != Send(ExitedStatus) {
        assert 0 <= k - 2 < |rest| - 1;
        assert t[k] == rest[k - 2];
      }
    }
  }

  /** Every echo directly follows a data message, and no echoed text holds a carriage return. */
  predicate EchoesAfterData(t: seq<ReaderEvent>)
  {
    forall k :: 0 <= k < |t| && t[k].Echo? ==> 0 < k && t[k - 1] == Send(DataStatus) && CR !in t[k].text
  }

  lemma {:induction false} EchoFollowsData(results: seq<ReadResult>)
    ensures EchoesAfterData(ReaderTrace(results))
    decreases |results|
  {
    if results != [] && !Stops(results[0]) {
      EchoFollowsData(results[1..]);
      var rest := ReaderTrace(results[1..]);
      var t := ReaderTrace(results);
      assert t == [Send(DataStatus), Echo(StripCR(results[0].chunk))] + rest;
      assert |t| == |rest| + 2;
      assert EchoesAfterData(rest);
      forall k | 2 <= k < |t| && t[k].Echo? ensures 0 < k && t[k - 1] == Send(DataStatus) && CR !in t[k].text {
        assert t[k] == rest[k - 2];
        assert 0 < k - 2 && rest[k - 3] == Send(DataStatus) && CR !in rest[k - 2].text;
        assert t[k - 1] == rest[k - 3];
      }
      assert t[1] == Echo(StripCR(results[0].chunk)) && t[0] == Send(DataStatus);
    }
  }

  // ---------------------------------------------------------------------------
  // The supervisor
  // ---------------------------------------------------------------------------

  /** A message as the supervisor handles it, with the clock reading (nanoseconds) at that moment. */
  datatype Received = Received(status: EchoStatus, now: int)

  /** Why a session ended; `Waiting` when the messages ran out first. */
  datatype SessionEnd = ReaderExited | Inactive | Waiting

  /** A session's end, the last-activity time then, and how many messages were handled. */
  datatype Session = Session(end: SessionEnd, previous: int, handled: nat)

  /** Lines 237-240: the window is on and the last activity is strictly older than it. */
  predicate TimedOut(previous: int, now: int, inactivity: int)
    ensures inactivity <= 0 ==> !TimedOut(previous, now, inactivity)
    ensures TimedOut(previous, now, inactivity) ==> now - previous > Second
  {
    inactivity > 0 && previous < now - inactivity * Second
  }

  /** Once the window has passed, it stays passed as the clock moves on. */
  lemma TimedOutLater(previous: int, now: int, later: int, inactivity: int)
    requires TimedOut(previous, now, inactivity) && now <= later
    ensures TimedOut(previous, later, inactivity)
  {
  }

  /** The test is strict: silence of exactly the window does not time out, one nanosecond more does. */
  lemma TimedOutBoundary(previous: int, inactivity: int)
    requires inactivity > 0
    ensures !TimedOut(previous, previous + inactivity * Second, inactivity)
    ensures TimedOut(previous, previous + inactivity * Second + 1, inactivity)
  {
  }

  /**
   * The supervisor's loop on the messages received, starting with
   * last-activity time `previous`: a data message moves the last activity to
   * now; an exited message ends the session before inactivity is looked at;
   * otherwise the inactivity check may end it.
   */
  function Supervise(previous: int, events: seq<Received>, inactivity: int): (s: Session)
    ensures s.handled <= |events|
    ensures s.end != Waiting ==> s.handled > 0
    decreases |events|
  {
    if events == [] then Session(Waiting, previous, 0)
    else
      var ev := events[0];
      var p := if ev.status.data then ev.now else previous;
      if ev.status.exited then Session(ReaderExited, p, 1)
      else if TimedOut(p, ev.now, inactivity) then Session(Inactive, p, 1)
      else
        var rest := Supervise(p, events[1..], inactivity);
        rest.(handled := rest.handled + 1)
  }

  /** Lines 225-246: one session of the supervisor, from the clock reading `start` at which the port was opened. */
  method RunSession(start: int, events: seq<Received>, inactivity: int) returns (s: Session)
    ensures s == Supervise(start, events, inactivity)
  {
    var previous := start;
    var i := 0;
    while true
      invariant 0 <= i <= |events|
      invariant Supervise(start, events, inactivity) ==
        var rest := Supervise(previous, events[i..], inactivity); rest.(handled := rest.handled + i)
      decreases |events| - i
    {
      if i == |events| {
        return Session(Waiting, previous, i);
      }
      var status := events[i].status;
      var now := events[i].now;
      assert events[i..][1..] == events[i + 1..];
      if status.data {
        previous := now;
      }
      if status.exited {
        return Session(ReaderExited, previous, i + 1);
      }
      if inactivity > 0 {
        var to := now - inactivity * Second;
        if previous < to {
          return Session(Inactive, previous, i + 1);
        }
      }
      i := i + 1;
    }
  }

  /** A data message moves the last activity to its own time and so never ends the session for inactivity. */
  lemma DataResetsClock(previous: int, ev: Received, more: seq<Received>, inactivity: int)
    requires ev.status.data && !ev.status.exited
    ensures Supervise(previous, [ev] + more, inactivity) ==
      var rest := Supervise(ev.now, more, inactivity); rest.(handled := rest.handled + 1)
  {
    assert ([ev] + more)[1..] == more;
  }

  /** A heartbeat that does not time out leaves the last activity where it was. */
  lemma TickKeepsClock(previous: int, ev: Received, more: seq<Received>, inactivity: int)
    requires ev.status == TickStatus && !TimedOut(previous, ev.now, inactivity)
    ensures Supervise(previous, [ev] + more, inactivity) ==
      var rest := Supervise(previous, more, inactivity); rest.(handled := rest.handled + 1)
  {
    assert ([ev] + more)[1..] == more;
  }

  /** An exited message ends the session at once, whatever the clock says. */
  lemma ExitedEndsSession(previous: int, ev: Received, more: seq<Received>, inactivity: int)
    requires ev.status.exited
    ensures Supervise(previous, [ev] + more, inactivity).end == ReaderExited
    ensures Supervise(previous, [ev] + more, inactivity).handled == 1
  {
  }

  /** With the window off (zero or less), only the reader's exit ends a session. */
  lemma {:induction false} NoWindowNoInactivity(previous: int, events: seq<Received>, inactivity: int)
    requires inactivity <= 0
    ensures Supervise(previous, events, inactivity).end != Inactive
    decreases |events|
  {
    if events != [] && !events[0].status.exited {
      var p := if events[0].status.data then events[0].now else previous;
      NoWindowNoInactivity(p, events[1..], inactivity);
    }
  }

  /** A session has ended by the time the first exited message is handled. */
  lemma {:induction false} EndsByFirstExit(previous: int, events: seq<Received>, inactivity: int, k: nat)
    requires k < |events| && events[k].status.exited
    ensures Supervise(previous, events, inactivity).end != Waiting
    ensures Supervise(previous, events, inactivity).handled <= k + 1
    decreases k
  {
    if k > 0 && !events[0].status.exited {
      var p := if events[0].status.data then events[0].now else previous;
      if !TimedOut(p, events[0].now, inactivity) {
        EndsByFirstExit(p, events[1..], inactivity, k - 1);
      }
    }
  }

  /**
   * An inactivity end happens on a message without data, with the window on,
   * when the last activity is strictly older than the window.
   */
  lemma {:induction false} InactiveMeansSilence(previous: int, events: seq<Received>, inactivity: int)
    requires Supervise(previous, events, inactivity).end == Inactive
    ensures var s := Supervise(previous, events, inactivity);
      var last := events[s.handled - 1];
      && inactivity > 0
      && !last.status.data && !last.status.exited
      && s.previous < last.now - inactivity * Second
    decreases |events|
  {
    var ev := events[0];
    var p := if ev.status.data then ev.now else previous;
    if !ev.status.exited && !TimedOut(p, ev.now, inactivity) {
      InactiveMeansSilence(p, events[1..], inactivity);
      var rest := Supervise(p, events[1..], inactivity);
      assert events[1..][rest.handled - 1] == events[rest.handled];
    }
  }

  /**
   * Silence is noticed: if no message up to `k` carries data or the exit, and
   * the message at `k` is handled more than the window after `previous`, the
   * session ends for inactivity no later than at `k`.
   */
  lemma {:induction false} SilenceEndsSession(previous: int, events: seq<Received>, inactivity: int, k: nat)
    requires inactivity > 0 && k < |events|
    requires forall j :: 0 <= j <= k ==> !events[j].status.data && !events[j].status.exited
    requires previous < events[k].now - inactivity * Second
    ensures Supervise(previous, events, inactivity).end == Inactive
    ensures Supervise(previous, events, inactivity).handled <= k + 1
    decreases k
  {
    if k > 0 && !TimedOut(previous, events[0].now, inactivity) {
      assert forall j :: 0 <= j <= k - 1 ==> events[1..][j] == events[j + 1];
      SilenceEndsSession(previous, events[1..], inactivity, k - 1);
    }
  }

  // ---------------------------------------------------------------------------
  // The outer tail loop
  // ---------------------------------------------------------------------------

  /**
   * What one pass of the outer loop meets: whether the device path still
   * exists, what port discovery returns if it does not, whether the port
   * opens, the clock reading at which the session starts, and the messages
   * the supervisor receives. `portPresent` means that `os.Stat` on the
   * current port did not report that it does not exist; an empty port is
   * rediscovered whatever `portPresent` says, since `os.Stat("")` always
   * reports that it does not exist.
   */
  datatype Attempt = Attempt(portPresent: bool, rediscovered: string, opens: bool, start: int, events: seq<Received>)

  /**
   * How the tail ends: the port vanished and discovery found none, the port
   * would not open (both fatal), the loop stopped after a session because
   * reopening is off, or it is still running when the attempts run out.
   */
  datatype TailOutcome = NoPortToTail | OpenFailed | Stopped | Running

  datatype TailResult = TailResult(outcome: TailOutcome, sessions: nat, port: string)

  /** The outer loop of lines 200-251 over the attempts it meets. */
  function TailRun(port: string, inactivity: int, reopen: bool, attempts: seq<Attempt>): (r: TailResult)
    ensures r.sessions <= |attempts|
    decreases |attempts|
  {
    if attempts == [] then TailResult(Running, 0, port)
    else
      var a := attempts[0];
      var p := if a.portPresent && port != "" then port else a.rediscovered;
      if p == "" then TailResult(NoPortToTail, 0, p)
      else if !a.opens then TailResult(OpenFailed, 0, p)
      else if Supervise(a.start, a.events, inactivity).end == Waiting then TailResult(Running, 0, p)
      else if !reopen then TailResult(Stopped, 1, p)
      else
        var rest := TailRun(p, inactivity, reopen, attempts[1..]);
        rest.(sessions := rest.sessions + 1)
  }

  /** Lines 197-252: the tail, as a loop over the attempts. */
  method Tail(port: string, inactivity: int, reopen: bool, attempts: seq<Attempt>) returns (r: TailResult)
    ensures r == TailRun(port, inactivity, reopen, attempts)
  {
    var current := port;
    var sessions := 0;
    var i := 0;
    while i < |attempts|
      invariant 0 <= i <= |attempts| && sessions == i
      invariant TailRun(port, inactivity, reopen, attempts) ==
        var rest := TailRun(current, inactivity, reopen, attempts[i..]); rest.(sessions := rest.sessions + sessions)
    {
      var a := attempts[i];
      assert attempts[i..][1..] == attempts[i + 1..];
      if !a.portPresent || current == "" {
        current := a.rediscovered;
        if current == "" {
          return TailResult(NoPortToTail, sessions, current);
        }
      }
      if !a.opens {
        return TailResult(OpenFailed, sessions, current);
      }
      var s := RunSession(a.start, a.events, inactivity);
      if s.end == Waiting {
        return TailResult(Running, sessions, current);
      }
      sessions := sessions + 1;
      if !reopen {
        return TailResult(Stopped, sessions, current);
      }
      i := i + 1;
    }
    return TailResult(Running, sessions, current);
  }

  /** With reopening off, the loop runs at most one session, and stopping means exactly one. */
  lemma OneSessionWithoutReopen(port: string, inactivity: int, attempts: seq<Attempt>)
    ensures TailRun(port, inactivity, false, attempts).sessions <= 1
    ensures TailRun(port, inactivity, false, attempts).outcome == Stopped ==> TailRun(port, inactivity, false, attempts).sessions == 1
  {
  }

  /** The loop stops of its own accord only when reopening is off. */
  lemma {:induction false} StopsOnlyWithoutReopen(port: string, inactivity: int, attempts: seq<Attempt>)
    ensures TailRun(port, inactivity, true, attempts).outcome != Stopped
    decreases |attempts|
  {
    if attempts != [] {
      var a := attempts[0];
      var p := if a.portPresent && port != "" then port else a.rediscovered;
      StopsOnlyWithoutReopen(p, inactivity, attempts[1..]);
    }
  }
}
