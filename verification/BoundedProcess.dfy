/** Bounded subprocess execution on Unix: one loop over two captures, incremental input, reaping and a grace timer. */
module BoundedProcess {
  import opened Wrappers
  import opened Utf8

  const WORD: int := 0x1_0000_0000_0000_0000

  newtype usize = x: int | 0 <= x < WORD

  const MAX_USIZE: usize := 0xFFFF_FFFF_FFFF_FFFF

  const PIPE_CLOSE_GRACE: nat := 250
  const POST_CANCEL_TIMEOUT: nat := 2000
  const POLL_INTERVAL: nat := 10
  const MAX_INPUT_BYTES: nat := 4 * 1024 * 1024
  const BUFFER: usize := 8192

  datatype Stream = Stdout | Stderr

  datatype Failure =
    | InvalidLimit(stream: Stream)
    | InputTooLong
    | NotSpawned
    | SetupFailed
    | ReadFailed(stream: Stream)
    | WriteZero
    | WriteFailed
    | Exceeded(stream: Stream)
    | PollFailed
    | PipesRetained
    | NotReaped
    | StillAlive

  datatype Error = Primary(failure: Failure) | WithCleanup(failure: Failure, cleanup: Failure)

  datatype Limits = Limits(stdout: usize, stderr: usize)

  datatype Output = Output(status: int, stdout: seq<byte>, stderr: seq<byte>)

  /** `Running` is the loop after the given number of passes, still waiting. */
  datatype Outcome = Running | Done(result: Result<Output, Error>)

  function CheckedIncrement(x: usize): (r: Option<usize>)
    ensures r.Some? <==> x < MAX_USIZE
    ensures r.Some? ==> r.value as int == x as int + 1
  {
    if x < MAX_USIZE then Some(x + 1) else None
  }

  /** Accepts exactly the limits whose sentinels fit in a word and inputs of bounded length. */
  function ValidateLimits(limits: Limits, input: Option<seq<byte>>): (r: Result<(), Failure>)
    ensures r.Ok? <==> && limits.stdout as int + 1 < WORD && limits.stderr as int + 1 < WORD
                       && (input.Some? ==> |input.value| <= MAX_INPUT_BYTES)
  {
    if CheckedIncrement(limits.stdout).None? then Err(InvalidLimit(Stdout))
    else if CheckedIncrement(limits.stderr).None? then Err(InvalidLimit(Stderr))
    else if input.Some? && |input.value| > MAX_INPUT_BYTES then Err(InputTooLong)
    else Ok(())
  }

  // The operating system, as oracles.

  datatype ReadChoice = Give(most: nat) | HoldBack | BreakRead

  datatype ReadResult = Data(bytes: seq<byte>) | ReadBlocks | ReadFails

  /** The read end of a pipe. `content` is all that its writers will ever have written. */
  class Pipe {
    const content: seq<byte>
    const choices: nat -> ReadChoice
    var taken: nat
    var calls: nat
    var emptyReads: nat
    var blocked: bool
    var ended: bool

    constructor (content: seq<byte>, choices: nat -> ReadChoice)
      ensures this.content == content && this.choices == choices
      ensures Unread()
    {
      this.content, this.choices := content, choices;
      taken, calls, emptyReads, blocked, ended := 0, 0, 0, false, false;
    }

    predicate Unread()
      reads this
    {
      taken == 0 && calls == 0 && emptyReads == 0 && !ended
    }

    /** The last read failed. */
    predicate Broken()
      reads this
    {
      calls > 0 && choices(calls - 1).BreakRead?
    }

    /** A writer still holds the pipe open and has nothing to give. */
    predicate Retained()
      reads this
    {
      blocked && !ended
    }

    /** Gives at most `wanted` bytes; none at the end of the stream, and none when none are wanted. */
    method Read(wanted: usize) returns (r: ReadResult)
      requires taken <= |content|
      modifies this
      ensures emptyReads == old(emptyReads) + if wanted == 0 then 1 else 0
      ensures blocked == r.ReadBlocks? && Broken() == r.ReadFails?
      ensures ended == (old(ended) || (r == Data([]) && wanted > 0))
      ensures r.Data? ==>
        && |r.bytes| <= wanted as int && taken == old(taken) + |r.bytes| <= |content|
        && content[old(taken)..taken] == r.bytes
        && (r.bytes == [] ==> wanted == 0 || taken == |content|)
      ensures !r.Data? ==> taken == old(taken)
    {
      var choice := choices(calls);
      calls := calls + 1;
      emptyReads := emptyReads + if wanted == 0 then 1 else 0;
      blocked := choice.HoldBack?;
      match choice
      case HoldBack => r := ReadBlocks;
      case BreakRead => r := ReadFails;
      case Give(most) =>
        var n := if most == 0 then 1 else most;
        n := if n > wanted as int then wanted as int else n;
        n := if n > |content| - taken then |content| - taken else n;
        r := Data(content[taken..taken + n]);
        ended := ended || (n == 0 && wanted > 0);
        taken := taken + n;
    }
  }

  datatype WriteChoice = Accept(most: nat) | Delay | Hangup | BreakWrite

  datatype WriteResult = Wrote(count: usize) | WriteBlocks | BrokenPipe | WriteFails

  /** The write end of the child's standard input. */
  class Stdin {
    const choices: nat -> WriteChoice
    var received: seq<byte>
    var writes: nat
    var hungUp: bool
    var blocked: bool

    constructor (choices: nat -> WriteChoice)
      ensures this.choices == choices && received == [] && writes == 0
    {
      this.choices := choices;
      received, writes, hungUp, blocked := [], 0, false, false;
    }

    /** The last write took nothing. */
    predicate TookNothing()
      reads this
    {
      writes > 0 && choices(writes - 1) == Accept(0)
    }

    /** The last write failed. */
    predicate Refused()
      reads this
    {
      writes > 0 && choices(writes - 1).BreakWrite?
    }

    method Write(data: seq<byte>) returns (r: WriteResult)
      requires 0 < |data| < WORD
      modifies this
      ensures r.Wrote? ==> r.count as int <= |data| && received == old(received) + data[..r.count]
      ensures !r.Wrote? ==> received == old(received)
      ensures blocked == r.WriteBlocks? && Refused() == r.WriteFails? && TookNothing() == (r == Wrote(0))
      ensures hungUp == (old(hungUp) || r.BrokenPipe?)
    {
      var choice := choices(writes);
      writes := writes + 1;
      blocked := choice.Delay?;
      match choice
      case Delay => r := WriteBlocks;
      case Hangup =>
        hungUp := true;
        r := BrokenPipe;
      case BreakWrite => r := WriteFails;
      case Accept(most) =>
        var n := if most > |data| then |data| else most;
        received := received + data[..n];
        r := Wrote(n as usize);
    }
  }

  class Clock {
    const drift: nat -> nat
    var now: nat
    var calls: nat

    constructor (drift: nat -> nat)
      ensures this.drift == drift
    {
      this.drift := drift;
      now, calls := 0, 0;
    }

    method Now() returns (t: nat)
      modifies this
      ensures old(now) <= now == t
    {
      now, calls := now + drift(calls), calls + 1;
      t := now;
    }

    method Sleep(milliseconds: nat)
      modifies this
      ensures old(now) + milliseconds <= now
    {
      now, calls := now + milliseconds + drift(calls), calls + 1;
    }
  }

  datatype WaitChoice = Alive | Exits(status: int) | BreakWait

  /** The direct child and its process group. A reaped status is kept. */
  class Process {
    const stdout: Pipe
    const stderr: Pipe
    const stdin: Stdin
    const spawns: bool
    const nonblocking: bool
    const waits: nat -> WaitChoice
    var polls: nat
    var reaped: Option<int>
    var reapedAt: nat
    var groupKilled: bool
    var killed: bool

    ghost predicate Ready()
      reads this, stdout, stderr, stdin
    {
      && stdout != stderr
      && stdout.Unread() && stderr.Unread()
      && stdin.received == [] && stdin.writes == 0
      && polls == 0 && reaped.None? && !groupKilled && !killed
    }

    constructor (stdout: Pipe, stderr: Pipe, stdin: Stdin, spawns: bool, nonblocking: bool, waits: nat -> WaitChoice)
      requires stdout != stderr && stdout.Unread() && stderr.Unread()
      requires stdin.received == [] && stdin.writes == 0
      ensures Ready()
      ensures this.stdout == stdout && this.stderr == stderr && this.stdin == stdin
      ensures this.spawns == spawns && this.nonblocking == nonblocking && this.waits == waits
    {
      this.stdout, this.stderr, this.stdin := stdout, stderr, stdin;
      this.spawns, this.nonblocking, this.waits := spawns, nonblocking, waits;
      polls, reaped, reapedAt, groupKilled, killed := 0, None, 0, false, false;
    }

    method TryWait(clock: Clock) returns (r: Result<Option<int>, Failure>)
      modifies this`polls, this`reaped, this`reapedAt
      ensures old(reaped).Some? ==>
        r == Ok(old(reaped)) && reaped == old(reaped) && reapedAt == old(reapedAt) && polls == old(polls)
      ensures old(reaped).None? && reaped.Some? ==> reapedAt == clock.now
      ensures old(reaped).None? ==>
        && polls == old(polls) + 1
        && match waits(old(polls))
           case Alive => r == Ok(None) && reaped.None?
           case Exits(status) => r == Ok(Some(status)) && reaped == Some(status)
           case BreakWait => r == Err(PollFailed) && reaped.None?
    {
      if reaped.Some? {
        return Ok(reaped);
      }
      var choice := waits(polls);
      polls := polls + 1;
      match choice
      case Alive => r := Ok(None);
      case BreakWait => r := Err(PollFailed);
      case Exits(status) =>
        reaped, reapedAt := Some(status), clock.now;
        r := Ok(reaped);
    }

    method KillGroup()
      modifies this`groupKilled
      ensures groupKilled
    {
      groupKilled := true;
    }

    method Kill()
      modifies this`killed
      ensures killed
    {
      killed := true;
    }

    /** The group is killed whatever happens, and the child again unless it is known to have exited. */
    method TerminateTree(clock: Clock)
      modifies this
      ensures groupKilled && (killed || reaped.Some?)
      ensures old(reaped).Some? ==> reaped == old(reaped) && reapedAt == old(reapedAt)
      ensures old(polls) <= polls
    {
      KillGroup();
      var waited := TryWait(clock);
      if waited.Err? || waited.value.None? {
        Kill();
      }
    }

    method ReapUntil(clock: Clock, deadline: nat) returns (r: Result<int, Failure>)
      modifies this`polls, this`reaped, this`reapedAt, clock
      ensures r.Ok? ==> reaped == Some(r.value)
      ensures r == Err(StillAlive) ==> clock.now >= deadline && reaped.None?
      ensures r.Err? ==> reaped.None?
      ensures old(polls) <= polls && old(clock.now) <= clock.now
    {
      while true
        invariant old(polls) <= polls && old(clock.now) <= clock.now
        decreases deadline - clock.now
      {
        var waited := TryWait(clock);
        if waited.Err? {
          return Err(waited.error);
        }
        if waited.value.Some? {
          return Ok(waited.value.value);
        }
        var now := clock.Now();
        if now >= deadline {
          return Err(StillAlive);
        }
        clock.Sleep(POLL_INTERVAL);
      }
    }
  }

  // Captures.

  class Capture {
    ghost const pipe: Pipe
    const stream: Stream
    const limit: usize
    var reader: Option<Pipe>
    var bytes: seq<byte>

    /** The buffer is what was read so far, at most one byte over the limit, and all of it once closed. */
    ghost predicate Valid()
      reads this, pipe
    {
      && limit < MAX_USIZE
      && |bytes| <= limit as int + 1
      && (reader.Some? ==> reader.value == pipe)
      && pipe.taken <= |pipe.content|
      && bytes == pipe.content[..pipe.taken]
      && (reader.None? <==> pipe.ended)
      && (reader.None? ==> bytes == pipe.content)
    }

    /** How much this capture can still do: bytes to take, and a handle to close. */
    ghost function Work(): nat
      requires Valid()
      reads this, pipe
    {
      limit as int + 1 - |bytes| + if reader.Some? then 1 else 0
    }

    constructor (reader: Pipe, stream: Stream, limit: usize)
      requires limit < MAX_USIZE && reader.Unread()
      ensures Valid() && pipe == reader && this.stream == stream && this.limit == limit
      ensures bytes == [] && this.reader == Some(reader)
    {
      this.pipe, this.stream, this.limit := reader, stream, limit;
      this.reader, bytes := Some(reader), [];
    }

    predicate Complete()
      reads this
    {
      reader.None?
    }

    predicate HasExceeded()
      reads this
    {
      |bytes| > limit as int
    }

    /** Nothing more can be read at the moment. */
    predicate Starved()
      reads this, if reader.Some? then {reader.value} else {}
    {
      reader.None? || reader.value.blocked
    }

    lemma ExceededIsTaken()
      requires Valid()
      ensures HasExceeded() <==> pipe.taken > limit as int
      ensures pipe.taken <= |pipe.content|
    {
    }

    lemma OpenIsRetained()
      requires Valid() && !Complete() && Starved()
      ensures pipe.Retained()
    {
    }

    /** Reads until the pipe blocks, ends or fails, or the sentinel byte is taken. */
    method Drain() returns (r: Result<bool, Failure>)
      requires Valid() && !pipe.Broken()
      modifies this, pipe
      ensures Valid() && old(bytes) <= bytes
      ensures pipe.emptyReads == old(pipe.emptyReads)
      ensures r == Ok(true) ==> Work() < old(Work())
      ensures r == Ok(false) ==> bytes == old(bytes) && reader == old(reader)
      ensures r.Ok? ==> HasExceeded() || Starved()
      ensures Work() <= old(Work())
      ensures r.Err? <==> pipe.Broken()
      ensures r.Err? ==> r.error == ReadFailed(stream) && !pipe.ended
    {
      if reader.None? {
        return Ok(false);
      }
      var sentinel := limit + 1;
      if |bytes| >= sentinel as int {
        return Ok(false);
      }
      var progressed := false;
      while true
        invariant Valid() && reader == old(reader) && old(bytes) <= bytes
        invariant |bytes| < sentinel as int && !pipe.Broken()
        invariant pipe.emptyReads == old(pipe.emptyReads)
        invariant if progressed then |old(bytes)| < |bytes| else bytes == old(bytes)
        decreases sentinel as int - |bytes|
      {
        var remaining := sentinel - |bytes| as usize;
        var wanted := if remaining < BUFFER then remaining else BUFFER;
        var read := reader.value.Read(wanted);
        match read
        case Data(data) =>
          if data == [] {
            reader := None;
            return Ok(true);
          }
          bytes := bytes + data;
          progressed := true;
          if |bytes| >= sentinel as int {
            return Ok(true);
          }
        case ReadBlocks => return Ok(progressed);
        case ReadFails => return Err(ReadFailed(stream));
      }
    }
  }

  /** `Capture::new`: refuses only a limit whose sentinel does not fit. */
  method NewCapture(reader: Pipe, stream: Stream, limit: usize) returns (r: Result<Capture, Failure>)
    requires reader.Unread()
    ensures r.Ok? <==> limit < MAX_USIZE
    ensures r.Err? ==> r.error == InvalidLimit(stream)
    ensures r.Ok? ==> && fresh(r.value) && r.value.Valid() && r.value.pipe == reader && r.value.stream == stream
                      && r.value.limit == limit && r.value.bytes == [] && r.value.reader == Some(reader)
  {
    var sentinel := CheckedIncrement(limit);
    if sentinel.None? {
      return Err(InvalidLimit(stream));
    }
    var capture := new Capture(reader, stream, limit);
    return Ok(capture);
  }

  /** The input still to write: the child has received exactly the part before `offset`. */
  class Feed {
    ghost const stdin: Stdin
    const input: seq<byte>
    var writer: Option<Stdin>
    var offset: usize

    ghost predicate Valid()
      reads this, stdin
    {
      && |input| < WORD
      && offset as int <= |input|
      && (writer.Some? ==> writer.value == stdin)
      && stdin.received == input[..offset]
    }

    ghost function Work(): nat
      requires Valid()
      reads this, stdin
    {
      |input| - offset as int + if writer.Some? then 1 else 0
    }

    constructor (stdin: Stdin, input: seq<byte>, open: bool)
      requires |input| < WORD && stdin.received == []
      ensures Valid() && this.stdin == stdin && this.input == input && offset == 0
    {
      this.stdin, this.input := stdin, input;
      writer := if open then Some(stdin) else None;
      offset := 0;
    }

    predicate Starved()
      reads this, if writer.Some? then {writer.value} else {}
    {
      writer.None? || writer.value.blocked
    }

    method WriteInput() returns (r: Result<bool, Failure>)
      requires Valid() && !stdin.TookNothing() && !stdin.Refused()
      modifies this, stdin
      ensures Valid()
      ensures r == Ok(true) ==> Work() < old(Work())
      ensures r == Ok(false) ==> offset == old(offset) && writer == old(writer)
      ensures r.Ok? ==> Starved()
      ensures r.Ok? && writer.None? && old(writer).Some? ==> offset as int == |input| || stdin.hungUp
      ensures Work() <= old(Work())
      ensures r == Err(WriteZero) <==> stdin.TookNothing()
      ensures r == Err(WriteFailed) <==> stdin.Refused()
      ensures r.Err? ==> r.error == WriteZero || r.error == WriteFailed
    {
      if writer.None? {
        return Ok(false);
      }
      var progressed := false;
      while offset as int < |input|
        invariant Valid() && writer == old(writer) && old(offset) <= offset
        invariant progressed <==> old(offset) < offset
        invariant !stdin.TookNothing() && !stdin.Refused()
        decreases |input| - offset as int
      {
        var written := writer.value.Write(input[offset..]);
        match written
        case Wrote(count) =>
          if count == 0 {
            return Err(WriteZero);
          }
          assert input[..offset] + input[offset..][..count] == input[..offset + count];
          offset := offset + count;
          progressed := true;
        case WriteBlocks => return Ok(progressed);
        case BrokenPipe =>
          writer := None;
          return Ok(true);
        case WriteFails => return Err(WriteFailed);
      }
      writer := None;
      return Ok(true);
    }
  }

  // The event loop.

  ghost predicate Distinct(stdout: Capture, stderr: Capture)
  {
    stdout != stderr && stdout.pipe != stderr.pipe && stdout.stream == Stdout && stderr.stream == Stderr
  }

  ghost function Work(stdout: Capture, stderr: Capture, feed: Feed): nat
    requires stdout.Valid() && stderr.Valid() && feed.Valid()
    reads stdout, stdout.pipe, stderr, stderr.pipe, feed, feed.stdin
  {
    stdout.Work() + stderr.Work() + feed.Work()
  }

  ghost predicate Sound(stdout: Pipe, stderr: Pipe, stdin: Stdin)
    reads stdout, stderr, stdin
  {
    !stdout.Broken() && !stderr.Broken() && !stdin.TookNothing() && !stdin.Refused()
  }

  /** The failed or excessive transfer that `failure` names did happen, and was the last on its handle. */
  ghost predicate TransferReported(failure: Failure, stdout: Pipe, stderr: Pipe, stdin: Stdin, limits: Limits)
    reads stdout, stderr, stdin
  {
    match failure
    case ReadFailed(Stdout) => stdout.Broken() && !stdout.ended
    case ReadFailed(Stderr) => stderr.Broken() && !stderr.ended
    case Exceeded(Stdout) => limits.stdout as int < stdout.taken <= |stdout.content|
    case Exceeded(Stderr) => limits.stderr as int < stderr.taken <= |stderr.content|
    case WriteZero => stdin.TookNothing()
    case WriteFailed => stdin.Refused()
    case _ => false
  }

  predicate LoopFailure(failure: Failure) {
    !failure.NotSpawned? && !failure.InvalidLimit? && !failure.SetupFailed?
  }

  /** Both captures, the second one only if the first did not fail. */
  method DrainBoth(stdout: Capture, stderr: Capture) returns (r: Result<bool, Failure>)
    requires stdout.Valid() && stderr.Valid() && Distinct(stdout, stderr)
    requires !stdout.pipe.Broken() && !stderr.pipe.Broken()
    modifies stdout, stdout.pipe, stderr, stderr.pipe
    ensures stdout.Valid() && stderr.Valid()
    ensures stdout.Work() + stderr.Work() <= old(stdout.Work() + stderr.Work())
    ensures r == Ok(true) ==> stdout.Work() + stderr.Work() < old(stdout.Work() + stderr.Work())
    ensures stdout.pipe.emptyReads == old(stdout.pipe.emptyReads)
      && stderr.pipe.emptyReads == old(stderr.pipe.emptyReads)
    ensures r.Ok? ==> !stdout.pipe.Broken() && !stderr.pipe.Broken()
    ensures r.Ok? ==> (stdout.HasExceeded() || stdout.Starved()) && (stderr.HasExceeded() || stderr.Starved())
    ensures r.Err? ==>
      || (r.error == ReadFailed(Stdout) && stdout.pipe.Broken() && !stdout.pipe.ended)
      || (r.error == ReadFailed(Stderr) && stderr.pipe.Broken() && !stderr.pipe.ended)
  {
    hide Capture.Valid, Capture.Work, Capture.HasExceeded, Capture.Starved, Pipe.Broken;
    var first :- stdout.Drain();
    var second :- stderr.Drain();
    return Ok(first || second);
  }

  /** The first half of a pass: both captures, then the input, then the limits; a failure skips what follows. */
  method Pump(stdout: Capture, stderr: Capture, feed: Feed) returns (progressed: bool, failure: Option<Failure>)
    requires stdout.Valid() && stderr.Valid() && feed.Valid() && Distinct(stdout, stderr)
    requires Sound(stdout.pipe, stderr.pipe, feed.stdin)
    modifies stdout, stdout.pipe, stderr, stderr.pipe, feed, feed.stdin
    ensures stdout.Valid() && stderr.Valid() && feed.Valid()
    ensures Work(stdout, stderr, feed) <= old(Work(stdout, stderr, feed))
    ensures failure.None? && progressed ==> Work(stdout, stderr, feed) < old(Work(stdout, stderr, feed))
    ensures stdout.pipe.emptyReads == old(stdout.pipe.emptyReads)
      && stderr.pipe.emptyReads == old(stderr.pipe.emptyReads)
    ensures failure.None? ==> !stdout.HasExceeded() && !stderr.HasExceeded()
    ensures failure.None? ==> stdout.Starved() && stderr.Starved() && feed.Starved()
    ensures failure.None? ==> Sound(stdout.pipe, stderr.pipe, feed.stdin)
    ensures failure.Some? ==>
      && TransferReported(failure.value, stdout.pipe, stderr.pipe, feed.stdin, Limits(stdout.limit, stderr.limit))
      && LoopFailure(failure.value)
  {
    hide Capture.Valid, Capture.Work, Feed.Valid, Feed.Work, Capture.HasExceeded, Capture.Starved, Feed.Starved,
         Pipe.Broken, Stdin.TookNothing, Stdin.Refused;
    progressed, failure := false, None;
    var drained := DrainBoth(stdout, stderr);
    if drained.Err? {
      failure := Some(drained.error);
      return;
    }
    progressed := drained.value;
    var written := feed.WriteInput();
    if written.Err? {
      failure := Some(written.error);
      return;
    }
    progressed := progressed || written.value;
    stdout.ExceededIsTaken();
    stderr.ExceededIsTaken();
    if stdout.HasExceeded() {
      failure := Some(Exceeded(stdout.stream));
    } else if stderr.HasExceeded() {
      failure := Some(Exceeded(stderr.stream));
    }
  }

  /** Sleeps left before the grace period ends, for a child reaped `elapsed` milliseconds ago. */
  function GraceTicks(elapsed: nat): nat {
    if elapsed >= PIPE_CLOSE_GRACE then 0 else (PIPE_CLOSE_GRACE + POLL_INTERVAL - 1 - elapsed) / POLL_INTERVAL
  }

  lemma TickSpent(elapsed: nat, later: nat)
    requires elapsed < PIPE_CLOSE_GRACE && elapsed + POLL_INTERVAL <= later
    ensures GraceTicks(later) < GraceTicks(elapsed)
  {
  }

  lemma TicksFall(elapsed: nat, later: nat)
    requires elapsed <= later
    ensures GraceTicks(later) <= GraceTicks(elapsed)
  {
  }

  /** More passes than this cannot follow the one that reaps the child. */
  function PassBound(limits: Limits, input: seq<byte>): nat {
    limits.stdout as int + limits.stderr as int + 2 + |input| + 3 + GraceTicks(0)
  }

  function InputOf(input: Option<seq<byte>>): seq<byte> {
    if input.Some? then input.value else []
  }

  ghost predicate StillAlive(p: Process, n: int) {
    forall k :: 0 <= k < n ==> p.waits(k) == Alive
  }

  function CleanupError(primary: Failure, cleanup: Result<int, Failure>): Error {
    match cleanup
    case Ok(_) => Primary(primary)
    case Err(failure) => WithCleanup(primary, failure)
  }

  /** Kills the group, then reaps the child unless it already was. */
  method FailWith(p: Process, clock: Clock, failure: Failure, status: Option<int>) returns (error: Error)
    requires status == p.reaped
    modifies p, clock
    ensures p.groupKilled && error.failure == failure
    ensures error.Primary? ==> p.reaped.Some?
    ensures old(p.reaped).Some? ==> p.reaped == old(p.reaped) && p.reapedAt == old(p.reapedAt)
    ensures old(p.polls) <= p.polls && old(clock.now) <= clock.now
  {
    p.TerminateTree(clock);
    var cleanup: Result<int, Failure>;
    if status.Some? {
      cleanup := Ok(status.value);
    } else {
      var now := clock.Now();
      cleanup := p.ReapUntil(clock, now + POST_CANCEL_TIMEOUT);
    }
    return CleanupError(failure, cleanup);
  }

  datatype Step = Continue | Finish | Fail(failure: Failure)

  function Ticks(directExit: Option<nat>, now: nat): nat {
    if directExit.Some? && directExit.value <= now then GraceTicks(now - directExit.value) else GraceTicks(0)
  }

  /** The second half of a pass: poll the child once, then finish, give up after the grace period, or wait. */
  method Watch(p: Process, clock: Clock, complete: bool, pumped: bool, status: Option<int>, directExit: Option<nat>)
    returns (step: Step, status': Option<int>, directExit': Option<nat>)
    requires status == p.reaped && (directExit.Some? <==> status.Some?)
    requires directExit.Some? ==> p.reapedAt <= directExit.value <= clock.now
    modifies p`polls, p`reaped, p`reapedAt, clock
    ensures status' == p.reaped && (step != Fail(PollFailed) ==> (directExit'.Some? <==> status'.Some?))
    ensures directExit'.Some? ==> p.reapedAt <= directExit'.value <= clock.now
    ensures status.Some? ==> status' == status && directExit' == directExit && p.polls == old(p.polls)
    ensures status.None? ==> p.polls == old(p.polls) + 1
    ensures status'.None? && step.Continue? ==> p.waits(old(p.polls)) == Alive
    ensures status.None? && status'.Some? ==> p.waits(old(p.polls)).Exits?
    ensures step == Fail(PollFailed) ==> status.None? && p.waits(old(p.polls)).BreakWait?
    ensures step.Finish? ==> status'.Some? && complete
    ensures step.Fail? ==> step.failure == PollFailed || (step.failure == PipesRetained && status'.Some? && !complete)
    ensures step == Fail(PipesRetained) ==> p.reapedAt + PIPE_CLOSE_GRACE <= clock.now
    ensures step.Continue? ==> Ticks(directExit', clock.now) <= Ticks(directExit, old(clock.now))
    ensures step.Continue? && status.Some? && !pumped ==>
      Ticks(directExit', clock.now) < Ticks(directExit, old(clock.now))
  {
    hide GraceTicks;
    var progressed := pumped;
    status', directExit' := status, directExit;
    if status.None? {
      var waited := p.TryWait(clock);
      match waited {
        case Err(error) => return Fail(error), status', directExit';
        case Ok(reaped) =>
          if reaped.Some? {
            status' := reaped;
            var now := clock.Now();
            directExit' := Some(now);
            progressed := true;
          }
      }
    }
    if status'.Some? && complete {
      return Finish, status', directExit';
    }
    if directExit'.Some? {
      var now := clock.Now();
      TicksFall(if status.Some? then old(clock.now) - directExit'.value else 0, now - directExit'.value);
      if now - directExit'.value >= PIPE_CLOSE_GRACE {
        return Fail(PipesRetained), status', directExit';
      }
    }
    if !progressed {
      ghost var before := clock.now;
      clock.Sleep(POLL_INTERVAL);
      if directExit'.Some? {
        TickSpent(before - directExit'.value, clock.now - directExit'.value);
      }
    }
    return Continue, status', directExit';
  }

  lemma OneRetained(stdout: Capture, stderr: Capture)
    requires stdout.Valid() && stderr.Valid() && stdout.Starved() && stderr.Starved()
    requires !(stdout.Complete() && stderr.Complete())
    ensures stdout.pipe.Retained() || stderr.pipe.Retained()
  {
    if !stdout.Complete() {
      stdout.OpenIsRetained();
    } else {
      stderr.OpenIsRetained();
    }
  }

  lemma InitialWork(stdout: Capture, stderr: Capture, feed: Feed)
    requires stdout.Valid() && stderr.Valid() && feed.Valid()
    ensures Work(stdout, stderr, feed) + Ticks(None, 0) <= PassBound(Limits(stdout.limit, stderr.limit), feed.input)
  {
  }

  ghost predicate BadPoll(p: Process)
    reads p
  {
    exists k :: 0 <= k < p.polls && p.waits(k).BreakWait?
  }

  /** What `failure` reports did happen. */
  ghost predicate Reported(failure: Failure, p: Process, clock: Clock, limits: Limits)
    reads p, clock, p.stdout, p.stderr, p.stdin
  {
    || TransferReported(failure, p.stdout, p.stderr, p.stdin, limits)
    || (failure.PollFailed? && BadPoll(p))
    || (failure.PipesRetained? && p.reaped.Some? && p.reapedAt + PIPE_CLOSE_GRACE <= clock.now
        && (p.stdout.Retained() || p.stderr.Retained()))
    || (failure.NotSpawned? && !p.spawns)
    || (failure.SetupFailed? && !p.nonblocking)
    || (failure == InvalidLimit(Stdout) && limits.stdout == MAX_USIZE)
    || (failure == InvalidLimit(Stderr) && limits.stderr == MAX_USIZE)
  }

  /** All polls but the last found the child alive, and the last one reaped it. */
  ghost predicate PolledToExit(p: Process)
    reads p
  {
    p.polls > 0 && StillAlive(p, p.polls - 1) && p.waits(p.polls - 1).Exits?
  }

  lemma PollsToExitAreGood(p: Process)
    requires PolledToExit(p)
    ensures !BadPoll(p)
  {
  }

  method EventLoop(p: Process, clock: Clock, stdout: Capture, stderr: Capture, feed: Feed, passes: nat)
    returns (running: bool, status: Option<int>, failure: Option<Failure>)
    requires stdout.Valid() && stderr.Valid() && feed.Valid() && Distinct(stdout, stderr)
    requires stdout.pipe == p.stdout && stderr.pipe == p.stderr && feed.stdin == p.stdin
    requires stdout.bytes == [] && stderr.bytes == [] && feed.offset == 0 && p.polls == 0 && p.reaped.None?
    requires Sound(p.stdout, p.stderr, p.stdin)
    modifies p`polls, p`reaped, p`reapedAt, clock, stdout, stdout.pipe, stderr, stderr.pipe, feed, feed.stdin
    ensures stdout.Valid() && stderr.Valid() && feed.Valid() && status == p.reaped
    ensures p.stdout.emptyReads == old(p.stdout.emptyReads) && p.stderr.emptyReads == old(p.stderr.emptyReads)
    ensures !running && failure.None? ==>
      status.Some? && stdout.Complete() && stderr.Complete() && !stdout.HasExceeded() && !stderr.HasExceeded()
    ensures !running && failure.None? ==> PolledToExit(p) && Sound(p.stdout, p.stderr, p.stdin)
    ensures !running && failure.Some? ==>
      Reported(failure.value, p, clock, Limits(stdout.limit, stderr.limit)) && LoopFailure(failure.value)
    ensures running ==> StillAlive(p, passes - PassBound(Limits(stdout.limit, stderr.limit), feed.input) - 1)
  {
    hide Capture.Valid, Capture.Work, Feed.Valid, Feed.Work, GraceTicks, PassBound, Work;
    hide Capture.Starved, Capture.HasExceeded, Capture.Complete, Feed.Starved, TransferReported, Pipe.Retained, Sound;
    ghost var bound := PassBound(Limits(stdout.limit, stderr.limit), feed.input);
    InitialWork(stdout, stderr, feed);
    status, failure := None, None;
    var directExit: Option<nat> := None;
    for n := 0 to passes
      invariant stdout.Valid() && stderr.Valid() && feed.Valid() && failure.None?
      invariant status == p.reaped && (directExit.Some? <==> status.Some?)
      invariant directExit.Some? ==> p.reapedAt <= directExit.value <= clock.now
      invariant p.stdout.emptyReads == old(p.stdout.emptyReads) && p.stderr.emptyReads == old(p.stderr.emptyReads)
      invariant Work(stdout, stderr, feed) + Ticks(None, 0) <= bound
      invariant status.None? ==> p.polls == n && StillAlive(p, n)
      invariant Sound(p.stdout, p.stderr, p.stdin)
      invariant status.Some? ==>
        && PolledToExit(p)
        && n - p.polls + Work(stdout, stderr, feed) + Ticks(directExit, clock.now) <= bound
    {
      var progressed: bool;
      progressed, failure := Pump(stdout, stderr, feed);
      if failure.Some? {
        return false, status, failure;
      }
      var step;
      step, status, directExit :=
        Watch(p, clock, stdout.Complete() && stderr.Complete(), progressed, status, directExit);
      match step
      case Finish => return false, status, None;
      case Fail(error) =>
        if error.PipesRetained? {
          OneRetained(stdout, stderr);
        }
        return false, status, Some(error);
      case Continue =>
    }
    return true, status, None;
  }

  /** The child was reaped, both streams were captured whole within their limits, and the group was killed. */
  ghost predicate Captured(p: Process, limits: Limits, output: Output)
    reads p
  {
    && p.reaped == Some(output.status) && p.groupKilled
    && output.stdout == p.stdout.content && |output.stdout| <= limits.stdout as int
    && output.stderr == p.stderr.content && |output.stderr| <= limits.stderr as int
  }

  /** Nothing went wrong: both streams ended within their limits, and no call to the system failed. */
  ghost predicate Clean(p: Process, limits: Limits)
    reads p, p.stdout, p.stderr, p.stdin
  {
    && p.spawns && p.nonblocking
    && p.stdout.ended && p.stdout.taken <= limits.stdout as int
    && p.stderr.ended && p.stderr.taken <= limits.stderr as int
    && !p.stdin.TookNothing() && !p.stdin.Refused()
    && p.reaped.Some? && !BadPoll(p)
  }

  lemma ReportedIsNotClean(failure: Failure, p: Process, clock: Clock, limits: Limits)
    requires Reported(failure, p, clock, limits) && !failure.InvalidLimit?
    ensures !Clean(p, limits)
  {
  }

  /** What holds of the pipes however far a run gets. */
  ghost predicate WithinBounds(p: Process, limits: Limits, input: seq<byte>)
    reads p, p.stdout, p.stderr, p.stdin
  {
    && p.stdout.taken <= limits.stdout as int + 1 && p.stderr.taken <= limits.stderr as int + 1
    && p.stdout.emptyReads == 0 && p.stderr.emptyReads == 0
    && p.stdin.received <= input
  }

  lemma CapturesWithinBounds(p: Process, stdout: Capture, stderr: Capture, feed: Feed)
    requires stdout.Valid() && stderr.Valid() && feed.Valid()
    requires stdout.pipe == p.stdout && stderr.pipe == p.stderr && feed.stdin == p.stdin
    requires p.stdout.emptyReads == 0 && p.stderr.emptyReads == 0
    ensures WithinBounds(p, Limits(stdout.limit, stderr.limit), feed.input)
    ensures stdout.Complete() ==> stdout.bytes == p.stdout.content && p.stdout.ended
    ensures stderr.Complete() ==> stderr.bytes == p.stderr.content && p.stderr.ended
    ensures !stdout.HasExceeded() ==> p.stdout.taken <= stdout.limit as int
    ensures !stderr.HasExceeded() ==> p.stderr.taken <= stderr.limit as int
  {
  }

  method OutputInner(p: Process, clock: Clock, limits: Limits, input: Option<seq<byte>>, passes: nat)
    returns (r: Outcome)
    requires p.Ready() && |InputOf(input)| < WORD
    modifies p, clock, p.stdout, p.stderr, p.stdin
    ensures WithinBounds(p, limits, InputOf(input))
    ensures r.Done? && r.result.Ok? ==> Captured(p, limits, r.result.value)
    ensures r.Done? && r.result.Ok? ==> Clean(p, limits)
    ensures r.Done? && r.result.Err? ==> Reported(r.result.error.failure, p, clock, limits)
    ensures r.Done? && r.result.Err? && !r.result.error.failure.NotSpawned? && !r.result.error.failure.InvalidLimit? ==>
      p.groupKilled && (r.result.error.Primary? ==> p.reaped.Some?)
    ensures r.Done? && r.result.Err? && r.result.error.failure.InvalidLimit? ==> ValidateLimits(limits, input).Err?
    ensures r.Running? ==> StillAlive(p, passes - PassBound(limits, InputOf(input)) - 1)
  {
    hide Capture.Valid, Feed.Valid, PassBound, StillAlive, TransferReported, PolledToExit, Pipe.Retained;
    if !p.spawns {
      return Done(Err(Primary(NotSpawned)));
    }
    if !p.nonblocking {
      var error := FailWith(p, clock, SetupFailed, None);
      return Done(Err(error));
    }
    var stdout := NewCapture(p.stdout, Stdout, limits.stdout);
    if stdout.Err? {
      return Done(Err(Primary(stdout.error)));
    }
    var stderr := NewCapture(p.stderr, Stderr, limits.stderr);
    if stderr.Err? {
      return Done(Err(Primary(stderr.error)));
    }
    var bytes := InputOf(input);
    var feed := new Feed(p.stdin, bytes, bytes != []);
    var running, status, failure := EventLoop(p, clock, stdout.value, stderr.value, feed, passes);
    CapturesWithinBounds(p, stdout.value, stderr.value, feed);
    if running {
      return Running;
    }
    if failure.Some? {
      var error := FailWith(p, clock, failure.value, status);
      return Done(Err(error));
    }
    PollsToExitAreGood(p);
    p.KillGroup();
    if status.None? {
      return Done(Err(Primary(NotReaped)));
    }
    return Done(Ok(Output(status.value, stdout.value.bytes, stderr.value.bytes)));
  }

  /** A refused request starts nothing; an accepted one never fails for its limits after the child exists. */
  method RunBounded(p: Process, clock: Clock, limits: Limits, input: Option<seq<byte>>, passes: nat)
    returns (r: Outcome)
    requires p.Ready()
    modifies p, clock, p.stdout, p.stderr, p.stdin
    ensures ValidateLimits(limits, input).Err? ==>
      r == Done(Err(Primary(ValidateLimits(limits, input).error))) && p.Ready()
    ensures ValidateLimits(limits, input).Ok? ==>
      && WithinBounds(p, limits, InputOf(input))
      && (r.Running? ==> StillAlive(p, passes - PassBound(limits, InputOf(input)) - 1))
      && (r.Done? && r.result.Ok? ==> Captured(p, limits, r.result.value))
      && (r.Done? ==> (r.result.Ok? <==> Clean(p, limits)))
      && (r.Done? && r.result.Err? ==>
            Reported(r.result.error.failure, p, clock, limits) && !r.result.error.failure.InvalidLimit?)
      && (r.Done? && r.result.Err? && !r.result.error.failure.NotSpawned? ==>
            p.groupKilled && (r.result.error.Primary? ==> p.reaped.Some?))
  {
    hide PassBound, StillAlive, Captured, Reported, WithinBounds, Clean;
    var valid := ValidateLimits(limits, input);
    if valid.Err? {
      return Done(Err(Primary(valid.error)));
    }
    r := OutputInner(p, clock, limits, input, passes);
    if r.Done? && r.result.Err? {
      ReportedIsNotClean(r.result.error.failure, p, clock, limits);
    }
  }
}
