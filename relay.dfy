/**
 * The nested `generate` generator of both entry points: it relays ffmpeg's
 * stdout in chunks of at most 8192 bytes until the first empty read, and on
 * every exit path tears the child process down (terminate, then kill when
 * `wait` fails), reports ffmpeg's stderr, and closes both pipes.
 *
 * The child process is abstract: what successive `read(8192)` calls on its
 * stdout return, whether it is still running, whether `wait(timeout=0.5)`
 * returns in time, and what reading its stderr gives.
 */
module Relay {
  import opened Common

  /** The size passed to `process.stdout.read`. */
  const ChunkSize: nat := 8192

  /** The exceptions a stdout read can raise. */
  datatype Exc = KeyboardInterrupt | ValueError | OSError

  /** One `read(8192)` call on the child's stdout: bytes (empty at end of stream) or an exception. */
  datatype ReadResult = Data(bytes: seq<byte>) | Raises(exc: Exc)

  /** `process.stderr.read()`: the diagnostics, or a ValueError/OSError. */
  datatype StderrRead = Diagnostics(bytes: seq<byte>) | ReadFails

  /** A snapshot of the child process and its two pipes. */
  datatype ProcState = ProcState(
    pending: seq<ReadResult>, // what the coming stdout reads return
    running: bool,            // `poll()` is None
    waitOk: bool,             // `wait(timeout=0.5)` returns rather than raising
    stderr: StderrRead,
    stdoutClosed: bool,
    stderrClosed: bool,
    terminated: bool,         // `terminate()` was called
    killed: bool)             // `kill()` was called

  /** `read(8192)` never returns more than 8192 bytes. */
  predicate ReadsValid(outputs: seq<ReadResult>)
  {
    forall i | 0 <= i < |outputs| :: outputs[i].Data? ==> |outputs[i].bytes| <= ChunkSize
  }

  /** What the next stdout read returns: a closed pipe raises ValueError, a drained one returns b"". */
  function NextRead(s: ProcState): ReadResult
  {
    if s.stdoutClosed then Raises(ValueError)
    else if s.pending == [] then Data([])
    else s.pending[0]
  }

  /** The stdout reads still to come after one read. */
  function RestReads(s: ProcState): seq<ReadResult>
  {
    if s.stdoutClosed || s.pending == [] then s.pending else s.pending[1..]
  }

  /** Terminate a running child; kill it when `wait` raises (the bare `except`). */
  function AfterSignals(s: ProcState): (t: ProcState)
    ensures !t.running
    ensures t.terminated <==> s.terminated || s.running
    ensures t.killed <==> s.killed || (s.running && !s.waitOk)
    ensures t.pending == s.pending && t.stderr == s.stderr
    ensures t.stdoutClosed == s.stdoutClosed && t.stderrClosed == s.stderrClosed
  {
    if !s.running then s
    else if s.waitOk then s.(running := false, terminated := true)
    else s.(running := false, terminated := true, killed := true)
  }

  /** What the teardown writes to the server's stderr: ffmpeg's diagnostics when there are any. */
  function TeardownLog(s: ProcState): seq<seq<byte>>
  {
    if !s.stderrClosed && s.stderr.Diagnostics? && s.stderr.bytes != [] then [s.stderr.bytes] else []
  }

  /** The `finally` block of `generate`, as a function of the process state it starts from. */
  function TeardownState(s: ProcState): (t: ProcState)
    ensures t.stdoutClosed && t.stderrClosed && !t.running
    ensures t.pending == s.pending && t.waitOk == s.waitOk
    ensures t.killed <==> s.killed || (s.running && !s.waitOk)
  {
    StderrDrained(AfterSignals(s)).(stdoutClosed := true, stderrClosed := true)
  }

  /** Reading an open stderr consumes the diagnostics; a failing read leaves it as it was. */
  function StderrDrained(s: ProcState): ProcState
  {
    if !s.stderrClosed && s.stderr.Diagnostics? then s.(stderr := Diagnostics([])) else s
  }

  /** After teardown both pipes are closed and the child no longer runs; its pending output is untouched. */
  lemma TeardownCloses(s: ProcState)
    ensures var t := TeardownState(s);
      t.stdoutClosed && t.stderrClosed && !t.running && t.pending == s.pending && t.waitOk == s.waitOk
  {
  }

  /** A running child is terminated, and killed exactly when `wait` fails; an exited one gets no signal. */
  lemma TeardownSignals(s: ProcState)
    ensures var t := TeardownState(s);
      (t.terminated <==> s.terminated || s.running)
      && (t.killed <==> s.killed || (s.running && !s.waitOk))
  {
  }

  /** Diagnostics are reported once, only when stderr was open and said something; a failed read is swallowed. */
  lemma TeardownReports(s: ProcState)
    ensures |TeardownLog(s)| <= 1
    ensures TeardownLog(s) != [] <==> !s.stderrClosed && s.stderr.Diagnostics? && s.stderr.bytes != []
    ensures s.stderr == ReadFails ==> TeardownLog(s) == [] && TeardownState(s).stderr == ReadFails
  {
  }

  /** The teardown neither reads nor changes the stdout output still pending. */
  lemma TeardownIgnoresPending(s: ProcState, p: seq<ReadResult>)
    ensures TeardownState(s.(pending := p)) == TeardownState(s).(pending := p)
    ensures TeardownLog(s.(pending := p)) == TeardownLog(s)
  {
  }

  /** A second teardown changes nothing and reports nothing. */
  lemma TeardownIdempotent(s: ProcState)
    ensures TeardownState(TeardownState(s)) == TeardownState(s)
    ensures TeardownLog(TeardownState(s)) == []
  {
  }

  /**
   * The chunks the generator relays from a sequence of stdout reads: the non-empty
   * data up to the first empty read, exception or end of the sequence.
   */
  function Relayed(outputs: seq<ReadResult>): (chunks: seq<seq<byte>>)
    ensures |chunks| <= |outputs|
    ensures forall i | 0 <= i < |chunks| :: outputs[i] == Data(chunks[i]) && chunks[i] != []
    ensures |chunks| < |outputs| ==> !(outputs[|chunks|].Data? && outputs[|chunks|].bytes != [])
  {
    if outputs == [] || outputs[0].Raises? || outputs[0].bytes == [] then []
    else [outputs[0].bytes] + Relayed(outputs[1..])
  }

  /** How the relay ended: None for an empty read (or no more reads), the exception otherwise. */
  function Ending(outputs: seq<ReadResult>): Option<Exc>
  {
    var k := |Relayed(outputs)|;
    if k < |outputs| && outputs[k].Raises? then Some(outputs[k].exc) else None
  }

  /** Every relayed chunk is non-empty and at most 8192 bytes. */
  lemma RelayedChunksBounded(outputs: seq<ReadResult>)
    requires ReadsValid(outputs)
    ensures forall i | 0 <= i < |Relayed(outputs)| :: 0 < |Relayed(outputs)[i]| <= ChunkSize
  {
  }

  /** A run of k non-empty data reads is the beginning of what is relayed. */
  lemma RelayedPrefix(outputs: seq<ReadResult>, k: nat)
    requires k <= |outputs|
    requires forall i | 0 <= i < k :: outputs[i].Data? && outputs[i].bytes != []
    ensures k <= |Relayed(outputs)|
    ensures forall i | 0 <= i < k :: Relayed(outputs)[i] == outputs[i].bytes
  {
  }

  /** Relaying stops at the first read that is not non-empty data. */
  lemma RelayedStops(outputs: seq<ReadResult>, k: nat)
    requires k <= |outputs|
    requires forall i | 0 <= i < k :: outputs[i].Data? && outputs[i].bytes != []
    requires k == |outputs| || !(outputs[k].Data? && outputs[k].bytes != [])
    ensures |Relayed(outputs)| == k
  {
    RelayedPrefix(outputs, k);
  }

  /** The child process as the generator sees it through `Popen`. */
  class Process {
    var pending: seq<ReadResult>
    var running: bool
    var waitOk: bool
    var stderr: StderrRead
    var stdoutClosed: bool
    var stderrClosed: bool
    var terminated: bool
    var killed: bool

    /** A freshly started child with both pipes open. */
    constructor (outputs: seq<ReadResult>, waitOk: bool, stderr: StderrRead)
      ensures State() == ProcState(outputs, true, waitOk, stderr, false, false, false, false)
    {
      this.pending := outputs;
      this.running := true;
      this.waitOk := waitOk;
      this.stderr := stderr;
      this.stdoutClosed := false;
      this.stderrClosed := false;
      this.terminated := false;
      this.killed := false;
    }

    function State(): ProcState
      reads this
    {
      ProcState(pending, running, waitOk, stderr, stdoutClosed, stderrClosed, terminated, killed)
    }

    /** `poll() is not None`. */
    method Poll() returns (exited: bool)
      ensures exited <==> !running
    {
      exited := !running;
    }

    method Terminate()
      modifies this
      ensures State() == old(State()).(terminated := true)
    {
      terminated := true;
    }

    /** `wait(timeout=0.5)`: true when it returned, false when it raised. */
    method Wait() returns (ok: bool)
      modifies this
      ensures ok == old(waitOk)
      ensures State() == if ok then old(State()).(running := false) else old(State())
    {
      ok := waitOk;
      if ok {
        running := false;
      }
    }

    method Kill()
      modifies this
      ensures State() == old(State()).(running := false, killed := true)
    {
      running := false;
      killed := true;
    }

    /** `stdout.read(8192)`. */
    method ReadStdout() returns (r: ReadResult)
      modifies this
      ensures r == NextRead(old(State()))
      ensures State() == old(State()).(pending := RestReads(old(State())))
    {
      if stdoutClosed {
        r := Raises(ValueError);
      } else if pending == [] {
        r := Data([]);
      } else {
        r := pending[0];
        pending := pending[1..];
      }
    }

    /** `stderr.read()`: the diagnostics are consumed by the read. */
    method ReadStderr() returns (r: StderrRead)
      modifies this
      ensures r == old(stderr)
      ensures State() == if r.Diagnostics? then old(State()).(stderr := Diagnostics([])) else old(State())
    {
      r := stderr;
      if r.Diagnostics? {
        stderr := Diagnostics([]);
      }
    }

    method CloseStdout()
      modifies this
      ensures State() == old(State()).(stdoutClosed := true)
    {
      stdoutClosed := true;
    }

    method CloseStderr()
      modifies this
      ensures State() == old(State()).(stderrClosed := true)
    {
      stderrClosed := true;
    }
  }

  /** Where the generator is: before its first `next`, paused at `yield`, or finished (with or without teardown). */
  datatype GenState = NotStarted | Suspended | Finished(tornDown: bool)

  /** What a call of `next` hands the consumer. */
  datatype Step = Yield(chunk: seq<byte>) | Exhausted | Raised(exc: Exc)

  /** What the consumer throws in at the `yield`: `close()` or a broken client connection. */
  datatype Signal = GeneratorExit | ConnectionReset

  /** What `next` gives when the stdout reads are `outputs` and `k` chunks were yielded before. */
  function StepAt(outputs: seq<ReadResult>, k: nat): Step
  {
    if k < |outputs| then
      match outputs[k]
      case Data(b) => if b != [] then Yield(b) else Exhausted
      case Raises(e) => Raised(e)
    else Exhausted
  }

  /** The generator object returned by `generate()`, bound to its process. */
  class Generator {
    const process: Process
    var state: GenState
    /** The `FFmpeg Error:` reports written to stderr. */
    var log: seq<seq<byte>>
    /** The stdout reads the process had when the generator was created. */
    ghost var source: seq<ReadResult>
    /** The chunks yielded so far. */
    ghost var yielded: seq<seq<byte>>

    ghost predicate Valid()
      reads this, process
    {
      && ReadsValid(source)
      && |yielded| <= |source|
      && (forall i | 0 <= i < |yielded| :: source[i] == Data(yielded[i]) && yielded[i] != [])
      && (state == NotStarted ==> yielded == [])
      && (!state.Finished? ==> process.pending == source[|yielded|..] && !process.stdoutClosed)
      && (state == Finished(true) ==> process.stdoutClosed && process.stderrClosed && !process.running)
    }

    constructor (p: Process)
      requires ReadsValid(p.pending) && !p.stdoutClosed
      ensures this.process == p && state == NotStarted && log == []
      ensures source == p.pending && yielded == []
      ensures Valid()
    {
      process := p;
      state := NotStarted;
      log := [];
      source := p.pending;
      yielded := [];
    }

    /** The `finally` block: signals, the stderr report, then both pipes closed. */
    method Finalize()
      modifies this`log, process
      ensures process.State() == TeardownState(old(process.State()))
      ensures log == old(log) + TeardownLog(old(process.State()))
    {
      StopChild();
      ReportStderr();
      process.CloseStdout();
      process.CloseStderr();
    }

    /** `if process.poll() is None`: terminate, wait, and kill when the wait raises. */
    method StopChild()
      modifies process
      ensures process.State() == AfterSignals(old(process.State()))
    {
      var exited := process.Poll();
      if !exited {
        process.Terminate();
        var ok := process.Wait();
        if !ok {
          process.Kill();
        }
      }
    }

    /** Read an open stderr and report what it says; a ValueError or OSError is swallowed. */
    method ReportStderr()
      modifies this`log, process
      ensures process.State() == StderrDrained(old(process.State()))
      ensures log == old(log) + TeardownLog(old(process.State()))
    {
      if !process.stderrClosed {
        var data := process.ReadStderr();
        if data.Diagnostics? && data.bytes != [] {
          log := log + [data.bytes];
        }
      }
    }

    /**
     * `next(gen)`: one pass of the `while True` loop. A non-empty chunk is
     * yielded; an empty read or an exception from the read runs the teardown
     * and ends the generator.
     */
    method Next() returns (step: Step)
      requires Valid()
      modifies this, process
      ensures Valid() && source == old(source)
      ensures !old(state).Finished? ==>
        step == StepAt(source, |old(yielded)|) && (step.Yield? <==> state == Suspended)
        && (!step.Yield? ==> state == Finished(true))
      ensures old(state).Finished? ==>
        step == Exhausted && state == old(state) && yielded == old(yielded) && log == old(log)
        && process.State() == old(process.State())
      ensures !old(state).Finished? ==>
        var s := old(process.State());
        var after := s.(pending := RestReads(s));
        match NextRead(s)
        case Data(b) =>
          if b != [] then
            step == Yield(b) && 0 < |b| <= ChunkSize && state == Suspended
            && yielded == old(yielded) + [b] && log == old(log) && process.State() == after
          else
            step == Exhausted && state == Finished(true) && yielded == old(yielded)
            && log == old(log) + TeardownLog(after) && process.State() == TeardownState(after)
        case Raises(e) =>
          step == Raised(e) && state == Finished(true) && yielded == old(yielded)
          && log == old(log) + TeardownLog(after) && process.State() == TeardownState(after)
    {
      if state.Finished? {
        return Exhausted;
      }
      var r := process.ReadStdout();
      if r.Data? && r.bytes != [] {
        assert |yielded| < |source| && source[|yielded|] == r;
        state := Suspended;
        yielded := yielded + [r.bytes];
        assert process.pending == source[|yielded|..];
        step := Yield(r.bytes);
      } else {
        TeardownCloses(process.State());
        Finalize();
        state := Finished(true);
        step := if r.Raises? then Raised(r.exc) else Exhausted;
      }
    }

    /**
     * `close()` or `throw(ConnectionResetError)`. At the `yield` both are
     * caught and the teardown runs; a generator that never started finishes
     * without running its `finally`, and a throw into it (or into a finished
     * one) propagates.
     */
    method Interrupt(sig: Signal) returns (propagated: bool)
      requires Valid()
      modifies this, process
      ensures Valid() && source == old(source) && yielded == old(yielded)
      ensures propagated <==> sig == ConnectionReset && old(state) != Suspended
      ensures old(state) == Suspended ==>
        state == Finished(true) && process.State() == TeardownState(old(process.State()))
        && log == old(log) + TeardownLog(old(process.State()))
      ensures old(state) == NotStarted ==>
        state == Finished(false) && process.State() == old(process.State()) && log == old(log)
      ensures old(state).Finished? ==>
        state == old(state) && process.State() == old(process.State()) && log == old(log)
    {
      propagated := sig == ConnectionReset && state != Suspended;
      if state == Suspended {
        TeardownCloses(process.State());
        Finalize();
        state := Finished(true);
      } else if state == NotStarted {
        state := Finished(false);
      }
    }
  }
}
