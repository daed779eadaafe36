/**
 * The reusable sleep controller: it opens the device's serial console,
 * runs a reader that frames the console into lines, queues every line and
 * raises a "sleep" and a "wake" event on the configured flags; it writes
 * the configured sleep commands, retries until the device sleeps, waits
 * for the wake flag, and resets its events and queue between runs.
 *
 * The reader thread and the event waits are modelled by their inputs: the
 * reads that arrive while a wait is in progress.  The configuration is a
 * record with every key present.
 */
module SleepManager {
  import opened Base
  import opened Text
  import opened LineFraming

  /** The configuration keys the manager uses. */
  datatype Config = Config(port: string, sleepFlag: string, wakeupFlag: string, sleepCommands: seq<string>)

  /** What one attempt of `ensure_device_sleep` meets: the writes the port accepts, and the reads during its wait. */
  datatype Attempt = Attempt(accepted: nat, during: seq<Read>)

  /** The commands actually written when the port accepts `accepted` writes. */
  function Written(cmds: seq<string>, accepted: nat): (w: seq<string>)
    ensures |w| <= |cmds| && w <= cmds
    ensures |w| == |cmds| <==> accepted >= |cmds|
  {
    if accepted >= |cmds| then cmds else cmds[..accepted]
  }

  /** Whether the whole command list goes out. */
  predicate Sends(cmds: seq<string>, a: Attempt)
  {
    a.accepted >= |cmds|
  }

  /** The reads one attempt waits through: none when its send fails. */
  function WaitOf(cmds: seq<string>, a: Attempt): seq<Read>
  {
    if Sends(cmds, a) then a.during else []
  }

  /** The reads a run of attempts waits through. */
  function Waited(cmds: seq<string>, attempts: seq<Attempt>): seq<Read>
    decreases |attempts|
  {
    if attempts == [] then []
    else Waited(cmds, attempts[..|attempts| - 1]) + WaitOf(cmds, attempts[|attempts| - 1])
  }

  /** The commands a run of attempts writes, in order. */
  function SentAll(cmds: seq<string>, attempts: seq<Attempt>): seq<string>
    decreases |attempts|
  {
    if attempts == [] then []
    else
      SentAll(cmds, attempts[..|attempts| - 1]) + Written(cmds, attempts[|attempts| - 1].accepted)
  }

  lemma WaitedSnoc(cmds: seq<string>, attempts: seq<Attempt>, n: nat)
    requires n < |attempts|
    ensures Waited(cmds, attempts[..n + 1]) == Waited(cmds, attempts[..n]) + WaitOf(cmds, attempts[n])
    ensures SentAll(cmds, attempts[..n + 1]) == SentAll(cmds, attempts[..n]) + Written(cmds, attempts[n].accepted)
  {
    assert attempts[..n + 1][..n] == attempts[..n];
  }

  lemma {:induction false} WaitedAppend(cmds: seq<string>, x: seq<Attempt>, y: seq<Attempt>)
    ensures Waited(cmds, x + y) == Waited(cmds, x) + Waited(cmds, y)
    decreases |y|
  {
    if y == [] {
      assert x + y == x;
    } else {
      var y' := y[..|y| - 1];
      assert (x + y)[..|x + y| - 1] == x + y';
      assert (x + y)[|x + y| - 1] == y[|y| - 1];
      WaitedAppend(cmds, x, y');
      Assoc(Waited(cmds, x), Waited(cmds, y'), WaitOf(cmds, y[|y| - 1]));
    }
  }

  /**
   * Once the console has shown the sleep flag within the first `n`
   * attempts, it has shown it within any longer run: so an early return on
   * the flag decides the same as running every attempt.
   */
  lemma SleepPersists(b0: string, cmds: seq<string>, attempts: seq<Attempt>, n: nat, m: nat, flag: string)
    requires n <= m <= |attempts|
    requires AnyHas(Heard(b0, Waited(cmds, attempts[..n])), flag)
    ensures AnyHas(Heard(b0, Waited(cmds, attempts[..m])), flag)
  {
    var x, y := attempts[..n], attempts[n..m];
    var wx, wy := Waited(cmds, x), Waited(cmds, y);
    assert Waited(cmds, attempts[..m]) == wx + wy by {
      assert attempts[..m] == x + y;
      WaitedAppend(cmds, x, y);
    }
    HeardMore(b0, wx, wy, flag);
  }

  /** What the `n`-th attempt adds to the reads waited through, the lines heard and the commands written. */
  lemma AttemptStep(b0: string, cmds: seq<string>, attempts: seq<Attempt>, n: nat, buffer: string)
    requires n < |attempts| && buffer == Rest(b0 + Texts(Waited(cmds, attempts[..n])))
    ensures Heard(b0, Waited(cmds, attempts[..n + 1]))
      == Heard(b0, Waited(cmds, attempts[..n])) + Heard(buffer, WaitOf(cmds, attempts[n]))
    ensures Rest(b0 + Texts(Waited(cmds, attempts[..n + 1]))) == Rest(buffer + Texts(WaitOf(cmds, attempts[n])))
    ensures SentAll(cmds, attempts[..n + 1]) == SentAll(cmds, attempts[..n]) + Written(cmds, attempts[n].accepted)
  {
    var before, w := Waited(cmds, attempts[..n]), WaitOf(cmds, attempts[n]);
    WaitedSnoc(cmds, attempts, n);
    HeardAppend(b0, before, w);
  }

  class DeviceSleepManager {
    const config: Config
    /** Whether `serial_port` is set and open. */
    var portOpen: bool
    var running: bool
    var sleepDetected: bool
    var wakeupDetected: bool
    /** The contents of `log_queue`, oldest first. */
    var logQueue: seq<string>
    /** The reader's buffer of text not yet ended by '\n'. */
    var buffer: string
    /** The commands written to the port, in order. */
    var wrote: seq<string>

    predicate Valid()
      reads this
    {
      '\n' !in buffer
    }

    constructor(config: Config)
      ensures this.config == config && !portOpen && !running
      ensures !sleepDetected && !wakeupDetected
      ensures logQueue == [] && buffer == "" && wrote == []
      ensures Valid()
    {
      this.config := config;
      portOpen := false;
      running := false;
      sleepDetected := false;
      wakeupDetected := false;
      logQueue := [];
      buffer := "";
      wrote := [];
    }

    /** `open_serial_port`: `opens` says whether the port could be opened; a failure is reported as `false`. */
    method OpenSerialPort(opens: bool) returns (ok: bool)
      modifies this
      ensures ok == opens
      ensures portOpen == (opens || old(portOpen))
      ensures running == old(running) && buffer == old(buffer) && logQueue == old(logQueue) && wrote == old(wrote)
      ensures sleepDetected == old(sleepDetected) && wakeupDetected == old(wakeupDetected)
    {
      if opens {
        portOpen := true;
      }
      ok := opens;
    }

    method CloseSerialPort()
      modifies this
      ensures !portOpen
      ensures running == old(running) && buffer == old(buffer) && logQueue == old(logQueue) && wrote == old(wrote)
      ensures sleepDetected == old(sleepDetected) && wakeupDetected == old(wakeupDetected)
    {
      portOpen := false;
    }

    /** `start_reading`: refuses, and starts nothing, unless the port is open; a new reader starts with an empty buffer. */
    method StartReading() returns (ok: bool)
      modifies this
      ensures ok == old(portOpen)
      ensures ok ==> running && buffer == ""
      ensures !ok ==> running == old(running) && buffer == old(buffer)
      ensures old(Valid()) ==> Valid()
      ensures portOpen == old(portOpen) && logQueue == old(logQueue) && wrote == old(wrote)
      ensures sleepDetected == old(sleepDetected) && wakeupDetected == old(wakeupDetected)
    {
      if !portOpen {
        return false;
      }
      running := true;
      buffer := "";
      ok := true;
    }

    /** `_process_line`: the line is queued; each flag, once set, stays set, and one line can set both. */
    method ProcessLine(line: string)
      modifies this
      ensures logQueue == old(logQueue) + [line]
      ensures sleepDetected == (old(sleepDetected) || AnyHas([line], config.sleepFlag))
      ensures wakeupDetected == (old(wakeupDetected) || AnyHas([line], config.wakeupFlag))
      ensures buffer == old(buffer) && wrote == old(wrote) && portOpen == old(portOpen) && running == old(running)
    {
      assert [line][0] == line;
      logQueue := logQueue + [line];
      if !sleepDetected && Contains(line, config.sleepFlag) {
        sleepDetected := true;
      }
      if !wakeupDetected && Contains(line, config.wakeupFlag) {
        wakeupDetected := true;
      }
    }

    method ProcessLines(lines: seq<string>)
      modifies this
      ensures logQueue == old(logQueue) + lines
      ensures sleepDetected == (old(sleepDetected) || AnyHas(lines, config.sleepFlag))
      ensures wakeupDetected == (old(wakeupDetected) || AnyHas(lines, config.wakeupFlag))
      ensures buffer == old(buffer) && wrote == old(wrote) && portOpen == old(portOpen) && running == old(running)
    {
      var i := 0;
      while i < |lines|
        invariant 0 <= i <= |lines|
        invariant logQueue == old(logQueue) + lines[..i]
        invariant sleepDetected == (old(sleepDetected) || AnyHas(lines[..i], config.sleepFlag))
        invariant wakeupDetected == (old(wakeupDetected) || AnyHas(lines[..i], config.wakeupFlag))
        invariant buffer == old(buffer) && wrote == old(wrote) && portOpen == old(portOpen) && running == old(running)
      {
        assert lines[..i + 1] == lines[..i] + [lines[i]];
        AnyHasAppend(lines[..i], [lines[i]], config.sleepFlag);
        AnyHasAppend(lines[..i], [lines[i]], config.wakeupFlag);
        ProcessLine(lines[i]);
        i := i + 1;
      }
      assert lines[..i] == lines;
    }

    /** One pass of the reader loop; `lines` are the lines it hands on.  A read error is logged and nothing else happens. */
    method Receive(r: Read) returns (lines: seq<string>)
      requires Valid()
      modifies this
      ensures Valid()
      ensures lines == Heard(old(buffer), [r])
      ensures buffer == Rest(old(buffer) + Texts([r]))
      ensures logQueue == old(logQueue) + lines
      ensures sleepDetected == (old(sleepDetected) || AnyHas(lines, config.sleepFlag))
      ensures wakeupDetected == (old(wakeupDetected) || AnyHas(lines, config.wakeupFlag))
      ensures wrote == old(wrote) && portOpen == old(portOpen) && running == old(running)
    {
      assert Texts([r]) == TextOf(r) by {
        assert [r][..0] == [];
      }
      if r.Data? {
        var pieces, rest := FrameChunk(buffer, r.text);
        buffer := rest;
        lines := StripPieces(pieces);
        ProcessLines(lines);
      } else {
        assert buffer + TextOf(r) == buffer;
        CutEnd(buffer);
        assert Kept([]) == [];
        lines := [];
        assert !AnyHas(lines, config.sleepFlag) && !AnyHas(lines, config.wakeupFlag);
      }
    }

    /** `_read_serial_data` over the reads `rs`; `heard` are the lines it hands on. */
    method ReadSerialData(rs: seq<Read>) returns (heard: seq<string>)
      requires Valid()
      modifies this
      ensures Valid()
      ensures heard == Heard(old(buffer), rs)
      ensures buffer == Rest(old(buffer) + Texts(rs))
      ensures logQueue == old(logQueue) + heard
      ensures sleepDetected == (old(sleepDetected) || AnyHas(heard, config.sleepFlag))
      ensures wakeupDetected == (old(wakeupDetected) || AnyHas(heard, config.wakeupFlag))
      ensures wrote == old(wrote) && portOpen == old(portOpen) && running == old(running)
    {
      ghost var b0 := buffer;
      var i := 0;
      ReadStart(b0, rs);
      heard := [];
      while i < |rs|
        invariant 0 <= i <= |rs| && Valid()
        invariant heard == Heard(b0, rs[..i])
        invariant buffer == Rest(b0 + Texts(rs[..i]))
        invariant logQueue == old(logQueue) + heard
        invariant sleepDetected == (old(sleepDetected) || AnyHas(heard, config.sleepFlag))
        invariant wakeupDetected == (old(wakeupDetected) || AnyHas(heard, config.wakeupFlag))
        invariant wrote == old(wrote) && portOpen == old(portOpen) && running == old(running)
      {
        ReadStep(b0, rs, i, buffer);
        var lines := Receive(rs[i]);
        Assoc(old(logQueue), heard, lines);
        AnyHasAppend(heard, lines, config.sleepFlag);
        AnyHasAppend(heard, lines, config.wakeupFlag);
        heard := heard + lines;
        i := i + 1;
      }
      assert rs[..i] == rs;
    }

    /** `stop_reading`: the reader leaves its loop and hands on a non-blank leftover as a last line. */
    method StopReading()
      requires Valid()
      modifies this
      ensures !running && Valid()
      ensures old(running) ==> (buffer == "" && logQueue == old(logQueue) + Kept([old(buffer)])
        && sleepDetected == (old(sleepDetected) || AnyHas(Kept([old(buffer)]), config.sleepFlag))
        && wakeupDetected == (old(wakeupDetected) || AnyHas(Kept([old(buffer)]), config.wakeupFlag)))
      ensures !old(running) ==> (logQueue == old(logQueue) && sleepDetected == old(sleepDetected)
        && wakeupDetected == old(wakeupDetected) && buffer == old(buffer))
      ensures wrote == old(wrote) && portOpen == old(portOpen)
    {
      if running {
        running := false;
        var last := StripPieces([buffer]);
        ProcessLines(last);
        buffer := "";
      }
    }

    /** `send_sleep_commands`: the commands go out in configuration order until the port raises; `ok` says none did. */
    method SendSleepCommands(accepted: nat) returns (ok: bool)
      modifies this
      ensures ok <==> accepted >= |config.sleepCommands|
      ensures wrote == old(wrote) + Written(config.sleepCommands, accepted)
      ensures buffer == old(buffer) && logQueue == old(logQueue) && portOpen == old(portOpen) && running == old(running)
      ensures sleepDetected == old(sleepDetected) && wakeupDetected == old(wakeupDetected)
    {
      var cmds := config.sleepCommands;
      var i := 0;
      while i < |cmds|
        invariant 0 <= i <= |cmds| && i <= accepted
        invariant wrote == old(wrote) + cmds[..i]
        invariant buffer == old(buffer) && logQueue == old(logQueue) && portOpen == old(portOpen) && running == old(running)
        invariant sleepDetected == old(sleepDetected) && wakeupDetected == old(wakeupDetected)
      {
        if i >= accepted {
          return false;
        }
        wrote := wrote + [cmds[i]];
        assert cmds[..i + 1] == cmds[..i] + [cmds[i]];
        i := i + 1;
      }
      assert cmds[..i] == cmds;
      ok := true;
    }

    /** One attempt of `ensure_device_sleep`: the commands are written and, only if that worked, the flag is waited for. */
    method TryOnce(a: Attempt) returns (sent: bool)
      requires Valid()
      modifies this
      ensures Valid()
      ensures sent == Sends(config.sleepCommands, a)
      ensures wrote == old(wrote) + Written(config.sleepCommands, a.accepted)
      ensures buffer == Rest(old(buffer) + Texts(WaitOf(config.sleepCommands, a)))
      ensures logQueue == old(logQueue) + Heard(old(buffer), WaitOf(config.sleepCommands, a))
      ensures sleepDetected == (old(sleepDetected) || AnyHas(Heard(old(buffer), WaitOf(config.sleepCommands, a)), config.sleepFlag))
      ensures portOpen == old(portOpen) && running == old(running)
    {
      sent := SendSleepCommands(a.accepted);
      if sent {
        var heard := ReadSerialData(a.during);
      } else {
        ghost var none: seq<Read> := [];
        assert none[..0] == none;
        ReadStart(buffer, none);
        assert !AnyHas([], config.sleepFlag);
      }
    }

    /** The buffer, the log queue and the commands written after the first `n` attempts, from `b0`, `q0` and `w0`. */
    ghost predicate Progressed(attempts: seq<Attempt>, n: nat, b0: string, w0: seq<string>, q0: seq<string>)
      requires n <= |attempts|
      reads this
    {
      && buffer == Rest(b0 + Texts(Waited(config.sleepCommands, attempts[..n])))
      && logQueue == q0 + Heard(b0, Waited(config.sleepCommands, attempts[..n]))
      && wrote == w0 + SentAll(config.sleepCommands, attempts[..n])
    }

    /** Attempt number `n + 1` of the loop below, after `n` attempts that did not show the flag. */
    method NextAttempt(attempts: seq<Attempt>, n: nat, ghost b0: string, ghost w0: seq<string>, ghost q0: seq<string>)
      requires Valid() && n < |attempts| && !sleepDetected
      requires !AnyHas(Heard(b0, Waited(config.sleepCommands, attempts[..n])), config.sleepFlag)
      requires Progressed(attempts, n, b0, w0, q0)
      modifies this
      ensures Valid() && Progressed(attempts, n + 1, b0, w0, q0)
      ensures sleepDetected == AnyHas(Heard(b0, Waited(config.sleepCommands, attempts[..n + 1])), config.sleepFlag)
      ensures portOpen == old(portOpen) && running == old(running)
    {
      var cmds := config.sleepCommands;
      var a := attempts[n];
      ghost var heard0 := Heard(b0, Waited(cmds, attempts[..n]));
      ghost var lines := Heard(buffer, WaitOf(cmds, a));
      AttemptStep(b0, cmds, attempts, n, buffer);
      var sent := TryOnce(a);
      Assoc(w0, SentAll(cmds, attempts[..n]), Written(cmds, a.accepted));
      Assoc(q0, heard0, lines);
      AnyHasAppend(heard0, lines, config.sleepFlag);
    }

    /**
     * The attempt loop of `ensure_device_sleep`, entered while the device
     * is awake: it stops at the first attempt whose wait shows the flag.
     */
    method Attempts(maxRetries: nat, attempts: seq<Attempt>) returns (ok: bool, made: nat)
      requires Valid() && maxRetries <= |attempts| && !sleepDetected
      modifies this
      ensures Valid()
      ensures made <= maxRetries && sleepDetected == ok
      ensures ok ==> 1 <= made && AnyHas(Heard(old(buffer), Waited(config.sleepCommands, attempts[..made])), config.sleepFlag)
      ensures ok ==> !AnyHas(Heard(old(buffer), Waited(config.sleepCommands, attempts[..made - 1])), config.sleepFlag)
      ensures !ok ==> (made == maxRetries
        && !AnyHas(Heard(old(buffer), Waited(config.sleepCommands, attempts[..made])), config.sleepFlag))
      ensures wrote == old(wrote) + SentAll(config.sleepCommands, attempts[..made])
      ensures buffer == Rest(old(buffer) + Texts(Waited(config.sleepCommands, attempts[..made])))
      ensures logQueue == old(logQueue) + Heard(old(buffer), Waited(config.sleepCommands, attempts[..made]))
      ensures portOpen == old(portOpen) && running == old(running)
    {
      ghost var b0, w0, q0 := buffer, wrote, logQueue;
      made := 0;
      assert attempts[..0] == [];
      ReadStart(b0, []);
      while made < maxRetries
        invariant 0 <= made <= maxRetries && Valid() && !sleepDetected
        invariant !AnyHas(Heard(b0, Waited(config.sleepCommands, attempts[..made])), config.sleepFlag)
        invariant Progressed(attempts, made, b0, w0, q0)
        invariant portOpen == old(portOpen) && running == old(running)
      {
        NextAttempt(attempts, made, b0, w0, q0);
        made := made + 1;
        if sleepDetected {
          return true, made;
        }
      }
      ok := false;
    }

    /**
     * `ensure_device_sleep`: true at once, writing nothing, when the device
     * already sleeps; otherwise up to `maxRetries` attempts, each writing the
     * commands and, if that worked, waiting for the flag.  `made` is the
     * number of attempts made; the result is whether the flag arrives in
     * any wait of the first `maxRetries` attempts.
     */
    method EnsureDeviceSleep(maxRetries: nat, attempts: seq<Attempt>) returns (ok: bool, made: nat)
      requires Valid() && maxRetries <= |attempts|
      modifies this
      ensures Valid()
      ensures made <= maxRetries
      ensures old(sleepDetected) ==> ok && made == 0 && wrote == old(wrote) && buffer == old(buffer)
      ensures ok <==> (old(sleepDetected)
        || AnyHas(Heard(old(buffer), Waited(config.sleepCommands, attempts[..maxRetries])), config.sleepFlag))
      ensures !ok ==> made == maxRetries
      ensures !old(sleepDetected) ==> (wrote == old(wrote) + SentAll(config.sleepCommands, attempts[..made])
        && buffer == Rest(old(buffer) + Texts(Waited(config.sleepCommands, attempts[..made])))
        && logQueue == old(logQueue) + Heard(old(buffer), Waited(config.sleepCommands, attempts[..made])))
      ensures ok && !old(sleepDetected) ==> (made >= 1
        && !AnyHas(Heard(old(buffer), Waited(config.sleepCommands, attempts[..made - 1])), config.sleepFlag))
      ensures sleepDetected == ok
      ensures portOpen == old(portOpen) && running == old(running)
    {
      if sleepDetected {
        return true, 0;
      }
      ghost var b0 := buffer;
      ok, made := Attempts(maxRetries, attempts);
      if ok {
        SleepPersists(b0, config.sleepCommands, attempts, made, maxRetries, config.sleepFlag);
      }
    }

    /** `wait_for_wakeup`: true at once when the flag is already set, else whether it arrives within the wait. */
    method WaitForWakeup(arrivals: seq<Read>) returns (seen: bool)
      requires Valid()
      modifies this
      ensures Valid()
      ensures seen == wakeupDetected
      ensures seen == (old(wakeupDetected) || AnyHas(Heard(old(buffer), arrivals), config.wakeupFlag))
      ensures old(wakeupDetected) ==> (buffer == old(buffer) && logQueue == old(logQueue)
        && sleepDetected == old(sleepDetected))
      ensures !old(wakeupDetected) ==> (buffer == Rest(old(buffer) + Texts(arrivals))
        && logQueue == old(logQueue) + Heard(old(buffer), arrivals)
        && sleepDetected == (old(sleepDetected) || AnyHas(Heard(old(buffer), arrivals), config.sleepFlag)))
      ensures wrote == old(wrote) && portOpen == old(portOpen) && running == old(running)
    {
      if wakeupDetected {
        return true;
      }
      var heard := ReadSerialData(arrivals);
      seen := wakeupDetected;
    }

    /** `reset_state`: both events cleared and the queue drained one line at a time. */
    method ResetState()
      modifies this
      ensures !sleepDetected && !wakeupDetected && logQueue == []
      ensures buffer == old(buffer) && wrote == old(wrote) && portOpen == old(portOpen) && running == old(running)
    {
      sleepDetected := false;
      wakeupDetected := false;
      while logQueue != []
        invariant !sleepDetected && !wakeupDetected
        invariant buffer == old(buffer) && wrote == old(wrote) && portOpen == old(portOpen) && running == old(running)
        decreases |logQueue|
      {
        logQueue := logQueue[1..];
      }
    }
  }
}
