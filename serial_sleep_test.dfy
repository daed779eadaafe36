/**
 * The serial-port sleep/wake test: a monitor reads the device console,
 * frames it into lines and raises a "sleep" and a "wake" event when a line
 * carries the corresponding flag; each test run resets the events, writes
 * the sleep commands, waits for the sleep flag, starts a BLE connection
 * and waits for the wake flag; the main loop tallies the runs.
 *
 * The reader thread, the event waits and the BLE connection are modelled
 * by their inputs: the reads that arrive while a wait is in progress, and
 * the BLE result (which the test only logs).
 */
module SerialSleepTest {
  import opened Base
  import opened Text
  import opened LineFraming

  const SleepFlag: string := "a113x2 SOC turned off"
  const WakeupFlag: string := "BT_WAKEUP fired"
  const SleepCommands: seq<string> := [
    "echo DeviceSuspendRequested > /tmp/sonospowercoordinator_USR1_cmd_OVERRIDE\r\n",
    "killall -SIGUSR1 sonospowercoordinator\r\n"
  ]
  const TotalTests: nat := 10

  /** A line with the wake flag but not the sleep flag: only such a line raises the wake event. */
  predicate WakeOnly(line: string)
  {
    !Contains(line, SleepFlag) && Contains(line, WakeupFlag)
  }

  predicate AnyWakeOnly(lines: seq<string>)
  {
    exists i :: 0 <= i < |lines| && WakeOnly(lines[i])
  }

  lemma AnyWakeOnlyAppend(a: seq<string>, b: seq<string>)
    ensures AnyWakeOnly(a + b) <==> AnyWakeOnly(a) || AnyWakeOnly(b)
  {
    if AnyWakeOnly(a + b) {
      var i :| 0 <= i < |a + b| && WakeOnly((a + b)[i]);
      if i >= |a| {
        assert b[i - |a|] == (a + b)[i];
      }
    }
    if AnyWakeOnly(a) {
      var i :| 0 <= i < |a| && WakeOnly(a[i]);
      assert (a + b)[i] == a[i];
    }
    if AnyWakeOnly(b) {
      var i :| 0 <= i < |b| && WakeOnly(b[i]);
      assert (a + b)[|a| + i] == b[i];
    }
  }

  /** A line carrying both flags raises the sleep event and not the wake event. */
  lemma BothFlagsMeanSleep(line: string)
    requires Contains(line, SleepFlag) && Contains(line, WakeupFlag)
    ensures AnyHas([line], SleepFlag) && !AnyWakeOnly([line])
  {
    assert [line][0] == line;
  }

  class SerialMonitor {
    const port: string
    /** Whether `serial_conn` is open. */
    var portOpen: bool
    var running: bool
    var sleepEvent: bool
    var wakeupEvent: bool
    /** The reader thread's buffer of text not yet ended by '\n'. */
    var buffer: string
    /** The lines written to the serial output log, in order. */
    var logged: seq<string>
    /** The commands written to the port, in order. */
    var wrote: seq<string>

    predicate Valid()
      reads this
    {
      '\n' !in buffer
    }

    constructor(port: string)
      ensures this.port == port && !portOpen && !running
      ensures !sleepEvent && !wakeupEvent
      ensures buffer == "" && logged == [] && wrote == []
      ensures Valid()
    {
      this.port := port;
      portOpen := false;
      running := false;
      sleepEvent := false;
      wakeupEvent := false;
      buffer := "";
      logged := [];
      wrote := [];
    }

    /** `start`: `opens` says whether the port could be portOpen; the events are cleared only once it is. */
    method Start(opens: bool) returns (ok: bool)
      modifies this
      ensures ok == opens
      ensures ok ==> portOpen && running && !sleepEvent && !wakeupEvent && buffer == ""
      ensures !ok ==> (portOpen == old(portOpen) && running == old(running) && buffer == old(buffer)
        && sleepEvent == old(sleepEvent) && wakeupEvent == old(wakeupEvent))
      ensures logged == old(logged) && wrote == old(wrote)
      ensures old(Valid()) ==> Valid()
    {
      if !opens {
        return false;
      }
      portOpen := true;
      sleepEvent := false;
      wakeupEvent := false;
      running := true;
      buffer := "";
      ok := true;
    }

    /** One line handed on by the reader: it is logged, then the sleep flag is looked for before the wake flag. */
    method ProcessLine(line: string)
      modifies this
      ensures logged == old(logged) + [line]
      ensures sleepEvent == (old(sleepEvent) || AnyHas([line], SleepFlag))
      ensures wakeupEvent == (old(wakeupEvent) || AnyWakeOnly([line]))
      ensures buffer == old(buffer) && wrote == old(wrote) && portOpen == old(portOpen) && running == old(running)
    {
      assert [line][0] == line;
      logged := logged + [line];
      if Contains(line, SleepFlag) {
        sleepEvent := true;
      } else if Contains(line, WakeupFlag) {
        wakeupEvent := true;
      }
    }

    /** Hands on each line in order. */
    method ProcessLines(lines: seq<string>)
      modifies this
      ensures logged == old(logged) + lines
      ensures sleepEvent == (old(sleepEvent) || AnyHas(lines, SleepFlag))
      ensures wakeupEvent == (old(wakeupEvent) || AnyWakeOnly(lines))
      ensures buffer == old(buffer) && wrote == old(wrote) && portOpen == old(portOpen) && running == old(running)
    {
      var i := 0;
      while i < |lines|
        invariant 0 <= i <= |lines|
        invariant logged == old(logged) + lines[..i]
        invariant sleepEvent == (old(sleepEvent) || AnyHas(lines[..i], SleepFlag))
        invariant wakeupEvent == (old(wakeupEvent) || AnyWakeOnly(lines[..i]))
        invariant buffer == old(buffer) && wrote == old(wrote) && portOpen == old(portOpen) && running == old(running)
      {
        assert lines[..i + 1] == lines[..i] + [lines[i]];
        AnyHasAppend(lines[..i], [lines[i]], SleepFlag);
        AnyWakeOnlyAppend(lines[..i], [lines[i]]);
        ProcessLine(lines[i]);
        i := i + 1;
      }
      assert lines[..i] == lines;
    }

    /** One pass of the reader loop; `lines` are the lines it hands on. */
    method Receive(r: Read) returns (lines: seq<string>)
      requires Valid()
      modifies this
      ensures Valid()
      ensures lines == Heard(old(buffer), [r])
      ensures buffer == Rest(old(buffer) + Texts([r]))
      ensures logged == old(logged) + lines
      ensures sleepEvent == (old(sleepEvent) || AnyHas(lines, SleepFlag))
      ensures wakeupEvent == (old(wakeupEvent) || AnyWakeOnly(lines))
      ensures wrote == old(wrote) && portOpen == old(portOpen) && running == old(running)
    {
      assert Texts([r]) == TextOf(r) by {
        assert [r][..0] == [];
      }
      if r.Data? {
        var pieces, rest := FrameChunk(buffer, r.text);
        buffer := rest;
        lines := StripPieces(pieces);
        ProcessLines(lines);
      } else {
        assert buffer + TextOf(r) == buffer;
        CutEnd(buffer);
        assert Kept([]) == [];
        lines := [];
        assert !AnyHas(lines, SleepFlag) && !AnyWakeOnly(lines);
      }
    }

    /** The reader loop over the reads `rs`; `heard` are the lines it hands on. */
    method ReadSerial(rs: seq<Read>) returns (heard: seq<string>)
      requires Valid()
      modifies this
      ensures Valid()
      ensures heard == Heard(old(buffer), rs)
      ensures buffer == Rest(old(buffer) + Texts(rs))
      ensures logged == old(logged) + heard
      ensures sleepEvent == (old(sleepEvent) || AnyHas(heard, SleepFlag))
      ensures wakeupEvent == (old(wakeupEvent) || AnyWakeOnly(heard))
      ensures wrote == old(wrote) && portOpen == old(portOpen) && running == old(running)
    {
      ghost var b0 := buffer;
      var i := 0;
      ReadStart(b0, rs);
      heard := [];
      while i < |rs|
        invariant 0 <= i <= |rs| && Valid()
        invariant heard == Heard(b0, rs[..i])
        invariant buffer == Rest(b0 + Texts(rs[..i]))
        invariant logged == old(logged) + heard
        invariant sleepEvent == (old(sleepEvent) || AnyHas(heard, SleepFlag))
        invariant wakeupEvent == (old(wakeupEvent) || AnyWakeOnly(heard))
        invariant wrote == old(wrote) && portOpen == old(portOpen) && running == old(running)
      {
        ReadStep(b0, rs, i, buffer);
        var lines := Receive(rs[i]);
        Assoc(old(logged), heard, lines);
        AnyHasAppend(heard, lines, SleepFlag);
        AnyWakeOnlyAppend(heard, lines);
        heard := heard + lines;
        i := i + 1;
      }
      assert rs[..i] == rs;
    }

    /** `stop`: the reader leaves its loop and hands on a non-blank leftover as a last line. */
    method Stop()
      requires Valid()
      modifies this
      ensures !running && !portOpen && buffer == "" && Valid()
      ensures old(running) ==> (logged == old(logged) + Kept([old(buffer)])
        && sleepEvent == (old(sleepEvent) || AnyHas(Kept([old(buffer)]), SleepFlag))
        && wakeupEvent == (old(wakeupEvent) || AnyWakeOnly(Kept([old(buffer)]))))
      ensures !old(running) ==> logged == old(logged) && sleepEvent == old(sleepEvent) && wakeupEvent == old(wakeupEvent)
      ensures wrote == old(wrote)
    {
      if running {
        running := false;
        var last := StripPieces([buffer]);
        ProcessLines(last);
      }
      running := false;
      portOpen := false;
      buffer := "";
    }

    method ResetEvents()
      modifies this
      ensures !sleepEvent && !wakeupEvent
      ensures buffer == old(buffer) && logged == old(logged) && wrote == old(wrote)
        && portOpen == old(portOpen) && running == old(running)
    {
      sleepEvent := false;
      wakeupEvent := false;
    }

    /** `wait_for_sleep`: the event as it stands once the reads arriving before the timeout are processed. */
    method WaitForSleep(arrivals: seq<Read>) returns (seen: bool)
      requires Valid()
      modifies this
      ensures Valid()
      ensures seen == sleepEvent
      ensures seen == (old(sleepEvent) || AnyHas(Heard(old(buffer), arrivals), SleepFlag))
      ensures buffer == Rest(old(buffer) + Texts(arrivals))
      ensures logged == old(logged) + Heard(old(buffer), arrivals)
      ensures wakeupEvent == (old(wakeupEvent) || AnyWakeOnly(Heard(old(buffer), arrivals)))
      ensures wrote == old(wrote) && portOpen == old(portOpen) && running == old(running)
    {
      var heard := ReadSerial(arrivals);
      seen := sleepEvent;
    }

    method WaitForWakeup(arrivals: seq<Read>) returns (seen: bool)
      requires Valid()
      modifies this
      ensures Valid()
      ensures seen == wakeupEvent
      ensures seen == (old(wakeupEvent) || AnyWakeOnly(Heard(old(buffer), arrivals)))
      ensures buffer == Rest(old(buffer) + Texts(arrivals))
      ensures logged == old(logged) + Heard(old(buffer), arrivals)
      ensures sleepEvent == (old(sleepEvent) || AnyHas(Heard(old(buffer), arrivals), SleepFlag))
      ensures wrote == old(wrote) && portOpen == old(portOpen) && running == old(running)
    {
      var heard := ReadSerial(arrivals);
      seen := wakeupEvent;
    }

    /**
     * `send_sleep_command`: the events are reset, the commands are written
     * in order (`accepted` writes succeed before the port raises), and the
     * result is whether the sleep flag arrives within the wait.
     */
    method SendSleepCommand(accepted: nat, arrivals: seq<Read>) returns (ok: bool)
      requires Valid()
      modifies this
      ensures Valid()
      ensures ok <==> accepted >= |SleepCommands| && AnyHas(Heard(old(buffer), arrivals), SleepFlag)
      ensures accepted >= |SleepCommands| ==> wrote == old(wrote) + SleepCommands
      ensures accepted < |SleepCommands| ==> wrote == old(wrote) + SleepCommands[..accepted] && buffer == old(buffer)
      ensures accepted < |SleepCommands| ==> logged == old(logged) && !sleepEvent && !wakeupEvent
      ensures accepted >= |SleepCommands| ==> (buffer == Rest(old(buffer) + Texts(arrivals))
        && logged == old(logged) + Heard(old(buffer), arrivals)
        && sleepEvent == AnyHas(Heard(old(buffer), arrivals), SleepFlag)
        && wakeupEvent == AnyWakeOnly(Heard(old(buffer), arrivals)))
      ensures portOpen == old(portOpen) && running == old(running)
    {
      ResetEvents();
      var i := 0;
      while i < |SleepCommands|
        invariant 0 <= i <= |SleepCommands| && i <= accepted
        invariant wrote == old(wrote) + SleepCommands[..i]
        invariant !sleepEvent && !wakeupEvent && buffer == old(buffer) && logged == old(logged)
        invariant portOpen == old(portOpen) && running == old(running)
      {
        if i >= accepted {
          return false;
        }
        wrote := wrote + [SleepCommands[i]];
        assert SleepCommands[..i + 1] == SleepCommands[..i] + [SleepCommands[i]];
        i := i + 1;
      }
      assert SleepCommands[..i] == SleepCommands;
      ok := WaitForSleep(arrivals);
    }

    /**
     * `run_single_test` with the connector built as intended (by device name
     * only): no BLE step when the device does not sleep, and otherwise the
     * verdict is the wake flag alone; the BLE result is only logged.
     */
    method RunSingleTest(t: Trial) returns (ok: bool)
      requires Valid()
      modifies this
      ensures Valid()
      ensures ok == RunVerdict(old(buffer), t)
      ensures buffer == RunBuffer(old(buffer), t)
      ensures logged == old(logged) + RunHeard(old(buffer), t)
      ensures sleepEvent == AnyHas(RunHeard(old(buffer), t), SleepFlag)
      ensures wakeupEvent == AnyWakeOnly(RunHeard(old(buffer), t))
      ensures wrote == old(wrote) + SleepCommands[..if Written(t) then |SleepCommands| else t.accepted]
      ensures portOpen == old(portOpen) && running == old(running)
    {
      ghost var b := buffer;
      ghost var log := logged;
      var slept := SendSleepCommand(t.accepted, t.sleepWait);
      assert t.accepted >= |SleepCommands| ==> SleepCommands[..if Written(t) then |SleepCommands| else t.accepted] == SleepCommands;
      if !slept {
        assert !AnyHas([], SleepFlag) && !AnyWakeOnly([]);
        return false;
      }
      ok := WaitForWakeup(t.wakeWait);
      Assoc(log, Heard(b, t.sleepWait), Heard(AfterSleep(b, t), t.wakeWait));
      AnyHasAppend(Heard(b, t.sleepWait), Heard(AfterSleep(b, t), t.wakeWait), SleepFlag);
      AnyWakeOnlyAppend(Heard(b, t.sleepWait), Heard(AfterSleep(b, t), t.wakeWait));
    }
  }

  /** What one test run meets: writes the port accepts, reads during the two waits, and the BLE result. */
  datatype Trial = Trial(accepted: nat, sleepWait: seq<Read>, bleOk: bool, wakeWait: seq<Read>)

  /** Whether both sleep commands are written, so that the sleep wait takes place. */
  predicate Written(t: Trial)
  {
    t.accepted >= |SleepCommands|
  }

  /** Whether the sleep flag is heard during the sleep wait of a run that starts from buffer `b`. */
  predicate Slept(b: string, t: Trial)
  {
    Written(t) && AnyHas(Heard(b, t.sleepWait), SleepFlag)
  }

  /** The reader's buffer once the sleep wait is over. */
  function AfterSleep(b: string, t: Trial): string
  {
    Rest(b + Texts(t.sleepWait))
  }

  /** The lines a run starting from buffer `b` hands on: none when a write fails, the wake wait's only once the device sleeps. */
  function RunHeard(b: string, t: Trial): seq<string>
  {
    if !Written(t) then []
    else if !Slept(b, t) then Heard(b, t.sleepWait)
    else Heard(b, t.sleepWait) + Heard(AfterSleep(b, t), t.wakeWait)
  }

  /** The reader's buffer once a run starting from buffer `b` is over. */
  function RunBuffer(b: string, t: Trial): string
  {
    if !Written(t) then b
    else if !Slept(b, t) then AfterSleep(b, t)
    else Rest(AfterSleep(b, t) + Texts(t.wakeWait))
  }

  /** The verdict of a run starting from buffer `b`: the device sleeps, and a line of the run raises the wake event. */
  predicate RunVerdict(b: string, t: Trial)
  {
    Slept(b, t) && AnyWakeOnly(RunHeard(b, t))
  }

  /**
   * A run succeeds exactly when the sleep flag is heard during the sleep
   * wait and the wake flag during either wait: a line with the wake flag
   * that arrives before the sleep flag is seen still counts, because
   * `reset_events` ran before the commands were written.
   */
  lemma RunVerdictIff(b: string, t: Trial)
    ensures RunVerdict(b, t) <==> (Written(t) && AnyHas(Heard(b, t.sleepWait), SleepFlag)
      && (AnyWakeOnly(Heard(b, t.sleepWait)) || AnyWakeOnly(Heard(AfterSleep(b, t), t.wakeWait))))
  {
    AnyWakeOnlyAppend(Heard(b, t.sleepWait), Heard(AfterSleep(b, t), t.wakeWait));
  }

  /** The BLE result never changes a run's verdict, nor what it leaves behind. */
  lemma BleResultIgnored(b: string, t: Trial)
    ensures RunVerdict(b, t) == RunVerdict(b, t.(bleOk := !t.bleOk))
    ensures RunBuffer(b, t) == RunBuffer(b, t.(bleOk := !t.bleOk))
  {
  }

  /** The verdicts of the runs in order, each starting from the buffer the one before left. */
  function Verdicts(b: string, trials: seq<Trial>): (vs: seq<bool>)
    ensures |vs| == |trials|
    decreases |trials|
  {
    if trials == [] then []
    else [RunVerdict(b, trials[0])] + Verdicts(RunBuffer(b, trials[0]), trials[1..])
  }

  /** The number of successful runs. */
  function CountTrue(vs: seq<bool>): nat
    decreases |vs|
  {
    if vs == [] then 0 else (if vs[0] then 1 else 0) + CountTrue(vs[1..])
  }

  /** A tally of successes is at most the number of runs, and positive exactly when some run succeeded. */
  lemma {:induction false} CountTruePositive(vs: seq<bool>)
    ensures CountTrue(vs) <= |vs|
    ensures CountTrue(vs) > 0 <==> exists i :: 0 <= i < |vs| && vs[i]
    decreases |vs|
  {
    if vs != [] {
      CountTruePositive(vs[1..]);
      if exists i :: 0 <= i < |vs| && vs[i] {
        var i :| 0 <= i < |vs| && vs[i];
        if i > 0 {
          assert vs[1..][i - 1] == vs[i];
        }
      }
      if exists i :: 0 <= i < |vs[1..]| && vs[1..][i] {
        var i :| 0 <= i < |vs[1..]| && vs[1..][i];
        assert vs[i + 1] == vs[1..][i];
      }
    }
  }

  /** Every run counts once, as a success or a failure. */
  datatype Tally = Tally(success: nat, failure: nat)

  /**
   * `main` with a working connector: when the monitor starts, every trial
   * is run from the empty buffer `start` leaves and counted, the monitor
   * is stopped whatever happens, and the result is whether any run
   * succeeded.
   */
  method RunTests(m: SerialMonitor, opens: bool, trials: seq<Trial>) returns (result: bool, t: Tally)
    requires m.Valid() && |trials| == TotalTests
    modifies m
    ensures !opens ==> !result && t == Tally(0, 0)
    ensures opens ==> t.success == CountTrue(Verdicts("", trials)) && t.success + t.failure == TotalTests
    ensures opens ==> !m.running
    ensures result <==> t.success > 0
  {
    var started := m.Start(opens);
    if !started {
      return false, Tally(0, 0);
    }
    var success, failure := 0, 0;
    var n := 0;
    assert trials[0..] == trials;
    while n < |trials|
      invariant 0 <= n <= |trials| && m.Valid()
      invariant success + failure == n
      invariant success + CountTrue(Verdicts(m.buffer, trials[n..])) == CountTrue(Verdicts("", trials))
    {
      assert trials[n..][0] == trials[n] && trials[n..][1..] == trials[n + 1..];
      var ok := m.RunSingleTest(trials[n]);
      if ok {
        success := success + 1;
      } else {
        failure := failure + 1;
      }
      n := n + 1;
    }
    m.Stop();
    t := Tally(success, failure);
    result := success > 0;
  }

  /** How a run of the script as written ends. */
  datatype RunEnd = Verdict(ok: bool) | TypeError

  /** The keyword parameters `BLEConnector.__init__` accepts (ble_control.py). */
  const ConnectorKeywords: set<string> := {"ble_device_name", "max_retries", "logger"}

  /** The keywords `run_single_test` passes to it. */
  const KeywordsPassed: set<string> := {"ble_device_name", "hci_device"}

  /** A call with keyword `k` that the callee does not declare raises `TypeError`. */
  predicate CallAccepted(passed: set<string>, declared: set<string>)
  {
    passed <= declared
  }

  /** `run_single_test` as written: once the device sleeps, building the connector raises. */
  function SingleTestAsWritten(slept: bool, woke: bool): (e: RunEnd)
  {
    if !slept then Verdict(false)
    else if !CallAccepted(KeywordsPassed, ConnectorKeywords) then TypeError
    else Verdict(woke)
  }

  /** `main` as written: the `TypeError` is not caught, so the first run that reaches the BLE step ends the script. */
  function MainAsWritten(runs: seq<(bool, bool)>): (e: RunEnd)
    decreases |runs|
  {
    if runs == [] then Verdict(false)
    else
      match SingleTestAsWritten(runs[0].0, runs[0].1)
      case TypeError => TypeError
      case Verdict(_) => MainAsWritten(runs[1..])
  }

  /**
   * The connector call passes `hci_device`, which neither `BLEConnector`
   * constructor declares: as written, a run in which the device sleeps never reaches its
   * wake check, and no run of the script can count a success.
   */
  lemma {:induction false} HciKeywordCrashes(runs: seq<(bool, bool)>)
    ensures !CallAccepted(KeywordsPassed, ConnectorKeywords)
    ensures forall w :: SingleTestAsWritten(true, w) == TypeError
    ensures (exists i :: 0 <= i < |runs| && runs[i].0) ==> MainAsWritten(runs) == TypeError
    ensures (forall i :: 0 <= i < |runs| ==> !runs[i].0) ==> MainAsWritten(runs) == Verdict(false)
    decreases |runs|
  {
    assert "hci_device" in KeywordsPassed && "hci_device" !in ConnectorKeywords;
    if runs != [] {
      HciKeywordCrashes(runs[1..]);
      if exists i :: 0 <= i < |runs| && runs[i].0 {
        var i :| 0 <= i < |runs| && runs[i].0;
        if i > 0 {
          assert runs[1..][i - 1] == runs[i];
        }
      }
      if forall i :: 0 <= i < |runs| ==> !runs[i].0 {
        assert forall i :: 0 <= i < |runs[1..]| ==> runs[1..][i] == runs[i + 1];
      }
    }
  }
}
