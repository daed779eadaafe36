/**
 * The BLE connection controller (`BLEConnector` of `ble_control.py`,
 * `ble_connector.py`, `test.py` and `daq_plotter.py`): running shell
 * commands, readying the adapter, scanning and connecting under the retry
 * wrapper, and the `run` flows that must release the lock on every path.
 *
 * Shell commands are oracles: a `Raw` value is what the process did, and
 * `RunCommand` is the tuple `_run_command` makes of it.
 */
module BleController {
  import opened Base
  import opened Text
  import Retry
  import Adapter
  import ScanMatch
  import Lock

  // ---------------------------------------------------------------------
  // `_run_command`

  /**
   * What the child process did: the lines it wrote to each stream (as
   * `readline` returns them) and its exit code, or it outlived the
   * timeout, or `Popen` itself raised.
   */
  datatype Raw = Completed(out: seq<string>, err: seq<string>, code: int) | Expired | SpawnFailed(reason: string)

  /** `(stdout, stderr, return_code, timed_out)`. */
  datatype CommandResult = CommandResult(stdout: string, stderr: string, code: int, timedOut: bool)

  /** Index of the first empty line, or `|lines|`. */
  function FirstEmpty(lines: seq<string>): (k: nat)
    ensures k <= |lines|
    ensures k < |lines| ==> lines[k] == ""
    ensures forall j :: 0 <= j < k ==> lines[j] != ""
  {
    if lines == [] || lines[0] == "" then 0 else 1 + FirstEmpty(lines[1..])
  }

  /** Every line stripped. */
  function StripAll(raw: seq<string>): (r: seq<string>)
    ensures |r| == |raw|
    ensures forall i :: 0 <= i < |raw| ==> r[i] == Strip(raw[i])
  {
    seq(|raw|, i requires 0 <= i < |raw| => Strip(raw[i]))
  }

  /**
   * The reading loop as written: every line is stripped, and an empty
   * result is taken for end of file, so the stream stops being read at its
   * first blank line.
   */
  function StreamAsWritten(raw: seq<string>): (kept: seq<string>)
    ensures |kept| <= |raw|
    ensures forall i :: 0 <= i < |kept| ==> kept[i] == Strip(raw[i]) && kept[i] != ""
    ensures |kept| < |raw| ==> Strip(raw[|kept|]) == ""
  {
    var lines := StripAll(raw);
    lines[..FirstEmpty(lines)]
  }

  /** The lines that are not empty, in order. */
  function NonBlank(lines: seq<string>): (kept: seq<string>)
    ensures |kept| <= |lines|
    ensures forall i :: 0 <= i < |kept| ==> kept[i] != ""
  {
    if lines == [] then []
    else if lines[0] == "" then NonBlank(lines[1..])
    else [lines[0]] + NonBlank(lines[1..])
  }

  /** The evident intent: read to the real end of the stream, keeping the non-blank stripped lines. */
  function StreamToEof(raw: seq<string>): (kept: seq<string>)
    ensures |kept| <= |raw|
    ensures forall i :: 0 <= i < |kept| ==> kept[i] != ""
  {
    NonBlank(StripAll(raw))
  }

  lemma {:induction false} NonBlankKeeps(lines: seq<string>, k: nat)
    requires k < |lines| && lines[k] != ""
    ensures lines[k] in NonBlank(lines)
  {
    if k > 0 {
      assert lines[1..][k - 1] == lines[k];
      NonBlankKeeps(lines[1..], k - 1);
    }
  }

  /** Every non-blank line of the stream is kept. */
  lemma StreamToEofKeeps(raw: seq<string>, k: nat)
    requires k < |raw| && Strip(raw[k]) != ""
    ensures Strip(raw[k]) in StreamToEof(raw)
  {
    NonBlankKeeps(StripAll(raw), k);
  }

  lemma {:induction false} NonBlankNoEmpty(lines: seq<string>)
    requires forall i :: 0 <= i < |lines| ==> lines[i] != ""
    ensures NonBlank(lines) == lines
  {
    if lines != [] {
      assert forall i :: 0 <= i < |lines| - 1 ==> lines[1..][i] == lines[i + 1];
      NonBlankNoEmpty(lines[1..]);
    }
  }

  /** Without blank lines the loop as written reads the whole stream. */
  lemma StreamsAgreeWithoutBlank(raw: seq<string>)
    requires forall i :: 0 <= i < |raw| ==> Strip(raw[i]) != ""
    ensures StreamAsWritten(raw) == StreamToEof(raw)
  {
    var lines := StripAll(raw);
    NonBlankNoEmpty(lines);
    assert lines[..FirstEmpty(lines)] == lines;
  }

  /** A blank line hides the lines after it: `"a\n\nb\n"` is read as `"a"` alone. */
  lemma BlankLineTruncates(a: string, b: string)
    requires Strip(a) != "" && Strip(b) != ""
    ensures StreamAsWritten([a, "", b]) == [Strip(a)]
    ensures StreamToEof([a, "", b]) == [Strip(a), Strip(b)]
  {
    var raw: seq<string> := [a, "", b];
    assert Strip(raw[1]) == "";
    var stripped := StripAll(raw);
    assert stripped == [Strip(a), "", Strip(b)];
    assert FirstEmpty(stripped[1..]) == 0;
    assert FirstEmpty(stripped) == 1;
    assert stripped[1..][1..] == [Strip(b)];
    assert NonBlank([Strip(b)]) == [Strip(b)] by {
      assert [Strip(b)][1..] == [];
    }
    assert NonBlank(stripped[1..]) == [Strip(b)];
    assert stripped[..1] == [Strip(a)];
  }

  const TimeoutMessage: string := "命令执行超时"

  /**
   * The result tuple: the kept lines joined by newlines and the exit code;
   * `("", "命令执行超时", -1, True)` after a timeout (the process is
   * terminated, then killed); `("异常: <e>", "执行错误", -1, False)` when
   * starting it raised.
   */
  function RunCommand(raw: Raw): (r: CommandResult)
    ensures raw.Expired? ==> r == CommandResult("", TimeoutMessage, -1, true)
    ensures raw.SpawnFailed? ==> r == CommandResult("异常: " + raw.reason, "执行错误", -1, false)
    ensures raw.Completed? ==> (!r.timedOut && r.code == raw.code
      && r.stdout == Join(StreamToEof(raw.out), "\n") && r.stderr == Join(StreamToEof(raw.err), "\n"))
  {
    match raw
    case Completed(out, err, code) => CommandResult(Join(StreamToEof(out), "\n"), Join(StreamToEof(err), "\n"), code, false)
    case Expired => CommandResult("", TimeoutMessage, -1, true)
    case SpawnFailed(reason) => CommandResult("异常: " + reason, "执行错误", -1, false)
  }

  /** A timed-out or unstartable command never shows any text in `stdout` of its own. */
  lemma FailedCommandStdout(raw: Raw, marker: string)
    requires !raw.Completed? && marker != "" && !Contains("异常: ", marker)
    requires raw.SpawnFailed? ==> !Contains("异常: " + raw.reason, marker)
    ensures !Contains(RunCommand(raw).stdout, marker)
  {
    if raw.Expired? {
      if Contains("", marker) {
        var i := ContainsOccurs("", marker);
      }
    }
  }

  /** A line of the process's stdout is found in the returned `stdout`. */
  lemma StdoutShowsLine(raw: Raw, k: nat)
    requires raw.Completed? && k < |raw.out| && Strip(raw.out[k]) != ""
    ensures Contains(RunCommand(raw).stdout, Strip(raw.out[k]))
  {
    StreamToEofKeeps(raw.out, k);
    var lines := StreamToEof(raw.out);
    var j :| 0 <= j < |lines| && lines[j] == Strip(raw.out[k]);
    JoinContains(lines, "\n", j);
  }

  lemma {:induction false} JoinContains(parts: seq<string>, sep: string, j: nat)
    requires j < |parts|
    ensures Contains(Join(parts, sep), parts[j])
  {
    if |parts| == 1 {
      assert Join(parts, sep) == parts[0];
      assert OccursAt(parts[0], parts[0], 0);
    } else if j == 0 {
      assert Join(parts, sep) == parts[0] + sep + Join(parts[1..], sep);
      assert OccursAt(Join(parts, sep), parts[0], 0);
    } else {
      JoinContains(parts[1..], sep, j - 1);
      assert Join(parts, sep) == parts[0] + sep + Join(parts[1..], sep);
      ContainsInfix(parts[0] + sep, Join(parts[1..], sep), "", parts[j]);
      assert parts[0] + sep + Join(parts[1..], sep) + "" == Join(parts, sep);
    }
  }

  // ---------------------------------------------------------------------
  // Commands

  function StatusCmd(hci: string): string { "hciconfig " + hci }
  function UpCmd(hci: string): string { "sudo hciconfig " + hci + " up" }
  function DownCmd(hci: string): string { "sudo hciconfig " + hci + " down" }
  function ResetCmd(hci: string): string { "sudo hciconfig " + hci + " reset" }
  const PkillCmd: string := "sudo pkill -f hcitool"
  function LeccCmd(hci: string, mac: string): string { "sudo timeout 30 hcitool -i " + hci + " lecc --random " + mac }

  const UpRunning: string := "UP RUNNING"

  // ---------------------------------------------------------------------
  // `ensure_adapter_ready` and `reset_adapter`

  /** The two status queries an attempt may make; the second is used only when the first shows the adapter down. */
  datatype EnsureTry = EnsureTry(first: Raw, second: Raw)

  predicate Running(raw: Raw)
  {
    Contains(RunCommand(raw).stdout, UpRunning)
  }

  /** An attempt of `_ensure_impl`: already running, or running after one `up`. */
  function EnsureOutcome(t: EnsureTry): (a: Retry.Attempt<bool>)
    ensures a.Ok? <==> Running(t.first) || Running(t.second)
    ensures a.Ok? ==> a.value
  {
    if Running(t.first) || Running(t.second) then Retry.Ok(true) else Retry.NoResult
  }

  /** The commands an attempt issues. */
  function EnsureCommands(hci: string, t: EnsureTry): seq<string>
  {
    if Running(t.first) then [StatusCmd(hci)] else [StatusCmd(hci), UpCmd(hci), StatusCmd(hci)]
  }

  /** No `up` is sent to a running adapter, and one that is down gets exactly one before it is checked again. */
  lemma EnsureCommandsShape(hci: string, t: EnsureTry)
    ensures Running(t.first) ==> UpCmd(hci) !in EnsureCommands(hci, t)
    ensures !Running(t.first) ==> EnsureCommands(hci, t) == [StatusCmd(hci), UpCmd(hci), StatusCmd(hci)]
  {
    if Running(t.first) {
      assert |UpCmd(hci)| != |StatusCmd(hci)|;
    }
  }

  function EnsureOutcomes(ts: seq<EnsureTry>): (outs: seq<Retry.Attempt<bool>>)
    ensures |outs| == |ts|
    ensures forall i :: 0 <= i < |ts| ==> outs[i] == EnsureOutcome(ts[i])
  {
    seq(|ts|, i requires 0 <= i < |ts| => EnsureOutcome(ts[i]))
  }

  function EnsureLog(hci: string, ts: seq<EnsureTry>): seq<string>
  {
    if ts == [] then [] else EnsureCommands(hci, ts[0]) + EnsureLog(hci, ts[1..])
  }

  /**
   * `ensure_adapter_ready`: `_ensure_impl` under the retry wrapper.  The
   * result is `True` or, after `max_retries` failed attempts, `None`.
   */
  method EnsureAdapterReady(hci: string, tries: seq<EnsureTry>, maxRetries: nat)
    returns (r: Option<bool>, waits: seq<nat>, commands: seq<string>)
    requires maxRetries <= |tries|
    ensures r.Some? <==> exists a :: 0 <= a < maxRetries && Ready(tries[a])
    ensures r.Some? ==> r.value
    ensures r.Some? ==> exists a :: (0 <= a < maxRetries && commands == EnsureLog(hci, tries[..a + 1])
      && waits == Retry.Waits(a) && Ready(tries[a]) && forall b :: 0 <= b < a ==> !Ready(tries[b]))
    ensures r.None? ==> (commands == EnsureLog(hci, tries[..maxRetries])
      && waits == Retry.Waits(if maxRetries == 0 then 0 else maxRetries - 1))
  {
    var outs := EnsureOutcomes(tries[..maxRetries]);
    var made;
    r, waits, made := Retry.RetryOperation(outs, None, maxRetries);
    assert outs[..maxRetries] == outs;
    EnsureFirstReady(tries, maxRetries);
    var k := Retry.FirstOk(outs);
    commands := EnsureLog(hci, tries[..maxRetries][..made]);
    if r.Some? {
      assert made == k + 1;
      assert tries[..maxRetries][..made] == tries[..k + 1];
    } else {
      assert tries[..maxRetries][..made] == tries[..maxRetries];
    }
  }

  /** Whether an attempt of `_ensure_impl` finds the adapter running. */
  predicate Ready(t: EnsureTry)
  {
    Running(t.first) || Running(t.second)
  }

  /** The first successful attempt among the first `n` is the first ready one. */
  lemma EnsureFirstReady(tries: seq<EnsureTry>, n: nat)
    requires n <= |tries|
    ensures var k := Retry.FirstOk(EnsureOutcomes(tries[..n]));
      k <= n && (k < n ==> Ready(tries[k])) && forall a :: 0 <= a < k ==> !Ready(tries[a])
  {
    var outs := EnsureOutcomes(tries[..n]);
    var k := Retry.FirstOk(outs);
    assert forall a :: 0 <= a < n ==> outs[a] == EnsureOutcome(tries[a]);
  }

  /** `_reset_impl`: down, reset, up with 1 s, 2 s and 2 s pauses, then success iff the status shows `UP RUNNING`. */
  function ResetOutcome(status: Raw): (a: Retry.Attempt<bool>)
    ensures a.Ok? <==> Running(status)
  {
    if Running(status) then Retry.Ok(true) else Retry.NoResult
  }

  function ResetCommands(hci: string): seq<string>
  {
    [DownCmd(hci), ResetCmd(hci), UpCmd(hci), StatusCmd(hci)]
  }

  /** `reset_adapter`: up to `max_retries` resets, `True` at the first that leaves the adapter running. */
  method ResetAdapter(hci: string, statuses: seq<Raw>, maxRetries: nat)
    returns (r: Option<bool>, waits: seq<nat>, made: nat, commands: seq<string>)
    requires maxRetries <= |statuses|
    ensures made <= maxRetries
    ensures r.Some? <==> exists a :: 0 <= a < maxRetries && Running(statuses[a])
    ensures r.Some? ==> (r.value && 1 <= made && Running(statuses[made - 1])
      && forall a :: 0 <= a < made - 1 ==> !Running(statuses[a]))
    ensures r.None? ==> made == maxRetries
    ensures made == ResetMade(statuses, maxRetries)
    ensures waits == ResetWaits(statuses, maxRetries)
    ensures commands == Repeat(ResetCommands(hci), made)
  {
    var outs := ResetOutcomes(statuses[..maxRetries]);
    r, waits, made := Retry.RetryOperation(outs, None, maxRetries);
    assert outs[..maxRetries] == outs;
    Retry.RetryNoneIff(outs);
    if r.Some? {
      var k := Retry.RetryResultWitness(outs);
      assert k == made - 1;
      assert forall a :: 0 <= a < k ==> outs[a] == ResetOutcome(statuses[a]);
    } else {
      assert forall a :: 0 <= a < maxRetries ==> outs[a] == ResetOutcome(statuses[a]);
    }
    commands := Repeat(ResetCommands(hci), made);
  }

  /** The attempts `reset_adapter` makes over `n` tries: up to the first status showing the adapter running. */
  function ResetMade(statuses: seq<Raw>, n: nat): (made: nat)
    requires n <= |statuses|
    ensures made <= n
    ensures made < n ==> 1 <= made && Running(statuses[made - 1])
    ensures forall a :: 0 <= a < made - 1 ==> !Running(statuses[a])
  {
    var outs := ResetOutcomes(statuses[..n]);
    var k := Retry.FirstOk(outs);
    assert forall a :: 0 <= a < n ==> outs[a] == ResetOutcome(statuses[a]);
    if k < n then k + 1 else n
  }

  /** The backoff waits between those attempts. */
  function ResetWaits(statuses: seq<Raw>, n: nat): seq<nat>
    requires n <= |statuses|
  {
    var made := ResetMade(statuses, n);
    Retry.Waits(if made == 0 then 0 else made - 1)
  }

  function ResetOutcomes(statuses: seq<Raw>): (outs: seq<Retry.Attempt<bool>>)
    ensures |outs| == |statuses|
    ensures forall i :: 0 <= i < |statuses| ==> outs[i] == ResetOutcome(statuses[i])
  {
    seq(|statuses|, i requires 0 <= i < |statuses| => ResetOutcome(statuses[i]))
  }

  // ---------------------------------------------------------------------
  // `connect_device`

  /** How the connection output is read: the first test that holds decides. */
  datatype ConnectKind = Connected | Refused | ConnTimedOut | UnknownState

  function Classify(r: CommandResult): ConnectKind
  {
    if Contains(r.stdout, "Connection handle") then Connected
    else if Contains(r.stderr, "Could not create connection") then Refused
    else if Contains(r.stderr, "Connection timed out") then ConnTimedOut
    else UnknownState
  }

  /**
   * An attempt of `_connect_impl`: `False` at once for an empty MAC;
   * otherwise `True` exactly when the output shows a connection handle.
   * Refusals, timeouts and unknown output are all plain failures.
   */
  function ConnectOutcome(mac: string, raw: Raw): (a: Retry.Attempt<bool>)
    ensures a.Ok? <==> mac != "" && HasHandle(raw)
    ensures a.Ok? ==> a.value
  {
    if mac == "" then Retry.NoResult
    else if Classify(RunCommand(raw)) == Connected then Retry.Ok(true)
    else Retry.NoResult
  }

  /** Every kind but `Connected` is a failed attempt. */
  lemma FailureKindsFail(mac: string, raw: Raw)
    requires Classify(RunCommand(raw)) != Connected
    ensures ConnectOutcome(mac, raw) == Retry.NoResult
  {
  }

  /** A timed-out `lecc` is a failure. */
  lemma ExpiredConnectFails(mac: string)
    ensures ConnectOutcome(mac, Expired) == Retry.NoResult
  {
    if Contains("", "Connection handle") {
      var i := ContainsOccurs("", "Connection handle");
    }
  }

  /** The commands of a connect attempt: nothing for an empty MAC. */
  function ConnectCommands(hci: string, mac: string): (cmds: seq<string>)
    ensures mac == "" <==> cmds == []
  {
    if mac == "" then [] else [PkillCmd, ResetCmd(hci), LeccCmd(hci, mac)]
  }

  function ConnectOutcomes(mac: string, raws: seq<Raw>): (outs: seq<Retry.Attempt<bool>>)
    ensures |outs| == |raws|
    ensures forall i :: 0 <= i < |raws| ==> outs[i] == ConnectOutcome(mac, raws[i])
  {
    seq(|raws|, i requires 0 <= i < |raws| => ConnectOutcome(mac, raws[i]))
  }

  /** What `connect_device` returns after `n` attempts. */
  function ConnectResult(mac: string, raws: seq<Raw>, n: nat): Option<bool>
    requires n <= |raws|
  {
    Retry.RetryResult(ConnectOutcomes(mac, raws[..n]))
  }

  predicate HasHandle(raw: Raw)
  {
    Contains(RunCommand(raw).stdout, "Connection handle")
  }

  /**
   * `connect_device`: `_connect_impl` under the retry wrapper.  The result
   * is `True` or `None`, never `False`; an empty MAC runs no command but
   * still makes every attempt, with the waits between them.
   */
  method ConnectDevice(hci: string, mac: string, raws: seq<Raw>, maxRetries: nat)
    returns (r: Option<bool>, waits: seq<nat>, made: nat, commands: seq<string>)
    requires maxRetries <= |raws|
    ensures made <= maxRetries
    ensures r.Some? <==> mac != "" && exists a :: 0 <= a < maxRetries && HasHandle(raws[a])
    ensures r.Some? ==> (r.value && 1 <= made && HasHandle(raws[made - 1])
      && forall a :: 0 <= a < made - 1 ==> !HasHandle(raws[a]))
    ensures r.None? ==> made == maxRetries
    ensures waits == Retry.Waits(if made == 0 then 0 else made - 1)
    ensures commands == Repeat(ConnectCommands(hci, mac), made)
    ensures mac == "" ==> commands == []
    ensures r == ConnectResult(mac, raws, maxRetries)
  {
    var outs := ConnectOutcomes(mac, raws[..maxRetries]);
    r, waits, made := Retry.RetryOperation(outs, None, maxRetries);
    assert outs[..maxRetries] == outs;
    Retry.RetryNoneIff(outs);
    if r.Some? {
      var k := Retry.RetryResultWitness(outs);
      assert k == made - 1;
      assert forall a :: 0 <= a < k ==> outs[a] == ConnectOutcome(mac, raws[a]);
    } else {
      assert forall a :: 0 <= a < maxRetries ==> outs[a] == ConnectOutcome(mac, raws[a]);
    }
    commands := Repeat(ConnectCommands(hci, mac), made);
  }

  // ---------------------------------------------------------------------
  // `scan_device`

  /**
   * One scan attempt: the statuses of the `reset_adapter` it runs first
   * (whose verdict it ignores), the polls of the scan file and its final
   * read.
   */
  datatype ScanTry = ScanTry(resets: seq<Raw>, polls: seq<Option<string>>, final: Option<string>)

  /** Every attempt's nested `reset_adapter` has its `n` statuses. */
  predicate ScanResetsGiven(tries: seq<ScanTry>, n: nat)
  {
    forall a :: 0 <= a < |tries| ==> n <= |tries[a].resets|
  }

  function ScanOutcome(t: ScanTry, target: string): (a: Retry.Attempt<string>)
    ensures a.Ok? <==> ScanMatch.ScanAttempt(t.polls, t.final, target).Some?
  {
    match ScanMatch.ScanAttempt(t.polls, t.final, target)
    case Some(mac) => Retry.Ok(mac)
    case None => Retry.NoResult
  }

  function ScanOutcomes(ts: seq<ScanTry>, target: string): (outs: seq<Retry.Attempt<string>>)
    ensures |outs| == |ts|
    ensures forall i :: 0 <= i < |ts| ==> outs[i] == ScanOutcome(ts[i], target)
  {
    seq(|ts|, i requires 0 <= i < |ts| => ScanOutcome(ts[i], target))
  }

  /** What `scan_device` returns after `n` attempts. */
  function ScanResult(tries: seq<ScanTry>, target: string, n: nat): Option<string>
    requires n <= |tries|
  {
    Retry.RetryResult(ScanOutcomes(tries[..n], target))
  }

  /**
   * `scan_device`: the polling attempt under the retry wrapper.  The MAC it
   * returns is the one the first successful attempt reports; `waits` are
   * the wrapper's backoffs, and `resetWaits[a]` the backoffs of the
   * `reset_adapter` that attempt `a` runs before scanning.
   */
  method ScanDevice(hci: string, tries: seq<ScanTry>, target: string, maxRetries: nat)
    returns (r: Option<string>, made: nat, waits: seq<nat>, resetWaits: seq<seq<nat>>)
    requires maxRetries <= |tries| && ScanResetsGiven(tries, maxRetries)
    ensures made <= maxRetries
    ensures waits == Retry.Waits(if made == 0 then 0 else made - 1)
    ensures |resetWaits| == made && forall a :: 0 <= a < made ==> resetWaits[a] == ResetWaits(tries[a].resets, maxRetries)
    ensures r.None? <==> forall a :: 0 <= a < maxRetries ==> ScanMatch.ScanAttempt(tries[a].polls, tries[a].final, target).None?
    ensures r.Some? ==> (1 <= made && r == ScanMatch.ScanAttempt(tries[made - 1].polls, tries[made - 1].final, target)
      && forall a :: 0 <= a < made - 1 ==> ScanMatch.ScanAttempt(tries[a].polls, tries[a].final, target).None?)
    ensures r.None? ==> made == maxRetries
    ensures r == ScanResult(tries, target, maxRetries)
  {
    var outs := ScanOutcomes(tries[..maxRetries], target);
    r, waits, made := Retry.RetryOperation(outs, None, maxRetries);
    assert outs[..maxRetries] == outs;
    Retry.RetryNoneIff(outs);
    if r.Some? {
      var k := Retry.RetryResultWitness(outs);
      assert k == made - 1;
      assert tries[..maxRetries][k] == tries[k];
      assert forall a :: 0 <= a < k ==> outs[a] == ScanOutcome(tries[a], target);
    } else {
      assert forall a :: 0 <= a < maxRetries ==> outs[a] == ScanOutcome(tries[a], target);
    }
    resetWaits := ScanResets(hci, tries, made, maxRetries);
  }

  /** The `reset_adapter` runs of the first `made` scan attempts, in order. */
  method ScanResets(hci: string, tries: seq<ScanTry>, made: nat, maxRetries: nat) returns (resetWaits: seq<seq<nat>>)
    requires made <= |tries| && ScanResetsGiven(tries, maxRetries)
    ensures |resetWaits| == made && forall a :: 0 <= a < made ==> resetWaits[a] == ResetWaits(tries[a].resets, maxRetries)
  {
    resetWaits := [];
    var a := 0;
    while a < made
      invariant 0 <= a <= made && |resetWaits| == a
      invariant forall j :: 0 <= j < a ==> resetWaits[j] == ResetWaits(tries[j].resets, maxRetries)
    {
      var _, w, _, _ := ResetAdapter(hci, tries[a].resets, maxRetries);
      resetWaits := resetWaits + [w];
      a := a + 1;
    }
  }

  /**
   * The temporary scan files `ble_control.py` leaves behind: every attempt
   * writes a new file and only the one named last is deleted after the
   * retry wrapper returns.
   */
  function ScanFilesLeftAsWritten(created: seq<string>): (left: set<string>)
    ensures forall i :: 0 <= i < |created| - 1 && created[i] != created[|created| - 1] ==> created[i] in left
  {
    if created == [] then {} else (set i | 0 <= i < |created| - 1 :: created[i]) - {created[|created| - 1]}
  }

  /** Two attempts with their own file names leave the first file behind. */
  lemma ScanFilesLeak()
    ensures ScanFilesLeftAsWritten(["ble_scan_1.txt", "ble_scan_2.txt"]) == {"ble_scan_1.txt"}
  {
    var c := ["ble_scan_1.txt", "ble_scan_2.txt"];
    assert c[0] != c[1];
    assert ScanFilesLeftAsWritten(c) == {c[0]} - {c[1]};
  }

  /**
   * `ble_connector.py`'s cleanup: each attempt deletes its own file in its
   * `finally`, so the files on disk after the attempts are the ones there
   * before, less every scan file.
   */
  function ScanFilesAfter(before: set<string>, created: seq<string>): (after: set<string>)
    ensures forall f :: f in after ==> f in before
    ensures forall i :: 0 <= i < |created| ==> created[i] !in after
  {
    if created == [] then before
    else ScanFilesAfter((before + {created[0]}) - {created[0]}, created[1..])
  }

  /** No scan file of the attempts is left behind, whatever was on disk. */
  lemma ScanFilesCleaned(created: seq<string>)
    ensures ScanFilesAfter({}, created) == {}
  {
  }

  // ---------------------------------------------------------------------
  // The constructors

  /** A Python argument as the validation sees it: `None`, a `str`, or any other object. */
  datatype PyValue = PyNone | PyStr(s: string) | PyOther

  /**
   * `not v or not isinstance(v, str) or v.strip() == ""` is false: the
   * check of the device name (second class of `ble_control.py`) and of the
   * MAC (`daq_plotter.py`).
   */
  predicate ValidName(v: PyValue)
  {
    v.PyStr? && Strip(v.s) != ""
  }

  /** How a constructor ends: an instance on the detected adapter, `ValueError`, `sys.exit(1)`, or `AttributeError`. */
  datatype CtorResult = Built(hci: string) | NameRejected | Exited | LoggerMissing

  /**
   * The adapter `_detect_usb_bluetooth_dongle` picks, `None` standing for
   * its `sys.exit(1)`: the first running USB adapter, or in `test.py` the
   * best-scored one.
   */
  function Detected(byScore: bool, code: int, stdout: string): (d: Option<string>)
    ensures code != 0 ==> d == None
    ensures code == 0 && !byScore ==> d == Adapter.Selected(Split(stdout, '\n'))
    ensures code == 0 && byScore ==> d == Adapter.Choose(Adapter.Records(Split(stdout, '\n')))
  {
    if code != 0 then None
    else if byScore then Adapter.Choose(Adapter.Records(Split(stdout, '\n')))
    else Adapter.Selected(Split(stdout, '\n'))
  }

  /**
   * A constructor in the order it runs: the optional name check, adapter
   * detection, then `ensure_adapter_ready`, any failure of the last two
   * ending the process.
   */
  function CtorOutcome(validates: bool, name: PyValue, detected: Option<string>, ready: bool): (c: CtorResult)
    ensures c.NameRejected? <==> validates && !ValidName(name)
    ensures c.Built? <==> (!validates || ValidName(name)) && detected.Some? && ready
    ensures c.Built? ==> detected == Some(c.hci)
    ensures !c.LoggerMissing?
  {
    if validates && !ValidName(name) then NameRejected
    else if detected.None? || !ready then Exited
    else Built(detected.value)
  }

  /**
   * `__init__` of the working variants: `BLEConnector` of `ble_control.py`
   * (first class), `ble_connector.py` and `test.py` (no name check), and
   * `daq_plotter.py` (MAC check).  `hciconfig` is run once and its result
   * is an input.
   */
  method Create(validates: bool, byScore: bool, name: PyValue, code: int, stdout: string, tries: seq<EnsureTry>, maxRetries: nat)
    returns (c: CtorResult)
    requires maxRetries <= |tries|
    ensures c == CtorOutcome(validates, name, Detected(byScore, code, stdout),
      exists a :: 0 <= a < maxRetries && (Running(tries[a].first) || Running(tries[a].second)))
  {
    if validates && !ValidName(name) {
      return NameRejected;
    }
    var hci: Option<string>;
    if byScore {
      var devices;
      hci, devices := Adapter.DetectByScore(code, stdout);
    } else {
      hci := Adapter.DetectFirstRunning(code, stdout);
    }
    if hci.None? {
      return Exited;
    }
    var ready, waits, commands := EnsureAdapterReady(hci.value, tries, maxRetries);
    if ready.None? {
      return Exited;
    }
    c := Built(hci.value);
  }

  /**
   * The second class of `ble_control.py` as written: its logger setup is
   * commented out, yet every path of its adapter detection calls
   * `self.logger` (on a failed `hciconfig`, on the first USB header, when no
   * USB adapter exists, and in the exception handler), so a valid name
   * always ends in `AttributeError`, whatever `hciconfig` reports.
   */
  function SecondCtorAsWritten(name: PyValue): (c: CtorResult)
    ensures c.NameRejected? <==> !ValidName(name)
  {
    if !ValidName(name) then NameRejected else LoggerMissing
  }

  /** No input builds an instance of the second class as written, while logging through `thread_terminal_logging` as everywhere else does. */
  lemma SecondCtorNeverBuilds(name: PyValue, code: int, stdout: string)
    requires ValidName(name) && code == 0
    requires Adapter.UsbNames(Split(stdout, '\n')) != []
    ensures SecondCtorAsWritten(name) == LoggerMissing
    ensures CtorOutcome(true, name, Detected(false, code, stdout), true).Built?
  {
    Adapter.SelectedNoneIff(Split(stdout, '\n'));
  }

  // ---------------------------------------------------------------------
  // `run`

  /** `scan_device` as `run` uses it: only the MAC matters. */
  method ScanFor(hci: string, tries: seq<ScanTry>, target: string, maxRetries: nat) returns (mac: Option<string>)
    requires maxRetries <= |tries| && ScanResetsGiven(tries, maxRetries)
    ensures mac == ScanResult(tries, target, maxRetries)
  {
    var made, waits, resetWaits;
    mac, made, waits, resetWaits := ScanDevice(hci, tries, target, maxRetries);
  }

  /** `connect_device` as `run` uses it: only the result matters. */
  method ConnectTo(hci: string, mac: string, raws: seq<Raw>, maxRetries: nat) returns (r: Option<bool>)
    requires maxRetries <= |raws|
    ensures r == ConnectResult(mac, raws, maxRetries)
  {
    var waits, made, commands;
    r, waits, made, commands := ConnectDevice(hci, mac, raws, maxRetries);
  }

  /** The steps of `run` in the order they happen. */
  datatype Step = AcquireStep | ScanStep | ConnectStep(mac: string) | ReleaseStep

  /** The step of `run` from which an unexpected exception escapes to its `except`. */
  datatype Stage = InAcquire | InScan | InConnect

  /** `if not self.ble_mac`: no MAC, or an empty one. */
  predicate Found(mac: Option<string>)
  {
    mac.Some? && mac.value != ""
  }

  /**
   * The steps of the scanning `run`: lock, scan, connect only with a MAC,
   * and the `finally` release last on every path.
   */
  function ScanFlow(mac: Option<string>, fault: Option<Stage>): (steps: seq<Step>)
    ensures |steps| >= 2 && steps[0] == AcquireStep && steps[|steps| - 1] == ReleaseStep
    ensures forall i :: 0 <= i < |steps| - 1 ==> steps[i] != ReleaseStep
    ensures forall m :: ConnectStep(m) in steps <==> (Found(mac) && m == mac.value
      && fault != Some(InAcquire) && fault != Some(InScan))
  {
    if fault == Some(InAcquire) then [AcquireStep, ReleaseStep]
    else if fault == Some(InScan) || !Found(mac) then [AcquireStep, ScanStep, ReleaseStep]
    else [AcquireStep, ScanStep, ConnectStep(mac.value), ReleaseStep]
  }

  /** The steps of `daq_plotter.py`'s `run`: lock, connect to the given MAC, release. */
  function MacFlow(mac: string, fault: Option<Stage>): (steps: seq<Step>)
    ensures |steps| >= 2 && steps[0] == AcquireStep && steps[|steps| - 1] == ReleaseStep
    ensures forall i :: 0 <= i < |steps| - 1 ==> steps[i] != ReleaseStep
    ensures ScanStep !in steps
    ensures forall m :: ConnectStep(m) in steps <==> m == mac && fault != Some(InAcquire)
  {
    if fault == Some(InAcquire) then [AcquireStep, ReleaseStep]
    else [AcquireStep, ConnectStep(mac), ReleaseStep]
  }

  /**
   * What `run` leaves behind: its verdict, `ble_mac`, `connection_success`,
   * and the scan result when the scan ran to its end (`None` otherwise).
   */
  datatype RunState = RunState(ok: bool, mac: Option<string>, conn: Option<bool>, scanned: Option<string>)

  /**
   * The verdict and fields after the scanning `run`, from the fields before
   * it: the scan result replaces `ble_mac` unless an exception came first,
   * and `connection_success` is replaced only when a MAC was found and
   * `connect_device` returned.
   */
  function ScanRun(name: string, scans: seq<ScanTry>, raws: seq<Raw>, n: nat, fault: Option<Stage>,
                   mac0: Option<string>, conn0: Option<bool>): (st: RunState)
    requires n <= |scans| && n <= |raws|
  {
    if fault == Some(InAcquire) || fault == Some(InScan) then RunState(false, mac0, conn0, None)
    else
      var mac := ScanResult(scans, name, n);
      if !Found(mac) || fault == Some(InConnect) then RunState(false, mac, conn0, mac)
      else
        var c := ConnectResult(mac.value, raws, n);
        RunState(c == Some(true), mac, c, mac)
  }

  /** The scan and connect steps of `run`, after the lock. */
  method ScanStage(name: string, hci: string, scans: seq<ScanTry>, raws: seq<Raw>, n: nat, fault: Option<Stage>, st0: RunState)
    returns (st: RunState)
    requires n <= |scans| && n <= |raws| && ScanResetsGiven(scans, n) && fault != Some(InAcquire) && !st0.ok && st0.scanned.None?
    ensures st == ScanRun(name, scans, raws, n, fault, st0.mac, st0.conn)
  {
    st := st0;
    if fault != Some(InScan) {
      var mac := ScanFor(hci, scans, name, n);
      st := RunState(false, mac, st0.conn, mac);
      if Found(mac) && fault != Some(InConnect) {
        var c := ConnectTo(hci, mac.value, raws, n);
        st := RunState(c == Some(true), mac, c, mac);
      }
    }
  }

  /** `run` succeeds only with no exception, a found MAC and a connection. */
  lemma ScanRunOk(name: string, scans: seq<ScanTry>, raws: seq<Raw>, n: nat, fault: Option<Stage>, mac0: Option<string>, conn0: Option<bool>)
    requires n <= |scans| && n <= |raws|
    ensures var st := ScanRun(name, scans, raws, n, fault, mac0, conn0);
      st.ok <==> (fault.None? && Found(ScanResult(scans, name, n))
        && ConnectResult(ScanResult(scans, name, n).value, raws, n) == Some(true))
  {
    if fault.Some? {
      match fault.value
      case InAcquire =>
      case InScan =>
      case InConnect =>
    }
  }

  /** `get_connection_result`. */
  datatype Report = Report(success: Option<bool>, macAddress: Option<string>, hciDevice: string)

  /**
   * `BLEConnector` of `ble_control.py` (first class) with its plain lock
   * file `/tmp/.ble_lock_<hci>`.  `connectionSuccess` is `Some(false)` until
   * a connection is made; `connect_device` yields `True` or `None`.
   */
  class PlainConnector {
    const hci: string
    const name: string
    const maxRetries: nat
    const lock: Lock.PlainLock
    var connectionSuccess: Option<bool>
    var bleMac: Option<string>
    var lockFile: Option<string>
    var steps: seq<Step>

    constructor(hci: string, name: string, maxRetries: nat)
      ensures this.hci == hci && this.name == name && this.maxRetries == maxRetries
      ensures fresh(lock) && lock.path == "/tmp/.ble_lock_" + hci && !lock.present
      ensures connectionSuccess == Some(false) && bleMac == None && lockFile == None && steps == []
    {
      this.hci := hci;
      this.name := name;
      this.maxRetries := maxRetries;
      lock := new Lock.PlainLock("/tmp/.ble_lock_" + hci);
      connectionSuccess := Some(false);
      bleMac := None;
      lockFile := None;
      steps := [];
    }

    /**
     * `run`: the acquire result overwrites `lock_file` (a failure only
     * warns), the scan result `ble_mac`, and only a found MAC is connected
     * to.  The `finally` deletes the lock file whenever `lock_file` is set
     * and the file can be removed.
     */
    method Run(lockTries: seq<Lock.PlainTry>, pid: nat, scans: seq<ScanTry>, raws: seq<Raw>, fault: Option<Stage>, removable: bool)
      returns (ok: bool)
      requires maxRetries <= |lockTries| && maxRetries <= |scans| && maxRetries <= |raws| && ScanResetsGiven(scans, maxRetries)
      requires forall t :: 0 <= t < |lockTries| ==> |lockTries[t].polls| > Lock.TimeoutPoll(1)
      modifies this, lock
      ensures var st := ScanRun(name, scans, raws, maxRetries, fault, old(bleMac), old(connectionSuccess));
        ok == st.ok && bleMac == st.mac && connectionSuccess == st.conn
        && steps == old(steps) + ScanFlow(st.scanned, fault)
      ensures fault == Some(InAcquire) ==> lockFile == old(lockFile)
      ensures fault != Some(InAcquire) ==> (lockFile.Some? <==> exists t :: 0 <= t < maxRetries && lockTries[t].written)
      ensures fault != Some(InAcquire) && lockFile.Some? ==> (lockFile == Some(lock.path)
        && (removable ==> !lock.present) && (!removable ==> lock.present && lock.owner == Some(pid)))
    {
      var st := RunState(false, bleMac, connectionSuccess, None);
      var file := lockFile;
      if fault != Some(InAcquire) {
        var failures;
        file, failures := lock.AcquireRetried(lockTries, maxRetries, 1, pid);
        st := ScanStage(name, hci, scans, raws, maxRetries, fault, st);
      }
      lock.Release(file.Some?, removable);
      lockFile := file;
      ok, bleMac, connectionSuccess := st.ok, st.mac, st.conn;
      steps := steps + ScanFlow(st.scanned, fault);
    }

    /** `get_connection_result`. */
    function Result(): (r: Report)
      reads this
      ensures r.success == connectionSuccess && r.macAddress == bleMac && r.hciDevice == hci
    {
      Report(connectionSuccess, bleMac, hci)
    }
  }

  /** `acquire_lock(max_retries=3)`. */
  const LockRetries: nat := 3

  /**
   * `BLEConnector` of `ble_connector.py`, `test.py` and the second class of
   * `ble_control.py` with the `flock` lock on `/tmp/.ble_lock_<hci>`;
   * `recordsFile` is set for `ble_connector.py`, whose acquire also sets
   * `lock_file`.
   */
  class FlockConnector {
    const hci: string
    const name: string
    const maxRetries: nat
    const lock: Lock.FcntlLock
    var connectionSuccess: Option<bool>
    var bleMac: Option<string>
    var steps: seq<Step>

    predicate Valid()
      reads this, lock
    {
      lock.Valid()
    }

    constructor(hci: string, name: string, maxRetries: nat, recordsFile: bool)
      ensures Valid()
      ensures this.hci == hci && this.name == name && this.maxRetries == maxRetries
      ensures fresh(lock) && lock.path == "/tmp/.ble_lock_" + hci && lock.recordsFile == recordsFile
      ensures lock.lockFd == None && lock.lockFile == None
      ensures connectionSuccess == Some(false) && bleMac == None && steps == []
    {
      this.hci := hci;
      this.name := name;
      this.maxRetries := maxRetries;
      lock := new Lock.FcntlLock("/tmp/.ble_lock_" + hci, recordsFile);
      connectionSuccess := Some(false);
      bleMac := None;
      steps := [];
    }

    /**
     * `run`: as in the plain variant, but the lock is the `flock`; `run`
     * itself overwrites `lock_file` with the acquire result, and the
     * `finally` unlocks the fd and removes the file.  Unless the exception
     * came from the acquire itself, no fd and no `lock_file` are left.
     */
    method Run(attempts: seq<Lock.FlockTry>, scans: seq<ScanTry>, raws: seq<Raw>, fault: Option<Stage>)
      returns (ok: bool)
      requires Valid()
      requires LockRetries <= |attempts| && maxRetries <= |scans| && maxRetries <= |raws| && ScanResetsGiven(scans, maxRetries)
      requires forall a :: 0 <= a < |attempts| ==> |attempts[a].tries| <= 1 + Lock.MaxPolls
      modifies this, lock
      ensures Valid()
      ensures var st := ScanRun(name, scans, raws, maxRetries, fault, old(bleMac), old(connectionSuccess));
        ok == st.ok && bleMac == st.mac && connectionSuccess == st.conn
        && steps == old(steps) + ScanFlow(st.scanned, fault)
      ensures lock.lockFd == None && !lock.held
      ensures fault != Some(InAcquire) ==> lock.lockFile == None
      ensures fault != Some(InAcquire) && Retry.RetryResult(Lock.Outcomes(attempts[..LockRetries], lock.path)).Some? ==> !lock.fileExists
    {
      var st := RunState(false, bleMac, connectionSuccess, None);
      if fault != Some(InAcquire) {
        var file, waits, made := lock.Acquire(attempts, LockRetries);
        lock.SetLockFile(file);
        st := ScanStage(name, hci, scans, raws, maxRetries, fault, st);
      }
      ghost var held := lock.lockFd.Some?;
      lock.Release();
      ok, bleMac, connectionSuccess := st.ok, st.mac, st.conn;
      steps := steps + ScanFlow(st.scanned, fault);
    }

    /** `get_connection_result`. */
    function Result(): (r: Report)
      reads this
      ensures r.success == connectionSuccess && r.macAddress == bleMac && r.hciDevice == hci
    {
      Report(connectionSuccess, bleMac, hci)
    }
  }

  /** `run` of `daq_plotter.py`: the verdict and `connection_success` after it. */
  function MacRun(mac: string, raws: seq<Raw>, n: nat, fault: Option<Stage>, conn0: Option<bool>): (st: RunState)
    requires n <= |raws|
  {
    if fault.Some? then RunState(false, Some(mac), conn0, None)
    else
      var c := ConnectResult(mac, raws, n);
      RunState(c == Some(true), Some(mac), c, None)
  }

  /**
   * The MAC-only `BLEConnector` of `daq_plotter.py`: the MAC is given and
   * checked by the constructor, and `run` connects to it without scanning.
   */
  class MacConnector {
    const hci: string
    const mac: string
    const maxRetries: nat
    const lock: Lock.FcntlLock
    var connectionSuccess: Option<bool>
    var steps: seq<Step>

    predicate Valid()
      reads this, lock
    {
      lock.Valid() && mac != ""
    }

    constructor(hci: string, mac: PyValue, maxRetries: nat)
      requires ValidName(mac)
      ensures Valid()
      ensures this.hci == hci && this.mac == mac.s && this.maxRetries == maxRetries
      ensures fresh(lock) && lock.path == "/tmp/.ble_lock_" + hci && !lock.recordsFile
      ensures lock.lockFd == None && lock.lockFile == None
      ensures connectionSuccess == Some(false) && steps == []
    {
      this.hci := hci;
      this.mac := mac.s;
      this.maxRetries := maxRetries;
      lock := new Lock.FcntlLock("/tmp/.ble_lock_" + hci, false);
      connectionSuccess := Some(false);
      steps := [];
    }

    /** `run`: lock, connect to the given MAC, and release in `finally`. */
    method Run(attempts: seq<Lock.FlockTry>, raws: seq<Raw>, fault: Option<Stage>) returns (ok: bool)
      requires Valid()
      requires LockRetries <= |attempts| && maxRetries <= |raws|
      requires forall a :: 0 <= a < |attempts| ==> |attempts[a].tries| <= 1 + Lock.MaxPolls
      modifies this, lock
      ensures Valid()
      ensures var st := MacRun(mac, raws, maxRetries, fault, old(connectionSuccess));
        ok == st.ok && connectionSuccess == st.conn
      ensures steps == old(steps) + MacFlow(mac, fault)
      ensures lock.lockFd == None && !lock.held
      ensures fault != Some(InAcquire) ==> lock.lockFile == None
    {
      ok := false;
      var conn := connectionSuccess;
      if fault != Some(InAcquire) {
        var file, waits, made := lock.Acquire(attempts, LockRetries);
        lock.SetLockFile(file);
        if fault.None? {
          conn := ConnectTo(hci, mac, raws, maxRetries);
          ok := conn == Some(true);
        }
      }
      lock.Release();
      connectionSuccess := conn;
      steps := steps + MacFlow(mac, fault);
    }

    /** `get_connection_result`: the MAC reported is always the constructor's. */
    function Result(): (r: Report)
      reads this
      ensures r.macAddress == Some(mac) && r.success == connectionSuccess && r.hciDevice == hci
    {
      Report(connectionSuccess, Some(mac), hci)
    }
  }
}
