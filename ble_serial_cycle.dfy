/**
 * The wake-up cycle script `all_ble_serail.py`: shell commands through
 * `run_command`, adapter reset and readiness loops, the plain lock file
 * `/tmp/.ble_lock`, scanning with the last match, the unjudged connect,
 * waiting for a flag on the serial port, the test cycle and its tally.
 *
 * Every external effect is an oracle input: what a command did, what the
 * scan file holds, what each read of the serial port returned.  Sleeps are
 * counted, not timed.
 */
module BleSerialCycle {
  import opened Base
  import opened Text
  import ScanMatch
  import Lock

  // ---------------------------------------------------------------------
  // `run_command`

  /** What `subprocess.run` did: it finished with this output, timed out, or raised. */
  datatype Proc = Done(out: string, err: string) | TimedOut | Crashed(reason: string)

  /** `(stdout, stderr)`; `None` where nothing was captured. */
  datatype Output = Output(out: Option<string>, err: Option<string>)

  /**
   * `run_command`: stripped output when captured, `(None, None)` when not,
   * and fixed texts after a timeout or an exception, captured or not.
   */
  function RunCommand(p: Proc, capture: bool): (r: Output)
    ensures r.out.None? <==> p.Done? && !capture
    ensures r.out.None? <==> r.err.None?
    ensures p.Done? && capture ==> r == Output(Some(Strip(p.out)), Some(Strip(p.err)))
    ensures p.TimedOut? ==> r == Output(Some("命令执行超时"), Some("超时错误"))
    ensures p.Crashed? ==> r == Output(Some("异常: " + p.reason), Some("执行错误"))
  {
    match p
    case Done(out, err) => if capture then Output(Some(Strip(out)), Some(Strip(err))) else Output(None, None)
    case TimedOut => Output(Some("命令执行超时"), Some("超时错误"))
    case Crashed(reason) => Output(Some("异常: " + reason), Some("执行错误"))
  }

  /** The `stdout` of a captured command, which is never `None`. */
  function Captured(p: Proc): (s: string)
    ensures RunCommand(p, true).out == Some(s)
  {
    RunCommand(p, true).out.value
  }

  /** `"UP RUNNING" in stdout` for the captured output of a status query. */
  predicate Up(status: string)
  {
    Contains(status, "UP RUNNING")
  }

  /** A status query that timed out reads as an adapter that is down. */
  lemma TimeoutNotUp()
    ensures !Up(Captured(TimedOut))
  {
    assert |Captured(TimedOut)| < |"UP RUNNING"|;
  }

  // ---------------------------------------------------------------------
  // `reset_adapter`. Each status query is given by the `stdout` that
  // `run_command` returned for it.

  /** Index of the first status showing the adapter up, or `|statuses|`. */
  function FirstUp(statuses: seq<string>): (k: nat)
    ensures k <= |statuses|
    ensures k < |statuses| ==> Up(statuses[k])
    ensures forall j :: 0 <= j < k ==> !Up(statuses[j])
  {
    if statuses == [] || Up(statuses[0]) then 0 else 1 + FirstUp(statuses[1..])
  }

  lemma {:induction false} FirstUpAt(statuses: seq<string>, k: nat)
    requires k <= |statuses|
    requires k < |statuses| ==> Up(statuses[k])
    requires forall j :: 0 <= j < k ==> !Up(statuses[j])
    ensures FirstUp(statuses) == k
  {
    if k > 0 {
      FirstUpAt(statuses[1..], k - 1);
    }
  }

  /** Whether `reset_adapter(hci, n)` returns `True`. */
  predicate ResetOk(statuses: seq<string>, n: nat)
  {
    n <= |statuses| && FirstUp(statuses[..n]) < n
  }

  /**
   * `reset_adapter`: each attempt resets the HCI device, resets the LE
   * controller, brings it up (none of them captured) and queries its
   * status; `True` at the first status showing `UP RUNNING`, `False` after
   * `max_retries` attempts, with a 2 s sleep after every failed one.
   */
  method ResetAdapter(statuses: seq<string>, maxRetries: nat) returns (ok: bool, attempts: nat, sleeps: nat)
    requires maxRetries <= |statuses|
    ensures ok == ResetOk(statuses, maxRetries)
    ensures ok ==> attempts == FirstUp(statuses[..maxRetries]) + 1 && Up(statuses[attempts - 1])
    ensures !ok ==> attempts == maxRetries
    ensures sleeps == (if ok then attempts - 1 else attempts)
    ensures sleeps == ResetSleeps(statuses, maxRetries)
  {
    attempts := 0;
    sleeps := 0;
    ghost var prefix := statuses[..maxRetries];
    while attempts < maxRetries
      invariant 0 <= attempts <= maxRetries
      invariant forall j :: 0 <= j < attempts ==> !Up(prefix[j])
      invariant sleeps == attempts
    {
      assert prefix[attempts] == statuses[attempts];
      if Up(statuses[attempts]) {
        FirstUpAt(prefix, attempts);
        return true, attempts + 1, sleeps;
      }
      sleeps := sleeps + 1;
      attempts := attempts + 1;
    }
    FirstUpAt(prefix, maxRetries);
    ok := false;
  }

  /** The 2 s sleeps of `reset_adapter(hci, n)`: one after each attempt before the first that shows the adapter up. */
  function ResetSleeps(statuses: seq<string>, n: nat): (k: nat)
    ensures k <= n
  {
    if ResetOk(statuses, n) then FirstUp(statuses[..n]) else n
  }

  /** `reset_adapter` succeeds exactly when one of its status queries shows the adapter up. */
  lemma ResetOkIff(statuses: seq<string>, n: nat)
    requires n <= |statuses|
    ensures ResetOk(statuses, n) <==> exists j :: 0 <= j < n && Up(statuses[j])
  {
    var prefix := statuses[..n];
    if ResetOk(statuses, n) {
      var k := FirstUp(prefix);
      assert prefix[k] == statuses[k];
    } else {
      forall j | 0 <= j < n
        ensures !Up(statuses[j])
      {
        assert prefix[j] == statuses[j];
      }
    }
  }

  // ---------------------------------------------------------------------
  // `ensure_adapter_ready`

  /**
   * One attempt: the status before and after `up`, and the statuses of the
   * `reset_adapter` (three attempts) that follows when both show the
   * adapter down.  The reset's verdict is printed and ignored.
   */
  datatype ReadyTry = ReadyTry(first: string, second: string, resets: seq<string>)

  predicate TryUp(t: ReadyTry)
  {
    Up(t.first) || Up(t.second)
  }

  /** Every reset that an attempt may run has its three statuses. */
  predicate ResetsGiven(ts: seq<ReadyTry>)
  {
    forall a :: 0 <= a < |ts| ==> 3 <= |ts[a].resets|
  }

  function FirstReady(ts: seq<ReadyTry>): (k: nat)
    ensures k <= |ts|
    ensures k < |ts| ==> TryUp(ts[k])
    ensures forall j :: 0 <= j < k ==> !TryUp(ts[j])
  {
    if ts == [] || TryUp(ts[0]) then 0 else 1 + FirstReady(ts[1..])
  }

  lemma {:induction false} FirstReadyAt(ts: seq<ReadyTry>, k: nat)
    requires k <= |ts|
    requires k < |ts| ==> TryUp(ts[k])
    requires forall j :: 0 <= j < k ==> !TryUp(ts[j])
    ensures FirstReady(ts) == k
  {
    if k > 0 {
      FirstReadyAt(ts[1..], k - 1);
    }
  }

  /** Whether `ensure_adapter_ready(hci, n)` returns `True`. */
  predicate Ready(ts: seq<ReadyTry>, n: nat)
  {
    n <= |ts| && FirstReady(ts[..n]) < n
  }

  /**
   * `ensure_adapter_ready`: `True` as soon as a status shows `UP RUNNING`,
   * before or after one `up`; an attempt where both fail runs a full
   * `reset_adapter` and goes on to the next attempt, even when the reset
   * brought the adapter up.  `resets` counts the resets run.
   */
  method EnsureAdapterReady(ts: seq<ReadyTry>, maxRetries: nat) returns (ok: bool, attempts: nat, resets: nat)
    requires maxRetries <= |ts| && ResetsGiven(ts)
    ensures ok == Ready(ts, maxRetries)
    ensures ok ==> attempts == FirstReady(ts[..maxRetries]) + 1 && TryUp(ts[attempts - 1])
    ensures !ok ==> attempts == maxRetries
    ensures resets == (if ok then attempts - 1 else attempts)
  {
    attempts := 0;
    resets := 0;
    ghost var prefix := ts[..maxRetries];
    while attempts < maxRetries
      invariant 0 <= attempts <= maxRetries
      invariant forall j :: 0 <= j < attempts ==> !TryUp(prefix[j])
      invariant resets == attempts
    {
      assert prefix[attempts] == ts[attempts];
      if Up(ts[attempts].first) || Up(ts[attempts].second) {
        FirstReadyAt(prefix, attempts);
        return true, attempts + 1, resets;
      }
      var _, _, _ := ResetAdapter(ts[attempts].resets, 3);
      resets := resets + 1;
      attempts := attempts + 1;
    }
    FirstReadyAt(prefix, maxRetries);
    ok := false;
  }

  /** A reset that brings the adapter up does not end `ensure_adapter_ready`: only a status of its own does. */
  lemma ResetVerdictIgnored(t: ReadyTry, rest: seq<ReadyTry>)
    requires !TryUp(t) && ResetOk(t.resets, 3)
    ensures FirstReady([t] + rest) == 1 + FirstReady(rest)
  {
    assert ([t] + rest)[1..] == rest;
  }

  // ---------------------------------------------------------------------
  // `scan_device`

  /**
   * One scan attempt: the readiness check, the statuses of the
   * `reset_adapter` run once the adapter is ready, the scan's `stderr`, the
   * statuses of the second `reset_adapter` run when that reports an invalid
   * device, and the scan file (absent: `None`).  Both resets' verdicts are
   * ignored.
   */
  datatype ScanRound = ScanRound(ready: seq<ReadyTry>, reset: seq<string>, scanErr: string,
                                 invalidReset: seq<string>, file: Option<string>)

  /** `stderr and "Invalid device" in stderr`. */
  predicate InvalidDevice(err: string)
  {
    err != "" && Contains(err, "Invalid device")
  }

  /**
   * What an attempt yields: nothing when the adapter is not ready, the
   * adapter is reported invalid or the file is missing; otherwise the last
   * `MAC .*name` match of the file, if any.
   */
  function RoundMac(r: ScanRound, name: string): Option<string>
  {
    if !Ready(r.ready, 3) || InvalidDevice(r.scanErr) || r.file.None? then None
    else ScanMatch.LastFind(r.file.value, name)
  }

  lemma RoundMacIff(r: ScanRound, name: string)
    ensures RoundMac(r, name).Some? <==> (Ready(r.ready, 3) && !InvalidDevice(r.scanErr) && r.file.Some?
      && ScanMatch.FindAll(Split(r.file.value, '\n'), name) != [])
    ensures RoundMac(r, name).Some? ==> RoundMac(r, name) == ScanMatch.LastFind(r.file.value, name)
  {
    if r.file.Some? {
      ScanMatch.LastFindIff(r.file.value, name);
    }
  }

  /** Whether the attempt ends with the 2 s sleep: it read the file and found no match. */
  predicate SleptAfter(r: ScanRound, name: string)
  {
    Ready(r.ready, 3) && !InvalidDevice(r.scanErr) && r.file.Some? && ScanMatch.LastFind(r.file.value, name).None?
  }

  function FirstFound(rs: seq<ScanRound>, name: string): (k: nat)
    ensures k <= |rs|
    ensures k < |rs| ==> RoundMac(rs[k], name).Some?
    ensures forall j :: 0 <= j < k ==> RoundMac(rs[j], name).None?
  {
    if rs == [] || RoundMac(rs[0], name).Some? then 0 else 1 + FirstFound(rs[1..], name)
  }

  lemma {:induction false} FirstFoundAt(rs: seq<ScanRound>, name: string, k: nat)
    requires k <= |rs|
    requires k < |rs| ==> RoundMac(rs[k], name).Some?
    requires forall j :: 0 <= j < k ==> RoundMac(rs[j], name).None?
    ensures FirstFound(rs, name) == k
  {
    if k > 0 {
      FirstFoundAt(rs[1..], name, k - 1);
    }
  }

  /** The number of attempts among `rs` that end with the 2 s sleep. */
  function SleepCount(rs: seq<ScanRound>, name: string): (n: nat)
    ensures n <= |rs|
  {
    if rs == [] then 0
    else SleepCount(rs[..|rs| - 1], name) + (if SleptAfter(rs[|rs| - 1], name) then 1 else 0)
  }

  /** Every readiness check and reset a scan attempt may run is fully given. */
  predicate ScansGiven(rs: seq<ScanRound>)
  {
    forall a :: 0 <= a < |rs| ==>
      (3 <= |rs[a].ready| && ResetsGiven(rs[a].ready) && 3 <= |rs[a].reset| && 3 <= |rs[a].invalidReset|)
  }

  /**
   * The 2 s sleeps of the `reset_adapter` calls an attempt runs: none when
   * the adapter is not ready, those of the first reset otherwise, and
   * those of the second as well when the scan reports an invalid device.
   */
  function RoundResetSleeps(r: ScanRound): nat
  {
    if !Ready(r.ready, 3) then 0
    else ResetSleeps(r.reset, 3) + (if InvalidDevice(r.scanErr) then ResetSleeps(r.invalidReset, 3) else 0)
  }

  /** The reset sleeps of the attempts `rs`, in total. */
  function ResetSleepTotal(rs: seq<ScanRound>): nat
  {
    if rs == [] then 0
    else ResetSleepTotal(rs[..|rs| - 1]) + RoundResetSleeps(rs[|rs| - 1])
  }

  /** A scan attempt makes at most six reset sleeps, three for each of its two resets. */
  lemma {:induction false} ResetSleepBound(rs: seq<ScanRound>)
    ensures ResetSleepTotal(rs) <= 6 * |rs|
  {
    if rs != [] {
      ResetSleepBound(rs[..|rs| - 1]);
    }
  }

  /**
   * `scan_device`: up to `max_retries` attempts, the first with a match
   * returning the file's last match; a `continue` skips the sleep at the
   * end of the loop, so only attempts that read a file without a match
   * sleep.
   */
  method ScanDevice(rs: seq<ScanRound>, name: string, maxRetries: nat)
    returns (mac: Option<string>, attempts: nat, sleeps: nat, resetSleeps: nat)
    requires maxRetries <= |rs| && ScansGiven(rs)
    ensures attempts <= maxRetries
    ensures mac.Some? <==> FirstFound(rs[..maxRetries], name) < maxRetries
    ensures mac.Some? ==> attempts == FirstFound(rs[..maxRetries], name) + 1 && mac == RoundMac(rs[attempts - 1], name)
    ensures mac.None? ==> attempts == maxRetries
    ensures sleeps == SleepCount(rs[..attempts], name)
    ensures resetSleeps == ResetSleepTotal(rs[..attempts])
  {
    attempts := 0;
    sleeps := 0;
    resetSleeps := 0;
    ghost var prefix := rs[..maxRetries];
    ghost var first := FirstFound(prefix, name);
    mac := None;
    while attempts < maxRetries && mac.None?
      invariant 0 <= attempts <= maxRetries
      invariant mac.None? ==> attempts <= first
      invariant mac.Some? ==> 1 <= attempts && first == attempts - 1 && mac == RoundMac(rs[attempts - 1], name)
      invariant sleeps == SleepCount(rs[..attempts], name)
      invariant resetSleeps == ResetSleepTotal(rs[..attempts])
    {
      assert prefix[attempts] == rs[attempts];
      mac, sleeps, resetSleeps := ScanAttempt(rs, name, attempts, sleeps, resetSleeps);
      attempts := attempts + 1;
    }
  }

  /** Attempt `attempts` of `scan_device`, and the sleep counts once it is over. */
  method ScanAttempt(rs: seq<ScanRound>, name: string, attempts: nat, sleeps: nat, resetSleeps: nat)
    returns (found: Option<string>, sleeps': nat, resetSleeps': nat)
    requires attempts < |rs| && ScansGiven(rs) && sleeps == SleepCount(rs[..attempts], name)
    requires resetSleeps == ResetSleepTotal(rs[..attempts])
    ensures found == RoundMac(rs[attempts], name)
    ensures sleeps' == SleepCount(rs[..attempts + 1], name)
    ensures resetSleeps' == ResetSleepTotal(rs[..attempts + 1])
    ensures found.Some? ==> sleeps' == sleeps
  {
    assert rs[..attempts + 1][..attempts] == rs[..attempts];
    var slept;
    found, slept := ScanRoundStep(rs[attempts], name);
    sleeps' := if SleptAfter(rs[attempts], name) then sleeps + 1 else sleeps;
    resetSleeps' := resetSleeps + slept;
  }

  /**
   * One attempt of `scan_device`: the readiness check, then a
   * `reset_adapter`, the scan, a second `reset_adapter` when the scan
   * reports an invalid device, and the file's last match.  `resetSleeps`
   * are the sleeps of the two resets.
   */
  method ScanRoundStep(r: ScanRound, name: string) returns (mac: Option<string>, resetSleeps: nat)
    requires 3 <= |r.ready| && ResetsGiven(r.ready) && 3 <= |r.reset| && 3 <= |r.invalidReset|
    ensures mac == RoundMac(r, name)
    ensures resetSleeps == RoundResetSleeps(r)
  {
    var ready, _, _ := EnsureAdapterReady(r.ready, 3);
    if !ready {
      return None, 0;
    }
    var _, _, slept := ResetAdapter(r.reset, 3);
    resetSleeps := slept;
    if InvalidDevice(r.scanErr) {
      var _, _, slept2 := ResetAdapter(r.invalidReset, 3);
      return None, resetSleeps + slept2;
    }
    if r.file.None? {
      return None, resetSleeps;
    }
    mac := ScanMatch.LastFind(r.file.value, name);
  }

  // ---------------------------------------------------------------------
  // `connect_device`

  /** One connect attempt: the readiness check and what `run_command` returned for `lecc`. */
  datatype ConnectRound = ConnectRound(ready: seq<ReadyTry>, lecc: Output)

  function FirstReadyRound(rs: seq<ConnectRound>): (k: nat)
    ensures k <= |rs|
    ensures k < |rs| ==> Ready(rs[k].ready, 3)
    ensures forall j :: 0 <= j < k ==> !Ready(rs[j].ready, 3)
  {
    if rs == [] || Ready(rs[0].ready, 3) then 0 else 1 + FirstReadyRound(rs[1..])
  }

  lemma {:induction false} FirstReadyRoundAt(rs: seq<ConnectRound>, k: nat)
    requires k <= |rs|
    requires k < |rs| ==> Ready(rs[k].ready, 3)
    requires forall j :: 0 <= j < k ==> !Ready(rs[j].ready, 3)
    ensures FirstReadyRound(rs) == k
  {
    if k > 0 {
      FirstReadyRoundAt(rs[1..], k - 1);
    }
  }

  /** Every readiness check a connect attempt may run is fully given. */
  predicate ConnectsGiven(rs: seq<ConnectRound>)
  {
    forall a :: 0 <= a < |rs| ==> 3 <= |rs[a].ready| && ResetsGiven(rs[a].ready)
  }

  /**
   * `connect_device`: `(None, None)` at once for an empty MAC; otherwise
   * what `lecc` printed in the first attempt whose adapter is ready,
   * whatever it says, or `(None, None)` when no attempt got that far.
   */
  method ConnectDevice(mac: string, rs: seq<ConnectRound>, maxRetries: nat) returns (r: Output, attempts: nat)
    requires maxRetries <= |rs| && ConnectsGiven(rs)
    ensures mac == "" ==> r == Output(None, None) && attempts == 0
    ensures mac != "" && FirstReadyRound(rs[..maxRetries]) < maxRetries ==>
      (attempts == FirstReadyRound(rs[..maxRetries]) + 1 && r == rs[attempts - 1].lecc)
    ensures mac != "" && FirstReadyRound(rs[..maxRetries]) == maxRetries ==>
      r == Output(None, None) && attempts == maxRetries
  {
    if mac == "" {
      return Output(None, None), 0;
    }
    attempts := 0;
    ghost var prefix := rs[..maxRetries];
    while attempts < maxRetries
      invariant 0 <= attempts <= maxRetries
      invariant forall j :: 0 <= j < attempts ==> !Ready(prefix[j].ready, 3)
    {
      assert prefix[attempts] == rs[attempts];
      var ready, _, _ := EnsureAdapterReady(rs[attempts].ready, 3);
      if ready {
        FirstReadyRoundAt(prefix, attempts);
        return rs[attempts].lecc, attempts + 1;
      }
      attempts := attempts + 1;
    }
    FirstReadyRoundAt(prefix, maxRetries);
    r := Output(None, None);
  }

  // ---------------------------------------------------------------------
  // The serial port.  Whether `open_serial_port` succeeds is an input, and
  // so is what each write and each poll of the reading loop does.

  const SleepCommands: seq<string> := [
    "echo DeviceSuspendRequested > /tmp/sonospowercoordinator_USR1_cmd_OVERRIDE\r\n",
    "killall -SIGUSR1 sonospowercoordinator\r\n"
  ]
  const SleepFlag: string := "a113x2 SOC turned off"
  const WakeupFlag: string := "BT_WAKEUP fired"

  /** Index of the first write that raises, or `|writes|`. */
  function FirstFailed(writes: seq<bool>): (k: nat)
    ensures k <= |writes|
    ensures k < |writes| ==> !writes[k]
    ensures forall j :: 0 <= j < k ==> writes[j]
  {
    if writes == [] || !writes[0] then 0 else 1 + FirstFailed(writes[1..])
  }

  lemma {:induction false} FirstFailedAt(writes: seq<bool>, k: nat)
    requires k <= |writes|
    requires k < |writes| ==> !writes[k]
    requires forall j :: 0 <= j < k ==> writes[j]
    ensures FirstFailed(writes) == k
  {
    if k > 0 {
      FirstFailedAt(writes[1..], k - 1);
    }
  }

  /** Whether `send_serial_commands` returns `True`: the port is open and every write goes through. */
  predicate Delivered(open: bool, n: nat, writes: seq<bool>)
  {
    open && n <= |writes| && forall j :: 0 <= j < n ==> writes[j]
  }

  /**
   * `send_serial_commands`: `False` without writing on a closed port;
   * otherwise the commands are written in order and the first write that
   * raises ends the call with `False`.  `sent` is what reached the port.
   */
  method SendCommands(open: bool, commands: seq<string>, writes: seq<bool>) returns (ok: bool, sent: seq<string>)
    requires |commands| <= |writes|
    ensures ok == Delivered(open, |commands|, writes)
    ensures !open ==> sent == []
    ensures open ==> sent == commands[..FirstFailed(writes[..|commands|])]
    ensures ok ==> sent == commands
  {
    if !open {
      return false, [];
    }
    sent := [];
    var i := 0;
    while i < |commands|
      invariant 0 <= i <= |commands|
      invariant forall j :: 0 <= j < i ==> writes[j]
      invariant sent == commands[..i]
    {
      if !writes[i] {
        FirstFailedAt(writes[..|commands|], i);
        return false, sent;
      }
      sent := sent + [commands[i]];
      i := i + 1;
    }
    FirstFailedAt(writes[..|commands|], |commands|);
    assert commands[..|commands|] == commands;
    ok := true;
  }

  /** What one poll of the reading loop read: `None` when nothing was waiting or the read raised. */
  function Chunk(p: Option<string>): string
  {
    if p.Some? then p.value else ""
  }

  /** The `buffer` after the given polls: everything read, in order. */
  function Buffer(polls: seq<Option<string>>): (b: string)
  {
    if polls == [] then "" else Buffer(polls[..|polls| - 1]) + Chunk(polls[|polls| - 1])
  }

  /** Poll `k` read data and the buffer then holds the pattern: the loop returns `True` there. */
  predicate HitAt(polls: seq<Option<string>>, pattern: string, k: int)
  {
    0 <= k < |polls| && Chunk(polls[k]) != "" && Contains(Buffer(polls[..k + 1]), pattern)
  }

  /** Whether `wait_for_serial_message` returns `True`. */
  predicate Heard(open: bool, pattern: string, polls: seq<Option<string>>)
  {
    open && exists k :: 0 <= k < |polls| && HitAt(polls, pattern, k)
  }

  /** No poll before poll `n` ended the loop. */
  ghost predicate NoHitBefore(polls: seq<Option<string>>, pattern: string, n: nat)
  {
    forall j :: 0 <= j < n ==> !HitAt(polls, pattern, j)
  }

  lemma NoHitStep(polls: seq<Option<string>>, pattern: string, n: nat)
    requires NoHitBefore(polls, pattern, n) && !HitAt(polls, pattern, n)
    ensures NoHitBefore(polls, pattern, n + 1)
  {
  }

  /** The buffer after one more poll is the old buffer followed by what that poll read. */
  lemma BufferStep(polls: seq<Option<string>>, n: nat)
    requires n < |polls|
    ensures Buffer(polls[..n + 1]) == Buffer(polls[..n]) + Chunk(polls[n])
  {
    assert polls[..n + 1][..n] == polls[..n];
  }

  /**
   * `wait_for_serial_message`: `False` on a closed port; otherwise the
   * data of every poll is appended to one buffer, which is searched after
   * each non-empty read, and the loop ends with `True` at the first match
   * or with `False` when the polls (the time) run out.  The two flags hold
   * no regular-expression metacharacters, so the search is a substring
   * test.
   */
  method WaitForMessage(open: bool, pattern: string, polls: seq<Option<string>>) returns (found: bool, polled: nat)
    ensures found == Heard(open, pattern, polls)
    ensures found ==> HitAt(polls, pattern, polled - 1) && forall j :: 0 <= j < polled - 1 ==> !HitAt(polls, pattern, j)
  {
    if !open {
      return false, 0;
    }
    var buffer := "";
    polled := 0;
    while polled < |polls|
      invariant 0 <= polled <= |polls|
      invariant buffer == Buffer(polls[..polled])
      invariant NoHitBefore(polls, pattern, polled)
    {
      var data := polls[polled];
      BufferStep(polls, polled);
      if data.Some? && data.value != "" {
        buffer := buffer + data.value;
        if Contains(buffer, pattern) {
          assert HitAt(polls, pattern, polled);
          return true, polled + 1;
        }
      } else {
        assert buffer + Chunk(data) == buffer;
      }
      NoHitStep(polls, pattern, polled);
      polled := polled + 1;
    }
    found := false;
  }

  lemma {:induction false} BufferAppend(a: seq<Option<string>>, b: seq<Option<string>>)
    ensures Buffer(a + b) == Buffer(a) + Buffer(b)
    decreases |b|
  {
    if b == [] {
      assert a + b == a;
    } else {
      var b0, last := b[..|b| - 1], b[|b| - 1];
      assert (a + b)[..|a + b| - 1] == a + b0;
      assert (a + b)[|a + b| - 1] == last;
      calc {
        Buffer(a + b);
        Buffer(a + b0) + Chunk(last);
        { BufferAppend(a, b0); }
        (Buffer(a) + Buffer(b0)) + Chunk(last);
        { Assoc(Buffer(a), Buffer(b0), Chunk(last)); }
        Buffer(a) + (Buffer(b0) + Chunk(last));
        Buffer(a) + Buffer(b);
      }
    }
  }

  /** A non-empty buffer was last extended by some poll, after which it did not change. */
  lemma {:induction false} LastRead(polls: seq<Option<string>>) returns (k: nat)
    requires Buffer(polls) != ""
    ensures k < |polls| && Chunk(polls[k]) != "" && Buffer(polls[..k + 1]) == Buffer(polls)
  {
    var n := |polls| - 1;
    if Chunk(polls[n]) != "" {
      k := n;
      assert polls[..n + 1] == polls;
    } else {
      k := LastRead(polls[..n]);
      assert polls[..n][..k + 1] == polls[..k + 1];
    }
  }

  /** A match in the buffer at some poll is a match in everything read. */
  lemma HitInBuffer(polls: seq<Option<string>>, pattern: string, k: nat)
    requires HitAt(polls, pattern, k)
    ensures Contains(Buffer(polls), pattern)
  {
    var a, b := polls[..k + 1], polls[k + 1..];
    assert a + b == polls;
    BufferAppend(a, b);
    ContainsExtend(Buffer(a), Buffer(b), pattern);
  }

  /** A non-empty pattern in everything read was found at the last read. */
  lemma BufferHit(polls: seq<Option<string>>, pattern: string) returns (k: nat)
    requires pattern != "" && Contains(Buffer(polls), pattern)
    ensures HitAt(polls, pattern, k)
  {
    var i := ContainsOccurs(Buffer(polls), pattern);
    k := LastRead(polls);
  }

  /**
   * What the loop finds is exactly whether the pattern occurs somewhere in
   * everything read, also across the boundary between two reads.
   */
  lemma HeardIff(open: bool, pattern: string, polls: seq<Option<string>>)
    requires pattern != ""
    ensures Heard(open, pattern, polls) <==> open && Contains(Buffer(polls), pattern)
  {
    if exists k :: 0 <= k < |polls| && HitAt(polls, pattern, k) {
      var k :| 0 <= k < |polls| && HitAt(polls, pattern, k);
      HitInBuffer(polls, pattern, k);
    }
    if Contains(Buffer(polls), pattern) {
      var k := BufferHit(polls, pattern);
    }
  }

  /** A flag split over two reads is still found. */
  lemma FlagAcrossReads()
    ensures HitAt([Some("BT_WAKE"), Some("UP fired")], WakeupFlag, 1)
    ensures !Contains("BT_WAKE", WakeupFlag) && !Contains("UP fired", WakeupFlag)
  {
    var polls := [Some("BT_WAKE"), Some("UP fired")];
    assert polls[..2] == polls;
    assert polls[..1] == [Some("BT_WAKE")];
    assert Buffer(polls) == "BT_WAKEUP fired";
    assert OccursAt(Buffer(polls[..2]), WakeupFlag, 0);
  }

  // ---------------------------------------------------------------------
  // `put_device_to_sleep` and `verify_device_wakeup`

  /** One sleep attempt: the outcome of each write, and the polls of the 10 s wait. */
  datatype SleepRound = SleepRound(writes: seq<bool>, polls: seq<Option<string>>)

  predicate SleptOk(open: bool, r: SleepRound)
  {
    Delivered(open, |SleepCommands|, r.writes) && Heard(open, SleepFlag, r.polls)
  }

  function FirstSlept(open: bool, rs: seq<SleepRound>): (k: nat)
    ensures k <= |rs|
    ensures k < |rs| ==> SleptOk(open, rs[k])
    ensures forall j :: 0 <= j < k ==> !SleptOk(open, rs[j])
  {
    if rs == [] || SleptOk(open, rs[0]) then 0 else 1 + FirstSlept(open, rs[1..])
  }

  lemma {:induction false} FirstSleptAt(open: bool, rs: seq<SleepRound>, k: nat)
    requires k <= |rs|
    requires k < |rs| ==> SleptOk(open, rs[k])
    requires forall j :: 0 <= j < k ==> !SleptOk(open, rs[j])
    ensures FirstSlept(open, rs) == k
  {
    if k > 0 {
      FirstSleptAt(open, rs[1..], k - 1);
    }
  }

  /** Whether `put_device_to_sleep(ser, n)` returns `True`. */
  predicate Asleep(open: bool, rs: seq<SleepRound>, n: nat)
  {
    n <= |rs| && FirstSlept(open, rs[..n]) < n
  }

  /** Whether a sleep attempt ends with the 2 s sleep: the commands went out and the flag was not heard. */
  predicate SleepRetried(open: bool, r: SleepRound)
  {
    Delivered(open, |SleepCommands|, r.writes) && !Heard(open, SleepFlag, r.polls)
  }

  /** The number of attempts among `rs` that end with the 2 s sleep. */
  function RetrySleeps(open: bool, rs: seq<SleepRound>): (n: nat)
    ensures n <= |rs|
  {
    if rs == [] then 0
    else RetrySleeps(open, rs[..|rs| - 1]) + (if SleepRetried(open, rs[|rs| - 1]) then 1 else 0)
  }

  /** A failed send never sleeps: on a closed port no attempt does. */
  lemma {:induction false} ClosedPortNeverSleeps(rs: seq<SleepRound>)
    ensures RetrySleeps(false, rs) == 0
  {
    if rs != [] {
      ClosedPortNeverSleeps(rs[..|rs| - 1]);
    }
  }

  /** Every sleep attempt says what each of its writes does. */
  predicate WritesGiven(rs: seq<SleepRound>)
  {
    forall a :: 0 <= a < |rs| ==> |SleepCommands| <= |rs[a].writes|
  }

  /**
   * `put_device_to_sleep`: each attempt sends the sleep commands and, when
   * they all went out, waits for the sleep flag; `True` at the first flag.
   * A failed send skips the 2 s sleep; a missing flag does not.
   * `sleeps` counts those sleeps.
   */
  method PutDeviceToSleep(open: bool, rs: seq<SleepRound>, maxRetries: nat) returns (ok: bool, attempts: nat, sleeps: nat)
    requires maxRetries <= |rs| && WritesGiven(rs)
    ensures ok == Asleep(open, rs, maxRetries)
    ensures ok ==> attempts == FirstSlept(open, rs[..maxRetries]) + 1
    ensures !ok ==> attempts == maxRetries
    ensures sleeps == RetrySleeps(open, rs[..attempts])
  {
    attempts := 0;
    sleeps := 0;
    ok := false;
    ghost var prefix := rs[..maxRetries];
    ghost var first := FirstSlept(open, prefix);
    while attempts < maxRetries && !ok
      invariant 0 <= attempts <= maxRetries
      invariant !ok ==> attempts <= first
      invariant ok ==> 1 <= attempts && first == attempts - 1
      invariant sleeps == RetrySleeps(open, rs[..attempts])
    {
      assert prefix[attempts] == rs[attempts];
      ok, sleeps := SleepAttempt(open, rs, attempts, sleeps);
      attempts := attempts + 1;
    }
  }

  /** Attempt `a` of `put_device_to_sleep`, and the sleep count once it is over. */
  method SleepAttempt(open: bool, rs: seq<SleepRound>, a: nat, sleeps: nat) returns (ok: bool, sleeps': nat)
    requires a < |rs| && WritesGiven(rs) && sleeps == RetrySleeps(open, rs[..a])
    ensures ok == SleptOk(open, rs[a])
    ensures sleeps' == RetrySleeps(open, rs[..a + 1])
  {
    assert rs[..a + 1][..a] == rs[..a];
    sleeps' := sleeps;
    ok := false;
    var sent, _ := SendCommands(open, SleepCommands, rs[a].writes);
    if sent {
      var heard, _ := WaitForMessage(open, SleepFlag, rs[a].polls);
      ok := heard;
      if !ok {
        sleeps' := sleeps + 1;
      }
    }
  }

  function FirstWoke(open: bool, ws: seq<seq<Option<string>>>): (k: nat)
    ensures k <= |ws|
    ensures k < |ws| ==> Heard(open, WakeupFlag, ws[k])
    ensures forall j :: 0 <= j < k ==> !Heard(open, WakeupFlag, ws[j])
  {
    if ws == [] || Heard(open, WakeupFlag, ws[0]) then 0 else 1 + FirstWoke(open, ws[1..])
  }

  lemma {:induction false} FirstWokeAt(open: bool, ws: seq<seq<Option<string>>>, k: nat)
    requires k <= |ws|
    requires k < |ws| ==> Heard(open, WakeupFlag, ws[k])
    requires forall j :: 0 <= j < k ==> !Heard(open, WakeupFlag, ws[j])
    ensures FirstWoke(open, ws) == k
  {
    if k > 0 {
      FirstWokeAt(open, ws[1..], k - 1);
    }
  }

  /** Whether `verify_device_wakeup(ser, n)` returns `True`. */
  predicate Awake(open: bool, ws: seq<seq<Option<string>>>, n: nat)
  {
    n <= |ws| && FirstWoke(open, ws[..n]) < n
  }

  /** `verify_device_wakeup`: up to `max_retries` 15 s waits for the wake-up flag. */
  method VerifyDeviceWakeup(open: bool, ws: seq<seq<Option<string>>>, maxRetries: nat) returns (ok: bool, attempts: nat)
    requires maxRetries <= |ws|
    ensures ok == Awake(open, ws, maxRetries)
    ensures ok ==> attempts == FirstWoke(open, ws[..maxRetries]) + 1
    ensures !ok ==> attempts == maxRetries
  {
    attempts := 0;
    ghost var prefix := ws[..maxRetries];
    while attempts < maxRetries
      invariant 0 <= attempts <= maxRetries
      invariant forall j :: 0 <= j < attempts ==> !Heard(open, WakeupFlag, prefix[j])
    {
      assert prefix[attempts] == ws[attempts];
      var heard, _ := WaitForMessage(open, WakeupFlag, ws[attempts]);
      if heard {
        FirstWokeAt(open, prefix, attempts);
        return true, attempts + 1;
      }
      attempts := attempts + 1;
    }
    FirstWokeAt(open, prefix, maxRetries);
    ok := false;
  }

  /** Nothing is heard from a port that is not open, however many attempts are made. */
  lemma ClosedPortNeverWakes(ws: seq<seq<Option<string>>>, n: nat)
    requires n <= |ws|
    ensures !Awake(false, ws, n)
  {
    assert FirstWoke(false, ws[..n]) == n by {
      FirstWokeAt(false, ws[..n], n);
    }
  }

  // ---------------------------------------------------------------------
  // `run_full_test_cycle` and the tally of `main`

  const DeviceName: string := "S44 4476 LE"
  const LockPath: string := "/tmp/.ble_lock"
  /** Every `MAX_RETRIES` entry of the configuration is 3. */
  const Retries: nat := 3
  const TestCycles: nat := 5

  /** Everything the environment decides during one cycle. */
  datatype Cycle = Cycle(
    ready: seq<ReadyTry>,
    lockTries: seq<Lock.PlainTry>,
    scans: seq<ScanRound>,
    serialOpens: bool,
    sleeps: seq<SleepRound>,
    connects: seq<ConnectRound>,
    wakes: seq<seq<Option<string>>>)

  predicate CycleGiven(c: Cycle)
  {
    && Retries <= |c.ready| && ResetsGiven(c.ready)
    && Retries <= |c.lockTries| && (forall t :: 0 <= t < |c.lockTries| ==> |c.lockTries[t].polls| > Lock.TimeoutPoll(2))
    && Retries <= |c.scans| && ScansGiven(c.scans)
    && Retries <= |c.sleeps| && WritesGiven(c.sleeps)
    && Retries <= |c.connects| && ConnectsGiven(c.connects)
    && Retries <= |c.wakes|
  }

  /** Where a cycle ends. */
  datatype CycleEnd = AdapterDown | NoMac | NoSerial | NoSleep | Woke | NoWake

  /** Whether `scan_device` returns a MAC. */
  predicate MacFound(rs: seq<ScanRound>, name: string, n: nat)
  {
    n <= |rs| && FirstFound(rs[..n], name) < n
  }

  function CycleEndOf(c: Cycle): (e: CycleEnd)
    ensures e == AdapterDown <==> !Ready(c.ready, Retries)
    ensures e == Woke ==> Awake(true, c.wakes, Retries)
  {
    if !Ready(c.ready, Retries) then AdapterDown
    else if !MacFound(c.scans, DeviceName, Retries) then NoMac
    else if !c.serialOpens then NoSerial
    else if !Asleep(true, c.sleeps, Retries) then NoSleep
    else if Awake(true, c.wakes, Retries) then Woke
    else NoWake
  }

  /**
   * A cycle succeeds exactly when the adapter comes up, a scan finds the
   * device, the port opens, a sleep attempt is confirmed and a wake-up
   * wait hears the flag.  What the connection attempt printed plays no
   * part.
   */
  lemma CycleSuccessIff(c: Cycle)
    ensures CycleEndOf(c) == Woke <==>
      (Ready(c.ready, Retries) && MacFound(c.scans, DeviceName, Retries) && c.serialOpens
       && Asleep(true, c.sleeps, Retries) && Awake(true, c.wakes, Retries))
    ensures forall cs :: CycleEndOf(c.(connects := cs)) == CycleEndOf(c)
  {
  }

  /**
   * `run_full_test_cycle`: check the adapter (no lock is taken when it is
   * down), take the lock (going on without it when that fails), scan,
   * open the port, put the device to sleep, connect, and wait for the
   * wake-up flag.  The port is closed once it was opened and the lock is
   * released once acquisition was tried, on every path out.
   */
  method RunFullTestCycle(c: Cycle, lock: Lock.PlainLock, pid: nat, removable: bool)
    returns (success: bool, end: CycleEnd, lockFile: Option<string>, connectOut: Option<Output>, closed: bool)
    requires CycleGiven(c) && lock.path == LockPath
    modifies lock
    ensures end == CycleEndOf(c) && success == (end == Woke)
    ensures end == AdapterDown ==> lockFile == None && lock.present == old(lock.present) && lock.owner == old(lock.owner)
    ensures end != AdapterDown ==> (lockFile.Some? <==> exists t :: 0 <= t < Retries && c.lockTries[t].written)
    ensures lockFile.Some? ==> lockFile == Some(LockPath)
    ensures lockFile.Some? && removable ==> !lock.present && lock.owner == None
    ensures lockFile.Some? && !removable ==> lock.present && lock.owner == Some(pid)
    ensures connectOut.Some? <==> end == Woke || end == NoWake
    ensures closed <==> end == NoSleep || end == Woke || end == NoWake
  {
    lockFile, connectOut, closed := None, None, false;
    var ready, _, _ := EnsureAdapterReady(c.ready, Retries);
    if !ready {
      return false, AdapterDown, None, None, false;
    }
    var failures;
    lockFile, failures := lock.AcquireRetried(c.lockTries, Retries, 2, pid);
    var mac, _, _, _ := ScanDevice(c.scans, DeviceName, Retries);
    if mac.None? {
      end := NoMac;
    } else if !c.serialOpens {
      end := NoSerial;
    } else {
      var asleep, _, _ := PutDeviceToSleep(true, c.sleeps, Retries);
      if !asleep {
        end := NoSleep;
      } else {
        var out, _ := ConnectDevice(mac.value, c.connects, Retries);
        connectOut := Some(out);
        var awake, _ := VerifyDeviceWakeup(true, c.wakes, Retries);
        end := if awake then Woke else NoWake;
      }
      closed := true;
    }
    lock.Release(lockFile.Some?, removable);
    success := end == Woke;
  }

  /** The number of `True` verdicts. */
  function Successes(verdicts: seq<bool>): (n: nat)
    ensures n <= |verdicts|
  {
    if verdicts == [] then 0
    else Successes(verdicts[..|verdicts| - 1]) + (if verdicts[|verdicts| - 1] then 1 else 0)
  }

  /** Every cycle succeeded exactly when the tally equals the number of cycles. */
  lemma {:induction false} AllSucceededIff(verdicts: seq<bool>)
    ensures Successes(verdicts) == |verdicts| <==> forall i :: 0 <= i < |verdicts| ==> verdicts[i]
  {
    if verdicts != [] {
      var init := verdicts[..|verdicts| - 1];
      AllSucceededIff(init);
      if Successes(verdicts) == |verdicts| {
        forall i | 0 <= i < |verdicts|
          ensures verdicts[i]
        {
          if i < |init| {
            assert init[i] == verdicts[i];
          }
        }
      } else if forall i :: 0 <= i < |verdicts| ==> verdicts[i] {
        forall i | 0 <= i < |init|
          ensures init[i]
        {
          assert init[i] == verdicts[i];
        }
      }
    }
  }

  /**
   * The loop of `main` over the cycles' verdicts: it counts the successes,
   * waits `CYCLE_DELAY` seconds between cycles but not after the last,
   * and exits with 0 exactly when every cycle succeeded.
   */
  method RunCycles(verdicts: seq<bool>) returns (successCount: nat, delays: nat, exitCode: int)
    ensures successCount == Successes(verdicts)
    ensures delays == if verdicts == [] then 0 else |verdicts| - 1
    ensures exitCode == 0 <==> forall i :: 0 <= i < |verdicts| ==> verdicts[i]
    ensures exitCode == 0 || exitCode == 1
  {
    successCount, delays := 0, 0;
    var cycle := 0;
    while cycle < |verdicts|
      invariant 0 <= cycle <= |verdicts|
      invariant successCount == Successes(verdicts[..cycle])
      invariant delays == if cycle == |verdicts| && cycle > 0 then cycle - 1 else cycle
    {
      assert verdicts[..cycle + 1][..cycle] == verdicts[..cycle];
      if verdicts[cycle] {
        successCount := successCount + 1;
      }
      if cycle + 1 < |verdicts| {
        delays := delays + 1;
      }
      cycle := cycle + 1;
    }
    assert verdicts[..cycle] == verdicts;
    AllSucceededIff(verdicts);
    exitCode := if successCount == |verdicts| then 0 else 1;
  }
}
