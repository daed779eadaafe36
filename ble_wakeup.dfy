/**
 * The one-shot wake-up script `only_ble_wakeup.py`: a command runner that
 * turns every failure into a result triple, the adapter check with its
 * fallback reset, and `ble_connect`, which waits for the plain lock file,
 * scans for the device by name, and makes up to five connection attempts
 * with adapter resets in between.
 *
 * What each command printed and returned is an input; sleeps are counted.
 */
module BleWakeup {
  import opened Base
  import opened Text
  import ScanMatch
  import Lock

  // ---------------------------------------------------------------------
  // `run_command`

  /** What `subprocess.run` did: it exited (normally or with `CalledProcessError`), timed out, or raised. */
  datatype Proc = Exited(out: string, err: string, code: int) | TimedOut | Crashed

  /** The triple `(stdout, stderr, returncode)`. */
  datatype Result = Result(out: Option<string>, err: Option<string>, code: int)

  /**
   * `run_command`: a command that exited reports its code, whether the
   * exit made `subprocess.run` raise or not, with its stripped output when
   * captured; a timeout reports code -1 and another error -2, without
   * output.
   */
  function RunCommand(p: Proc, capture: bool): (r: Result)
    ensures p.Exited? ==> r.code == p.code
    ensures p.TimedOut? ==> r.code == -1
    ensures p.Crashed? ==> r.code == -2
    ensures r.out.Some? <==> p.Exited? && capture
    ensures r.err.Some? <==> r.out.Some?
    ensures r.out.Some? ==> r.out.value == Strip(p.out) && r.err.value == Strip(p.err)
  {
    match p
    case Exited(out, err, code) =>
      if capture then Result(Some(Strip(out)), Some(Strip(err)), code) else Result(None, None, code)
    case TimedOut => Result(None, None, -1)
    case Crashed => Result(None, None, -2)
  }

  /** Output that carries text: neither `None` nor empty. */
  predicate Truthy(o: Option<string>)
  {
    o.Some? && o.value != ""
  }

  // ---------------------------------------------------------------------
  // `reset_bluetooth_adapter` and `check_hci_device`.  A status query is
  // `hciconfig <dev> | grep 'UP RUNNING'`, given by its captured stdout.

  /**
   * What `check_hci_device` ran into: the device query, the first status,
   * the `up` command, the second status and the status queried by the
   * reset that follows a failure.
   */
  datatype HciProbe = HciProbe(probe: Result, status1: Option<string>, up: Result, status2: Option<string>, resetStatus: Option<string>)

  /** The verdict of `check_hci_device`, and which recovery commands it issued. */
  datatype Checked = Checked(ok: bool, upIssued: bool, resetRun: bool)

  /**
   * `check_hci_device`: a device whose query fails is unusable; an
   * adapter that is not running gets one `up`, and a failing `up` or a
   * second status that still shows it down hands the verdict to one
   * adapter reset.
   */
  function CheckHci(h: HciProbe): (c: Checked)
    ensures h.probe.code != 0 ==> c == Checked(false, false, false)
    ensures c.upIssued <==> h.probe.code == 0 && !Truthy(h.status1)
    ensures c.resetRun <==> h.probe.code == 0 && ((!Truthy(h.status1) && h.up.code != 0) || ((Truthy(h.status1) || h.up.code == 0) && !Truthy(h.status2)))
    ensures c.ok <==> h.probe.code == 0 && (if c.resetRun then Truthy(h.resetStatus) else Truthy(h.status2))
  {
    if h.probe.code != 0 then Checked(false, false, false)
    else if !Truthy(h.status1) && h.up.code != 0 then Checked(Truthy(h.resetStatus), true, true)
    else if !Truthy(h.status2) then Checked(Truthy(h.resetStatus), !Truthy(h.status1), true)
    else Checked(true, !Truthy(h.status1), false)
  }

  // ---------------------------------------------------------------------
  // Scanning

  /** Index of the first scan whose file holds a match, or `|scans|`; a scan file is `None` when missing or unreadable. */
  function FirstScanHit(scans: seq<Option<string>>, name: string): (k: nat)
    ensures k <= |scans|
    ensures k < |scans| ==> scans[k].Some? && ScanMatch.LastFind(scans[k].value, name).Some?
    ensures forall j :: 0 <= j < k ==> scans[j].None? || ScanMatch.LastFind(scans[j].value, name).None?
  {
    if scans == [] || (scans[0].Some? && ScanMatch.LastFind(scans[0].value, name).Some?) then 0
    else 1 + FirstScanHit(scans[1..], name)
  }

  lemma {:induction false} FirstScanHitAt(scans: seq<Option<string>>, name: string, k: nat)
    requires k <= |scans|
    requires k < |scans| ==> scans[k].Some? && ScanMatch.LastFind(scans[k].value, name).Some?
    requires forall j :: 0 <= j < k ==> scans[j].None? || ScanMatch.LastFind(scans[j].value, name).None?
    ensures FirstScanHit(scans, name) == k
  {
    if k > 0 {
      FirstScanHitAt(scans[1..], name, k - 1);
    }
  }

  /**
   * The scan loop of `ble_connect`: at most `retry_limit` attempts, each
   * ending with its file deleted and a 1 s sleep, until an attempt's file
   * holds a match; the MAC is that file's last match.
   */
  method ScanLoop(scans: seq<Option<string>>, name: string, retryLimit: nat) returns (mac: Option<string>, attempts: nat)
    requires retryLimit <= |scans|
    ensures var k := FirstScanHit(scans[..retryLimit], name);
      (mac.Some? <==> k < retryLimit)
      && (mac.Some? ==> attempts == k + 1 && mac == ScanMatch.LastFind(scans[k].value, name))
      && (mac.None? ==> attempts == retryLimit)
  {
    mac := None;
    attempts := 0;
    ghost var prefix := scans[..retryLimit];
    while mac.None? && attempts < retryLimit
      invariant 0 <= attempts <= retryLimit
      invariant forall j :: 0 <= j < attempts - (if mac.Some? then 1 else 0) ==> prefix[j].None? || ScanMatch.LastFind(prefix[j].value, name).None?
      invariant mac.Some? ==> 1 <= attempts && scans[attempts - 1].Some? && mac == ScanMatch.LastFind(scans[attempts - 1].value, name) && mac.Some?
    {
      assert prefix[attempts] == scans[attempts];
      var file := scans[attempts];
      if file.Some? {
        var matches := ScanMatch.LastFind(file.value, name);
        if matches.Some? {
          mac := matches;
        }
      }
      attempts := attempts + 1;
    }
    if mac.Some? {
      FirstScanHitAt(prefix, name, attempts - 1);
    } else {
      FirstScanHitAt(prefix, name, retryLimit);
    }
  }

  // ---------------------------------------------------------------------
  // Connection attempts

  const MaxConnectionAttempts: nat := 5

  /** `stderr_str or stdout_str or '未知错误'`. */
  function ErrorText(out: string, err: string): string
  {
    if err != "" then err else if out != "" then out else "未知错误"
  }

  /** The message built for a failed `lecc`: the return code and the error text. */
  function ErrorMessage(code: int, text: string): (m: string)
    ensures m == ErrorPrefix(code) + text
  {
    "返回码: " + IntStr(code) + ", 错误: " + text
  }

  function ErrorPrefix(code: int): string
  {
    "返回码: " + IntStr(code) + ", 错误: "
  }

  /** One attempt: what `lecc` returned, and the status queried by the reset an invalid-device error triggers. */
  datatype LinkTry = LinkTry(lecc: Result, resetStatus: Option<string>)

  /** How an attempt ends: connected, giving up after a failed reset, or going on. */
  datatype LinkStep = Linked | Abandoned | Next

  function OrEmpty(o: Option<string>): string
  {
    if o.Some? then o.value else ""
  }

  /**
   * One attempt: code 0 with "handle" in the lowercased stdout connects;
   * another code whose message names an invalid device resets the
   * adapter and gives up when the reset fails; everything else goes on.
   */
  function StepOf(t: LinkTry): (s: LinkStep)
    ensures s == Linked <==> t.lecc.code == 0 && Contains(Lower(OrEmpty(t.lecc.out)), "handle")
    ensures s == Abandoned ==> t.lecc.code != 0 && !Truthy(t.resetStatus)
  {
    var out, err := OrEmpty(t.lecc.out), OrEmpty(t.lecc.err);
    if t.lecc.code == 0 then
      if Contains(Lower(out), "handle") then Linked else Next
    else if Contains(Lower(ErrorMessage(t.lecc.code, ErrorText(out, err))), "invalid device") then
      if Truthy(t.resetStatus) then Next else Abandoned
    else Next
  }

  /**
   * The code and the fixed words in front of the error text can never
   * take part in an "invalid device" match: the decision rests on what the
   * command printed alone.
   */
  lemma InvalidDeviceFromText(code: int, text: string)
    ensures Contains(Lower(ErrorMessage(code, text)), "invalid device") <==> Contains(Lower(text), "invalid device")
  {
    var p := ErrorPrefix(code);
    LowerAppend(p, text);
    assert NoLowerI(p) by {
      NoLowerIWords();
      NoLowerIAppend("返回码: ", IntStr(code));
      NoLowerIAppend("返回码: " + IntStr(code), ", 错误: ");
    }
    ContainsPastPrefix(Lower(p), Lower(text), "invalid device");
  }

  /** No character of `s` is an 'i' once lowered. */
  predicate NoLowerI(s: string)
  {
    forall j :: 0 <= j < |s| ==> LowerChar(s[j]) != 'i'
  }

  lemma NoLowerIAppend(a: string, b: string)
    requires NoLowerI(a) && NoLowerI(b)
    ensures NoLowerI(a + b)
  {
    forall j | 0 <= j < |a + b|
      ensures LowerChar((a + b)[j]) != 'i'
    {
      if j >= |a| {
        assert (a + b)[j] == b[j - |a|];
      }
    }
  }

  /** The fixed words of the message and any decimal number hold no 'i'. */
  lemma NoLowerIWords()
    ensures NoLowerI("返回码: ") && NoLowerI(", 错误: ")
    ensures forall code: int :: NoLowerI(IntStr(code))
  {
  }

  /** Index of the first attempt that does not go on, or `|ts|`. */
  function FirstStop(ts: seq<LinkTry>): (k: nat)
    ensures k <= |ts|
    ensures k < |ts| ==> StepOf(ts[k]) != Next
    ensures forall j :: 0 <= j < k ==> StepOf(ts[j]) == Next
  {
    if ts == [] || StepOf(ts[0]) != Next then 0
    else
      var k := FirstStop(ts[1..]);
      assert forall j :: 0 <= j < k ==> ts[1..][j] == ts[j + 1];
      1 + k
  }

  lemma {:induction false} FirstStopAt(ts: seq<LinkTry>, k: nat)
    requires k <= |ts|
    requires k < |ts| ==> StepOf(ts[k]) != Next
    requires forall j :: 0 <= j < k ==> StepOf(ts[j]) == Next
    ensures FirstStop(ts) == k
  {
    if k > 0 {
      FirstStopAt(ts[1..], k - 1);
    }
  }

  /** Whether the connection loop connects within `n` attempts. */
  predicate Connects(ts: seq<LinkTry>, n: nat)
  {
    n <= |ts| && FirstStop(ts[..n]) < n && StepOf(ts[FirstStop(ts[..n])]) == Linked
  }

  /**
   * The connection loop of `ble_connect`: up to `max_connection_attempts`
   * attempts, ending at the first connection or failed reset.  Every
   * attempt that runs to the end of the loop body and is the 2nd, 4th, …
   * one is followed by an extra adapter reset, counted in `periodic`.
   */
  method ConnectLoop(ts: seq<LinkTry>, maxAttempts: nat) returns (established: bool, attempts: nat, periodic: nat)
    requires maxAttempts <= |ts|
    ensures established == Connects(ts, maxAttempts)
    ensures var k := FirstStop(ts[..maxAttempts]);
      attempts == (if k < maxAttempts then k + 1 else maxAttempts)
      && periodic == (if k < maxAttempts then k else maxAttempts) / 2
  {
    established, periodic := false, 0;
    ghost var prefix := ts[..maxAttempts];
    var attempt := 0;
    while attempt < maxAttempts
      invariant 0 <= attempt <= maxAttempts
      invariant forall j :: 0 <= j < attempt ==> StepOf(prefix[j]) == Next
      invariant periodic == attempt / 2
    {
      assert prefix[attempt] == ts[attempt];
      var step := StepOf(ts[attempt]);
      if step != Next {
        FirstStopAt(prefix, attempt);
        return step == Linked, attempt + 1, periodic;
      }
      if attempt > 0 && (attempt + 1) % 2 == 0 {
        periodic := periodic + 1;
      }
      attempt := attempt + 1;
    }
    FirstStopAt(prefix, maxAttempts);
    attempts := maxAttempts;
  }

  /** Five attempts that all go on are followed by two extra resets: after the 2nd and the 4th. */
  lemma TwoPeriodicResets(ts: seq<LinkTry>)
    requires |ts| == MaxConnectionAttempts && forall j :: 0 <= j < |ts| ==> StepOf(ts[j]) == Next
    ensures FirstStop(ts[..MaxConnectionAttempts]) == MaxConnectionAttempts
    ensures !Connects(ts, MaxConnectionAttempts)
  {
    assert ts[..MaxConnectionAttempts] == ts;
    FirstStopAt(ts, MaxConnectionAttempts);
  }

  // ---------------------------------------------------------------------
  // `ble_connect`

  /** Everything the environment decides during one `ble_connect`. */
  datatype Wakeup = Wakeup(
    check: HciProbe,
    lockPolls: seq<Lock.Seen>,
    lockWritten: bool,
    scans: seq<Option<string>>,
    links: seq<LinkTry>)

  datatype WakeEnd = DeviceDown | LockFailed | NoMac | Connected | NotConnected

  function WakeEndOf(w: Wakeup, name: string, retryLimit: nat): (e: WakeEnd)
    requires retryLimit <= |w.scans| && MaxConnectionAttempts <= |w.links|
    ensures e == Connected ==> CheckHci(w.check).ok && w.lockWritten && Connects(w.links, MaxConnectionAttempts)
  {
    if !CheckHci(w.check).ok then DeviceDown
    else if !w.lockWritten then LockFailed
    else if FirstScanHit(w.scans[..retryLimit], name) == retryLimit then NoMac
    else if Connects(w.links, MaxConnectionAttempts) then Connected
    else NotConnected
  }

  const LockPath: string := "/tmp/.ble_lock"

  /**
   * `ble_connect`: check the device, wait for the lock file (every 2 s,
   * a stale file first, at most 30 s), write it, scan, and connect.  The
   * lock file is deleted on both paths that got as far as creating it.
   */
  method BleConnect(w: Wakeup, name: string, retryLimit: nat, lock: Lock.PlainLock, pid: nat, removable: bool)
    returns (ok: bool, end: WakeEnd, mac: Option<string>)
    requires |w.lockPolls| > Lock.TimeoutPoll(2) && retryLimit <= |w.scans| && MaxConnectionAttempts <= |w.links|
    requires lock.path == LockPath
    modifies lock
    ensures end == WakeEndOf(w, name, retryLimit) && ok == (end == Connected)
    ensures end == DeviceDown ==> lock.present == old(lock.present) && lock.owner == old(lock.owner)
    ensures end == LockFailed && lock.present ==> lock.owner == old(lock.owner)
    ensures (end == NoMac || end == Connected || end == NotConnected) ==>
      (if removable then !lock.present && lock.owner == None else lock.present && lock.owner == Some(pid))
    ensures mac.Some? <==> end == Connected || end == NotConnected
    ensures mac.Some? ==> mac == ScanMatch.LastFind(w.scans[FirstScanHit(w.scans[..retryLimit], name)].value, name)
  {
    mac := None;
    if !CheckHci(w.check).ok {
      return false, DeviceDown, None;
    }
    var created, sleeps := lock.Acquire(w.lockPolls, 2, true, w.lockWritten, pid);
    if created.None? {
      return false, LockFailed, None;
    }
    var attempts;
    mac, attempts := ScanLoop(w.scans, name, retryLimit);
    if mac.None? {
      lock.Release(true, removable);
      return false, NoMac, None;
    }
    var established, tries, periodic := ConnectLoop(w.links, MaxConnectionAttempts);
    lock.Release(true, removable);
    ok := established;
    end := if established then Connected else NotConnected;
  }

  // ---------------------------------------------------------------------
  // The script's entry point

  /**
   * The entry point: up to three `ble_connect` calls, stopping at the
   * first success, with a 30 s sleep after every failure (the last one
   * included); exit code 0 exactly when one succeeded.
   */
  method ConnectWithRetries(verdicts: seq<bool>) returns (exitCode: int, calls: nat, waits: nat)
    requires 3 <= |verdicts|
    ensures exitCode == 0 <==> exists i :: 0 <= i < 3 && verdicts[i]
    ensures exitCode == 0 || exitCode == 1
    ensures calls == (if exitCode == 0 then FirstTrue(verdicts[..3]) + 1 else 3)
    ensures waits == (if exitCode == 0 then calls - 1 else calls)
  {
    var success := false;
    calls, waits := 0, 0;
    ghost var prefix := verdicts[..3];
    while calls < 3
      invariant 0 <= calls <= 3
      invariant forall j :: 0 <= j < calls ==> !verdicts[j]
      invariant waits == calls
    {
      assert prefix[calls] == verdicts[calls];
      if verdicts[calls] {
        FirstTrueAt(prefix, calls);
        return 0, calls + 1, waits;
      }
      waits := waits + 1;
      calls := calls + 1;
    }
    exitCode := 1;
  }
}
