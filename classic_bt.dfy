/**
 * The classic Bluetooth reconnection tester of `bt_reconnect_linux.py`:
 * scan for the target by name with `bluetoothctl`, pair, trust and
 * connect, switch the adapter off and on, and check that the device came
 * back by itself.  Every step is retried by `_retry_operation`.
 *
 * What each command printed and returned is an input.
 */
module ClassicBt {
  import opened Base
  import opened Text
  import ScanMatch
  import Retry

  // ---------------------------------------------------------------------
  // `_run_command`

  /** What running a command did: it returned, hit the alarm after `timeout` seconds, or raised. */
  datatype Proc = Ran(out: string, err: string, code: int) | TimedOut(timeout: nat) | Raised(message: string)

  datatype Triple = Triple(out: string, err: string, code: int)

  /**
   * `_run_command`: the raw output and code of a command that returned;
   * `("", message, -1)` after a timeout or an exception.
   */
  function RunCommand(p: Proc): Triple
  {
    match p
    case Ran(out, err, code) => Triple(out, err, code)
    case TimedOut(timeout) => Triple("", "Command timeout after " + NatStr(timeout) + "s", -1)
    case Raised(message) => Triple("", message, -1)
  }

  /** A command that ran reports its own triple; a timeout or an exception reports no output, code -1 and its message. */
  lemma RunCommandShape(p: Proc)
    ensures !p.Ran? ==> RunCommand(p).out == "" && RunCommand(p).code == -1
    ensures p.Ran? ==> RunCommand(p) == Triple(p.out, p.err, p.code)
    ensures p.TimedOut? ==> RunCommand(p).err == "Command timeout after " + NatStr(p.timeout) + "s"
    ensures p.Raised? ==> RunCommand(p).err == p.message
  {
  }

  /** A failed command never shows output, so none of the keyword checks below can pass on it. */
  lemma FailedCommandSilent(p: Proc, kw: string)
    requires !p.Ran? && kw != ""
    ensures !Contains(Lower(RunCommand(p).out), kw)
  {
    assert Lower(RunCommand(p).out) == "";
  }

  // ---------------------------------------------------------------------
  // Scanning

  /** Index of the first pair whose name holds the target, or `|pairs|`. */
  function FirstNamed(pairs: seq<ScanMatch.ScanEntry>, target: string): (k: nat)
    ensures k <= |pairs|
  {
    if pairs == [] || ScanMatch.NameHas(pairs[0], target) then 0 else 1 + FirstNamed(pairs[1..], target)
  }

  /** The pair `FirstNamed` picks holds the target, and none before it does. */
  lemma {:induction false} FirstNamedSpec(pairs: seq<ScanMatch.ScanEntry>, target: string)
    ensures var k := FirstNamed(pairs, target);
      (k < |pairs| ==> ScanMatch.NameHas(pairs[k], target)) && forall j :: 0 <= j < k ==> !ScanMatch.NameHas(pairs[j], target)
  {
    if pairs != [] && !ScanMatch.NameHas(pairs[0], target) {
      FirstNamedSpec(pairs[1..], target);
    }
  }

  /**
   * What a scan yields: nothing when the scan command failed; otherwise
   * the MAC of the first `(MAC, name)` pair of its output whose name
   * contains the target, ignoring case.
   */
  function ScanMacOf(p: Proc, target: string): (m: Option<string>)
    ensures m.Some? ==> RunCommand(p).code == 0 && |m.value| == 17
  {
    if RunCommand(p).code != 0 then None
    else
      var pairs := Pairs(p);
      var k := FirstNamed(pairs, target);
      if k < |pairs| then Some(pairs[k].mac) else None
  }

  /** A scan finds the target exactly when it succeeded and some pair names it; the MAC is the first such pair's. */
  lemma ScanMacIff(p: Proc, target: string)
    ensures ScanMacOf(p, target).Some? <==>
      (RunCommand(p).code == 0 && exists i :: 0 <= i < |Pairs(p)| && ScanMatch.NameHas(Pairs(p)[i], target))
    ensures ScanMacOf(p, target).Some? ==> exists i :: (0 <= i < |Pairs(p)| && ScanMatch.NameHas(Pairs(p)[i], target)
      && ScanMacOf(p, target).value == Pairs(p)[i].mac && forall j :: 0 <= j < i ==> !ScanMatch.NameHas(Pairs(p)[j], target))
    ensures ScanMacOf(p, target).Some? ==> |ScanMacOf(p, target).value| == 17
  {
    if RunCommand(p).code == 0 {
      FirstNamedSpec(Pairs(p), target);
      var k := FirstNamed(Pairs(p), target);
      if k == |Pairs(p)| {
        assert forall i :: 0 <= i < |Pairs(p)| ==> !ScanMatch.NameHas(Pairs(p)[i], target);
      }
    }
  }

  /** A name printed on the line after its MAC still identifies the target. */
  lemma NameOnNextLineFound()
    ensures ScanMacOf(Ran("AA:BB:CC:DD:EE:FF\nMyPhone\n", "", 0), "MyPhone") == Some("AA:BB:CC:DD:EE:FF")
  {
    var p := Ran("AA:BB:CC:DD:EE:FF\nMyPhone\n", "", 0);
    var e := ScanMatch.ScanEntry("AA:BB:CC:DD:EE:FF", "MyPhone");
    ScanMatch.NameOnNextLine();
    assert Pairs(p) == [e];
    NamesItself(e);
    assert FirstNamed([e], "MyPhone") == 0;
  }

  /** A pair names its own name. */
  lemma NamesItself(e: ScanMatch.ScanEntry)
    ensures ScanMatch.NameHas(e, e.name)
  {
    assert OccursAt(Lower(e.name), Lower(e.name), 0);
  }

  /** The `(MAC, name)` pairs of a scan's output. */
  function Pairs(p: Proc): seq<ScanMatch.ScanEntry>
  {
    ScanMatch.Pairs(RunCommand(p).out)
  }

  /** `ws` are the first `n` waits of `_retry_operation`: `2 ** attempt` after attempt 1, 2, ... */
  ghost predicate DoublingWaits(ws: seq<nat>, n: nat)
  {
    |ws| == n && forall i :: 0 <= i < n ==> ws[i] == Retry.Pow2(i + 1)
  }

  lemma DoublingWaitsSnoc(ws: seq<nat>, n: nat)
    requires DoublingWaits(ws, n)
    ensures DoublingWaits(ws + [Retry.Pow2(n + 1)], n + 1)
  {
  }

  /** Whether each scan finds the target. */
  function ScanVerdicts(scans: seq<Proc>, target: string): (vs: seq<bool>)
    ensures |vs| == |scans|
  {
    if scans == [] then [] else ScanVerdicts(scans[..|scans| - 1], target) + [ScanMacOf(scans[|scans| - 1], target).Some?]
  }

  lemma {:induction false} ScanVerdictAt(scans: seq<Proc>, target: string, i: nat)
    requires i < |scans|
    ensures ScanVerdicts(scans, target)[i] == ScanMacOf(scans[i], target).Some?
  {
    if i < |scans| - 1 {
      ScanVerdictAt(scans[..|scans| - 1], target, i);
    }
  }

  // ---------------------------------------------------------------------
  // Pairing, trusting, connecting

  const PairKeywords: seq<string> := ["pairing successful", "already paired", "is already paired"]
  const TrustKeywords: seq<string> := ["trusted: yes", "trust succeeded", "already trusted"]
  const ConnectKeywords: seq<string> := ["connected: yes", "connection successful"]

  /** `any(keyword in out.lower() for keyword in keywords)`. */
  predicate AnyKeyword(out: string, keywords: seq<string>)
  {
    exists i :: 0 <= i < |keywords| && Contains(Lower(out), keywords[i])
  }

  /** The third pairing keyword adds nothing: it contains the second. */
  lemma PairKeywordsRedundant(out: string)
    ensures AnyKeyword(out, PairKeywords) <==>
      Contains(Lower(out), "pairing successful") || Contains(Lower(out), "already paired")
  {
    var l := Lower(out);
    if Contains(l, "is already paired") {
      var i := ContainsOccurs(l, "is already paired");
      assert l[i + 3..i + 17] == l[i..i + 17][3..];
      assert OccursAt(l, "already paired", i + 3);
    }
    if Contains(l, "already paired") {
      assert Contains(Lower(out), PairKeywords[1]);
    }
    if Contains(l, "pairing successful") {
      assert Contains(Lower(out), PairKeywords[0]);
    }
  }

  /** The three commands of one `connect_target_device` call. */
  datatype ConnectTry = ConnectTry(pair: Proc, trust: Proc, connect: Proc)

  /** A usable target MAC: `self.target_mac` is truthy. */
  predicate HasMac(mac: Option<string>)
  {
    mac.Some? && mac.value != ""
  }

  /** How many of the three commands a call runs: none without a MAC, and none after the first failed check. */
  function ConnectRan(mac: Option<string>, t: ConnectTry): (n: nat)
    ensures n <= 3
    ensures n == 0 <==> !HasMac(mac)
  {
    if !HasMac(mac) then 0
    else if !AnyKeyword(RunCommand(t.pair).out, PairKeywords) then 1
    else if !AnyKeyword(RunCommand(t.trust).out, TrustKeywords) then 2
    else 3
  }

  /** Whether `connect_target_device` returns `True`. */
  predicate ConnectOk(mac: Option<string>, t: ConnectTry)
  {
    HasMac(mac) && AnyKeyword(RunCommand(t.pair).out, PairKeywords)
    && AnyKeyword(RunCommand(t.trust).out, TrustKeywords)
    && AnyKeyword(RunCommand(t.connect).out, ConnectKeywords)
  }

  function ConnectVerdicts(mac: Option<string>, ts: seq<ConnectTry>): (vs: seq<bool>)
    ensures |vs| == |ts| && forall i :: 0 <= i < |ts| ==> vs[i] == ConnectOk(mac, ts[i])
  {
    if ts == [] then [] else ConnectVerdicts(mac, ts[..|ts| - 1]) + [ConnectOk(mac, ts[|ts| - 1])]
  }

  // ---------------------------------------------------------------------
  // The adapter and the reconnection check

  /** Whether `toggle_bluetooth_adapter(action)` returns `True`: only "up" and "down" run a command. */
  predicate ToggleOk(action: string, p: Proc)
  {
    (action == "up" || action == "down") && RunCommand(p).code == 0
  }

  function ToggleVerdicts(action: string, ps: seq<Proc>): (vs: seq<bool>)
    ensures |vs| == |ps| && forall i :: 0 <= i < |ps| ==> vs[i] == ToggleOk(action, ps[i])
  {
    if ps == [] then [] else ToggleVerdicts(action, ps[..|ps| - 1]) + [ToggleOk(action, ps[|ps| - 1])]
  }

  /** Whether `check_reconnect_status` returns `True`: the device info reads "connected: yes". */
  predicate Reconnected(mac: Option<string>, p: Proc)
  {
    HasMac(mac) && RunCommand(p).code == 0 && Contains(Lower(RunCommand(p).out), "connected: yes")
  }

  function CheckVerdicts(mac: Option<string>, ps: seq<Proc>): (vs: seq<bool>)
    ensures |vs| == |ps| && forall i :: 0 <= i < |ps| ==> vs[i] == Reconnected(mac, ps[i])
  {
    if ps == [] then [] else CheckVerdicts(mac, ps[..|ps| - 1]) + [Reconnected(mac, ps[|ps| - 1])]
  }

  // ---------------------------------------------------------------------
  // `run_full_test`

  /** What the environment does in each attempt of each step. */
  datatype TestRun = TestRun(scans: seq<Proc>, connects: seq<ConnectTry>, downs: seq<Proc>, ups: seq<Proc>, infos: seq<Proc>)

  /** The step at which a test stops, or `Passed`. */
  datatype TestEnd = ScanFailed | ConnectFailed | DownFailed | UpFailed | NotReconnected | Passed

  /** The check runs with `max_retry=2`. */
  const CheckRetries: nat := 2

  predicate RunGiven(run: TestRun, maxRetry: nat)
  {
    maxRetry <= |run.scans| && maxRetry <= |run.connects| && maxRetry <= |run.downs|
    && maxRetry <= |run.ups| && CheckRetries <= |run.infos|
  }

  /** The MAC the scan step records, when one of its attempts finds the target. */
  function ScannedMac(run: TestRun, target: string, maxRetry: nat): (mac: Option<string>)
    requires RunGiven(run, maxRetry)
    ensures mac.Some? <==> true in ScanVerdicts(run.scans, target)[..maxRetry]
  {
    var vs := ScanVerdicts(run.scans, target)[..maxRetry];
    var k := FirstTrue(vs);
    if k < maxRetry then
      assert vs[k] == ScanVerdicts(run.scans, target)[k];
      ScanVerdictAt(run.scans, target, k);
      ScanMacOf(run.scans[k], target)
    else
      assert forall j :: 0 <= j < maxRetry ==> !vs[j];
      None
  }

  /**
   * The steps run strictly in order and the first that exhausts its
   * retries ends the test; the test passes only when the check finds the
   * device connected again.
   */
  function TestEndOf(run: TestRun, target: string, maxRetry: nat): (e: TestEnd)
    requires RunGiven(run, maxRetry)
    ensures e == Passed <==> (
      (true in ScanVerdicts(run.scans, target)[..maxRetry])
      && (true in ConnectVerdicts(ScannedMac(run, target, maxRetry), run.connects)[..maxRetry])
      && (true in ToggleVerdicts("down", run.downs)[..maxRetry])
      && (true in ToggleVerdicts("up", run.ups)[..maxRetry])
      && (true in CheckVerdicts(ScannedMac(run, target, maxRetry), run.infos)[..CheckRetries]))
  {
    var mac := ScannedMac(run, target, maxRetry);
    if mac.None? then ScanFailed
    else if !(true in ConnectVerdicts(mac, run.connects)[..maxRetry]) then ConnectFailed
    else if !(true in ToggleVerdicts("down", run.downs)[..maxRetry]) then DownFailed
    else if !(true in ToggleVerdicts("up", run.ups)[..maxRetry]) then UpFailed
    else if !(true in CheckVerdicts(mac, run.infos)[..CheckRetries]) then NotReconnected
    else Passed
  }

  /** `ClassicBluetoothReconnectTester`: its configuration, and the MAC a scan records. */
  class Tester {
    const targetName: string
    const hciDevice: string
    const maxRetry: nat
    var targetMac: Option<string>

    constructor(targetName: string, hciDevice: string, maxRetry: nat)
      ensures this.targetName == targetName && this.hciDevice == hciDevice && this.maxRetry == maxRetry
      ensures targetMac == None
    {
      this.targetName := targetName;
      this.hciDevice := hciDevice;
      this.maxRetry := maxRetry;
      targetMac := None;
    }

    /**
     * `scan_target_device`: records the MAC of the first pair naming the
     * target and returns `True`; a failed scan or one without the target
     * leaves the recorded MAC as it was.
     */
    method ScanTargetDevice(p: Proc) returns (ok: bool)
      modifies this
      ensures ok == ScanMacOf(p, targetName).Some?
      ensures targetMac == if ok then ScanMacOf(p, targetName) else old(targetMac)
    {
      var r := RunCommand(p);
      if r.code != 0 {
        return false;
      }
      var pairs := ScanMatch.Pairs(r.out);
      var mac := ScanMatch.FirstTargetMac(pairs, targetName);
      var k := FirstNamed(pairs, targetName);
      FirstNamedSpec(pairs, targetName);
      if mac.None? {
        return false;
      }
      assert mac == Some(pairs[k].mac) by {
        var i :| 0 <= i < |pairs| && ScanMatch.NameHas(pairs[i], targetName) && pairs[i].mac == mac.value
          && forall j :: 0 <= j < i ==> !ScanMatch.NameHas(pairs[j], targetName);
        assert i == k;
      }
      targetMac := mac;
      ok := true;
    }

    /** `_retry_operation(self.scan_target_device)`: the scan step with its waits `2 ** attempt`. */
    method RetryScan(scans: seq<Proc>) returns (ok: bool, waits: seq<nat>, attempts: nat)
      requires maxRetry <= |scans|
      modifies this
      ensures var vs := ScanVerdicts(scans, targetName);
        && (ok <==> true in vs[..maxRetry])
        && (ok ==> attempts == FirstTrue(vs[..maxRetry]) + 1 && targetMac == ScanMacOf(scans[attempts - 1], targetName))
        && (!ok ==> attempts == maxRetry && targetMac == old(targetMac))
        && |waits| == (if attempts == 0 then 0 else attempts - 1)
        && forall i :: 0 <= i < |waits| ==> waits[i] == Retry.Pow2(i + 1)
    {
      ghost var vs := ScanVerdicts(scans, targetName);
      ghost var prefix := vs[..maxRetry];
      waits := [];
      attempts := 0;
      ok := false;
      while attempts < maxRetry
        invariant 0 <= attempts <= maxRetry
        invariant forall j :: 0 <= j < attempts ==> !prefix[j]
        invariant targetMac == old(targetMac)
        invariant DoublingWaits(waits, if attempts == 0 then 0 else attempts - 1)
      {
        var found;
        found, waits := ScanStep(scans, attempts, waits);
        assert prefix[attempts] == found;
        attempts := attempts + 1;
        if found {
          FirstTrueAt(prefix, attempts - 1);
          return true, waits, attempts;
        }
      }
      assert !(true in prefix);
    }

    /** Attempt `attempts` of the retried scan: the wait before it (none before the first), then the scan. */
    method ScanStep(scans: seq<Proc>, attempts: nat, waits: seq<nat>) returns (found: bool, waits': seq<nat>)
      requires attempts < |scans| && DoublingWaits(waits, if attempts == 0 then 0 else attempts - 1)
      modifies this
      ensures found == ScanVerdicts(scans, targetName)[attempts]
      ensures targetMac == if found then ScanMacOf(scans[attempts], targetName) else old(targetMac)
      ensures DoublingWaits(waits', attempts)
    {
      waits' := waits;
      if attempts > 0 {
        DoublingWaitsSnoc(waits, attempts - 1);
        waits' := waits + [Retry.Pow2(attempts)];
      }
      found := ScanTargetDevice(scans[attempts]);
      ScanVerdictAt(scans, targetName, attempts);
    }

    /** `connect_target_device`: pair, trust, connect, each judged by its keywords, stopping at the first failure. */
    method ConnectTargetDevice(t: ConnectTry) returns (ok: bool, ran: nat)
      ensures ok == ConnectOk(targetMac, t)
      ensures ran == ConnectRan(targetMac, t)
    {
      if targetMac.None? || targetMac.value == "" {
        return false, 0;
      }
      var pair := RunCommand(t.pair);
      if !AnyKeyword(pair.out, PairKeywords) {
        return false, 1;
      }
      var trust := RunCommand(t.trust);
      if !AnyKeyword(trust.out, TrustKeywords) {
        return false, 2;
      }
      var connect := RunCommand(t.connect);
      ok := AnyKeyword(connect.out, ConnectKeywords);
      ran := 3;
    }

    /**
     * `run_full_test`: scan, connect, adapter down, adapter up, a 5 s
     * pause, and the reconnection check retried twice; `disconnect` runs
     * at the end, whatever happened, exactly when the recorded MAC is
     * truthy (recorded and not empty).
     */
    method RunFullTest(run: TestRun) returns (result: bool, end: TestEnd, disconnected: bool)
      requires RunGiven(run, maxRetry)
      modifies this
      ensures end == TestEndOf(run, targetName, maxRetry) && result == (end == Passed)
      ensures targetMac == if end == ScanFailed then old(targetMac) else ScannedMac(run, targetName, maxRetry)
      ensures disconnected == HasMac(targetMac)
    {
      end := ScanFailed;
      var scanned, w1, n1 := RetryScan(run.scans);
      if scanned {
        FirstTrueAt(ScanVerdicts(run.scans, targetName)[..maxRetry], n1 - 1);
        assert targetMac == ScannedMac(run, targetName, maxRetry);
        var connected, w2, n2 := Retry.RetryTruthy(ConnectVerdicts(targetMac, run.connects), None, maxRetry);
        var down, w3, n3 := Retry.RetryTruthy(ToggleVerdicts("down", run.downs), None, maxRetry);
        var up, w4, n4 := Retry.RetryTruthy(ToggleVerdicts("up", run.ups), None, maxRetry);
        var back, w5, n5 := Retry.RetryTruthy(CheckVerdicts(targetMac, run.infos), Some(CheckRetries), maxRetry);
        end := if !connected then ConnectFailed
          else if !down then DownFailed
          else if !up then UpFailed
          else if !back then NotReconnected
          else Passed;
      }
      result := end == Passed;
      disconnected := HasMac(targetMac);
    }
  }
}
