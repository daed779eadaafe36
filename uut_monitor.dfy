/**
 * The decisions of the two console monitors once negotiation is over:
 * `check_device_status` and the continue prompt of `uut_sleep_monitor.py`,
 * its sequence of sleep commands that stops at the first failed send, and
 * the wake-up markers both scripts look for while they watch the console.
 */
module UutMonitor {
  import opened Base
  import opened Text
  import Utf8
  import Telnet

  /** What `sock.send` does with the bytes. */
  datatype SendOutcome = SendOk | BrokenPipe | SendFailed(reason: string)

  /** `safe_send`: true exactly when the send went through. */
  function SafeSend(o: SendOutcome): (ok: bool)
    ensures ok <==> o.SendOk?
  {
    match o
    case SendOk => true
    case BrokenPipe => false
    case SendFailed(_) => false
  }

  // ---------------------------------------------------------------------
  // check_device_status (uut_sleep_monitor.py:105-158)
  // ---------------------------------------------------------------------

  const RunningIndicators: seq<string> := [
    "SOC turned on", "Begin resume", "# ", "$ ", "login:",
    "root@", "PM: suspend", "powCoord:", "Welcome to", "BusyBox"
  ]

  predicate ShowsRunning(text: string)
  {
    exists k :: 0 <= k < |RunningIndicators| && Contains(text, RunningIndicators[k])
  }

  datatype Status = Status(connected: bool, running: bool)

  /** The verdict on the probe `\r\n` and what `safe_recv` returned after it. */
  function DeviceStatus(probe: SendOutcome, reply: seq<Byte>): (st: Status)
    ensures st.connected <==> probe.SendOk?
    ensures st.running ==> st.connected && reply != []
  {
    if !SafeSend(probe) then Status(false, false)
    else if reply == [] then Status(true, false)
    else
      var text := Utf8.Decode(reply);
      if |Strip(text)| == 0 then Status(true, false)
      else Status(true, ShowsRunning(text))
  }

  /** Every indicator starts with a character that is not white space. */
  lemma IndicatorsStartVisible()
    ensures forall k :: 0 <= k < |RunningIndicators| ==> RunningIndicators[k] != [] && !IsSpace(RunningIndicators[k][0])
  {
  }

  /** White space alone holds nothing that starts with a visible character. */
  lemma NoVisibleIn(text: string, sub: string)
    requires AllSpace(text) && sub != [] && !IsSpace(sub[0])
    ensures !Contains(text, sub)
  {
    forall i | 0 <= i <= |text|
      ensures !OccursAt(text, sub, i)
    {
      if i + |sub| <= |text| {
        assert text[i..i + |sub|][0] == text[i];
      }
    }
  }

  /** Text made of white space alone shows no indicator. */
  lemma BlankShowsNothing(text: string)
    requires AllSpace(text)
    ensures !ShowsRunning(text)
  {
    IndicatorsStartVisible();
    forall k | 0 <= k < |RunningIndicators|
      ensures !Contains(text, RunningIndicators[k])
    {
      NoVisibleIn(text, RunningIndicators[k]);
    }
  }

  /**
   * The device counts as running exactly when the probe was sent and the
   * decoded reply holds one of the indicators: the checks for no reply and
   * for a blank reply never hide one.
   */
  lemma RunningIff(probe: SendOutcome, reply: seq<Byte>)
    ensures DeviceStatus(probe, reply).running <==> probe.SendOk? && ShowsRunning(Utf8.Decode(reply))
  {
    var text := Utf8.Decode(reply);
    if reply == [] {
      assert text == "";
      BlankShowsNothing(text);
    } else if |Strip(text)| == 0 {
      BlankShowsNothing(text);
    }
  }

  /** A reply whose text holds any indicator, a shell prompt say, means the device is running. */
  lemma IndicatorShowsRunning(t: string, k: nat)
    requires k < |RunningIndicators| && Contains(t, RunningIndicators[k])
    ensures DeviceStatus(SendOk, Utf8.Encode(t)) == Status(true, true)
  {
    Utf8.DecodeEncode(t);
    IndicatorsStartVisible();
    var ind := RunningIndicators[k];
    var i := ContainsOccurs(t, ind);
    assert t[i] == t[i..i + |ind|][0];
    assert !AllSpace(t);
  }

  /** `check_device_status`: probe, then read the reply with `safe_recv`. */
  method CheckDeviceStatus(probe: SendOutcome, events: seq<Telnet.Recv>) returns (st: Status, used: nat)
    ensures st == DeviceStatus(probe, Telnet.RecvAll(events).0)
    ensures used == if probe.SendOk? then Telnet.RecvAll(events).1 else 0
  {
    if !SafeSend(probe) {
      return Status(false, false), 0;
    }
    var data;
    data, used := Telnet.SafeRecv(events);
    if data == [] {
      return Status(true, false), used;
    }
    var text := Utf8.Decode(data);
    if |Strip(text)| == 0 {
      return Status(true, false), used;
    }
    st := Status(true, ShowsRunning(text));
  }

  // ---------------------------------------------------------------------
  // The continue prompt and the command sequence (uut_sleep_monitor.py:197-273)
  // ---------------------------------------------------------------------

  /** The answer to "continue?": only "y" or "yes", in any case and with spaces around; no input counts as "n". */
  function Proceed(answer: Option<string>): (go: bool)
  {
    match answer
    case None => false
    case Some(a) =>
      var r := Lower(Strip(a));
      r == "y" || r == "yes"
  }

  /** Going on needs a 'y' in what was typed. */
  lemma ProceedNeedsY(a: string) returns (i: nat)
    requires Proceed(Some(a))
    ensures i < |a| && (a[i] == 'y' || a[i] == 'Y')
  {
    var lo, hi := StripSlice(a);
    var r := Strip(a);
    assert Lower(r)[0] == 'y';
    assert LowerChar(r[0]) == 'y';
    i := lo;
    assert a[lo] == r[0];
  }

  /** An answer with no whitespace around it is judged by its lower-cased text alone. */
  lemma ProceedWord(a: string)
    requires a != [] && !IsSpace(a[0]) && !IsSpace(a[|a| - 1])
    ensures Proceed(Some(a)) <==> Lower(a) == "y" || Lower(a) == "yes"
  {
    StripKeeps(a);
  }

  /** A few answers as typed. */
  lemma ProceedExamples()
    ensures Proceed(Some("Yes")) && !Proceed(Some("ye")) && !Proceed(None)
  {
    assert Proceed(Some("Yes")) by {
      ProceedWord("Yes");
      var l := Lower("Yes");
      assert l[0] == 'y' && l[1] == 'e' && l[2] == 's';
    }
    assert !Proceed(Some("ye")) by {
      ProceedWord("ye");
      assert |Lower("ye")| == 2;
    }
  }

  const SleepCommands: seq<string> := [
    "echo DeviceSuspendRequested > /tmp/sonospowercoordinator_USR1_cmd_OVERRIDE",
    "killall -SIGUSR1 sonospowercoordinator"
  ]

  /** How many of the commands go out: all up to the first failed send. */
  function SentBefore(sends: seq<SendOutcome>): (n: nat)
    ensures n <= |sends|
    ensures forall i :: 0 <= i < n ==> sends[i].SendOk?
    ensures n < |sends| ==> !sends[n].SendOk?
  {
    if sends == [] || !SafeSend(sends[0]) then 0 else 1 + SentBefore(sends[1..])
  }

  function CommandFrame(cmd: string): seq<Byte>
  {
    Utf8.Encode(cmd + "\n")
  }

  /** The command loop: one outcome per command, and it stops at the first failed send. */
  method SendSleepCommands(sends: seq<SendOutcome>) returns (frames: seq<seq<Byte>>)
    requires |sends| == |SleepCommands|
    ensures |frames| == SentBefore(sends)
    ensures forall i :: 0 <= i < |frames| ==> frames[i] == CommandFrame(SleepCommands[i])
  {
    frames := [];
    var idx := 0;
    while idx < |SleepCommands|
      invariant 0 <= idx <= |SleepCommands|
      invariant |frames| == idx
      invariant forall i :: 0 <= i < idx ==> sends[i].SendOk? && frames[i] == CommandFrame(SleepCommands[i])
    {
      if !SafeSend(sends[idx]) {
        FirstFailure(sends, idx);
        return;
      }
      frames := frames + [CommandFrame(SleepCommands[idx])];
      idx := idx + 1;
    }
    AllSent(sends);
  }

  lemma {:induction false} FirstFailure(sends: seq<SendOutcome>, k: nat)
    requires k < |sends| && !sends[k].SendOk?
    requires forall i :: 0 <= i < k ==> sends[i].SendOk?
    ensures SentBefore(sends) == k
  {
    if k > 0 {
      FirstFailure(sends[1..], k - 1);
    }
  }

  lemma {:induction false} AllSent(sends: seq<SendOutcome>)
    requires forall i :: 0 <= i < |sends| ==> sends[i].SendOk?
    ensures SentBefore(sends) == |sends|
  {
    if sends != [] {
      AllSent(sends[1..]);
    }
  }

  /** Where a session of `uut_sleep_monitor.py` stops before it starts watching. */
  datatype SessionEnd = LinkDown | Aborted | Commanded(sent: nat)

  function SessionEndOf(st: Status, answer: Option<string>, sends: seq<SendOutcome>): (e: SessionEnd)
  {
    if !st.connected then LinkDown
    else if !st.running && !Proceed(answer) then Aborted
    else Commanded(SentBefore(sends))
  }

  /** The question is asked only of a device that seems down; a running device goes straight to the commands. */
  lemma SessionIff(st: Status, answer: Option<string>, sends: seq<SendOutcome>)
    requires st.running ==> st.connected
    ensures SessionEndOf(st, answer, sends).Commanded? <==> st.connected && (st.running || Proceed(answer))
    ensures st.running ==> SessionEndOf(st, answer, sends) == SessionEndOf(st, None, sends)
    ensures SessionEndOf(st, answer, sends).Commanded? ==> SessionEndOf(st, answer, sends).sent <= |sends|
  {
  }

  // ---------------------------------------------------------------------
  // Watching the console (uut_console_monitor.py:240-268, uut_sleep_monitor.py:314-338)
  // ---------------------------------------------------------------------

  datatype Wake = WifiWake | BleWake

  const WifiMarker := "WIFI_WAKEUP fired"
  const BleMarker := "BLE_WAKEUP fired"

  /** The alert of `uut_console_monitor.py` for one decoded chunk: WiFi is looked for first, so there is at most one. */
  function ConsoleAlert(text: string): Option<Wake>
  {
    if Contains(text, WifiMarker) then Some(WifiWake)
    else if Contains(text, BleMarker) then Some(BleWake)
    else None
  }

  /**
   * The alert of `uut_sleep_monitor.py`: only WiFi, and the marker without
   * "fired", so it goes off on every chunk in which the console monitor
   * sees the WiFi marker.
   */
  predicate SleepMonitorAlert(text: string)
  {
    Contains(text, "WIFI_WAKEUP")
  }

  lemma ContainsPrefixOf(t: string, a: string, b: string)
    requires Contains(t, a + b)
    ensures Contains(t, a)
  {
    var i := ContainsOccurs(t, a + b);
    assert t[i..i + |a|] == (a + b)[..|a|] == a;
    assert OccursAt(t, a, i);
  }

  /**
   * A chunk holding both markers gives the WiFi alert only; the BLE alert
   * means the WiFi marker is absent. Whatever the console monitor alerts
   * as WiFi, the sleep monitor alerts too: it goes off on every chunk
   * holding the WiFi marker.
   */
  lemma AlertOrder(text: string)
    ensures Contains(text, WifiMarker) ==> ConsoleAlert(text) == Some(WifiWake)
    ensures ConsoleAlert(text) == Some(BleWake) <==> !Contains(text, WifiMarker) && Contains(text, BleMarker)
    ensures ConsoleAlert(text) == Some(WifiWake) ==> SleepMonitorAlert(text)
    ensures Contains(text, WifiMarker) ==> SleepMonitorAlert(text)
  {
    if Contains(text, WifiMarker) {
      assert WifiMarker == "WIFI_WAKEUP" + " fired";
      ContainsPrefixOf(text, "WIFI_WAKEUP", " fired");
    }
  }

  /** One poll of the socket while watching. */
  datatype Poll = Got(bytes: seq<Byte>) | NoData | Interrupted | Dropped

  function AlertText(w: Wake): string
  {
    match w
    case WifiWake => "\n[!!!] 检测到 WiFi 唤醒！\n"
    case BleWake => "\n[!!!] 检测到 BLE 唤醒！\n"
  }

  /** The alert for a chunk in one of the two scripts. */
  function ChunkAlert(text: string, console: bool): Option<Wake>
  {
    if console then ConsoleAlert(text)
    else if SleepMonitorAlert(text) then Some(WifiWake)
    else None
  }

  /** The log lines and alerts of the watch loop, which ends at an interrupt or a dropped connection. */
  datatype Watched = Watched(log: string, alerts: seq<Wake>)

  /** A received chunk in front of what the later polls log: an empty chunk is skipped. */
  function Received(bs: seq<Byte>, console: bool, rest: Watched): (w: Watched)
    ensures |w.alerts| <= |rest.alerts| + 1
  {
    if bs == [] then rest
    else
      var text := Utf8.Decode(bs);
      match ChunkAlert(text, console)
      case None => Watched(text + rest.log, rest.alerts)
      case Some(a) => Watched(text + AlertText(a) + rest.log, [a] + rest.alerts)
  }

  function WatchLog(polls: seq<Poll>, console: bool): (w: Watched)
    ensures |w.alerts| <= |polls|
  {
    if polls == [] then Watched("", [])
    else match polls[0]
      case Got(bs) => Received(bs, console, WatchLog(polls[1..], console))
      case NoData => WatchLog(polls[1..], console)
      case Interrupted => Watched("", [])
      case Dropped => Watched("", [])
  }

  /** One received chunk of the watch loop: its text and alert are appended to the log. */
  method LogChunk(bs: seq<Byte>, console: bool, log: string, alerts: seq<Wake>, ghost rest: Watched)
    returns (log': string, alerts': seq<Wake>)
    ensures Watched(log' + rest.log, alerts' + rest.alerts)
      == Watched(log + Received(bs, console, rest).log, alerts + Received(bs, console, rest).alerts)
  {
    log', alerts' := log, alerts;
    if bs != [] {
      var text := Utf8.Decode(bs);
      log' := log' + text;
      var alert := ChunkAlert(text, console);
      if alert.Some? {
        log' := log' + AlertText(alert.value);
        assert (alerts + [alert.value]) + rest.alerts == alerts + ([alert.value] + rest.alerts);
        alerts' := alerts' + [alert.value];
      }
    }
  }

  method Watch(polls: seq<Poll>, console: bool) returns (log: string, alerts: seq<Wake>)
    ensures Watched(log, alerts) == WatchLog(polls, console)
  {
    log := "";
    alerts := [];
    var k := 0;
    while k < |polls|
      invariant 0 <= k <= |polls|
      invariant WatchLog(polls, console)
        == Watched(log + WatchLog(polls[k..], console).log, alerts + WatchLog(polls[k..], console).alerts)
    {
      assert polls[k..][0] == polls[k] && polls[k..][1..] == polls[k + 1..];
      ghost var rest := WatchLog(polls[k + 1..], console);
      match polls[k] {
        case Got(bs) =>
          log, alerts := LogChunk(bs, console, log, alerts, rest);
        case NoData =>
        case Interrupted =>
          assert log + "" == log && alerts + [] == alerts;
          return;
        case Dropped =>
          assert log + "" == log && alerts + [] == alerts;
          return;
      }
      k := k + 1;
    }
    assert polls[k..] == [];
    assert log + "" == log && alerts + [] == alerts;
  }

  /** A chunk holding the WiFi marker raises the WiFi alert first in the console monitor. */
  lemma WifiChunkAlerts(t: string, more: seq<Poll>)
    requires Contains(t, WifiMarker)
    ensures var w := WatchLog([Got(Utf8.Encode(t))] + more, true);
      |w.alerts| > 0 && w.alerts[0] == WifiWake
  {
    Utf8.DecodeEncode(t);
    var ps := [Got(Utf8.Encode(t))] + more;
    assert ps[0] == Got(Utf8.Encode(t)) && ps[1..] == more;
    var i := ContainsOccurs(t, WifiMarker);
    assert |Utf8.Encode(t)| >= |t| > 0;
  }

  /** Text shorter than a marker cannot hold it. */
  lemma TooShort(s: string, m: string)
    requires |s| < |m|
    ensures !Contains(s, m)
  {
    forall i | 0 <= i <= |s|
      ensures !OccursAt(s, m, i)
    {
    }
  }

  /** Two chunks of text without markers are logged one after the other and raise nothing. */
  lemma QuietChunks(a: string, b: string)
    requires a != [] && b != []
    requires ConsoleAlert(a).None? && ConsoleAlert(b).None?
    ensures WatchLog([Got(Utf8.Encode(a)), Got(Utf8.Encode(b))], true) == Watched(a + b, [])
  {
    Utf8.DecodeEncode(a);
    Utf8.DecodeEncode(b);
    var ps := [Got(Utf8.Encode(a)), Got(Utf8.Encode(b))];
    assert ps[1..] == [Got(Utf8.Encode(b))];
    assert ps[1..][1..] == [];
    assert |Utf8.Encode(a)| >= |a| && |Utf8.Encode(b)| >= |b|;
    assert ChunkAlert(a, true).None? && ChunkAlert(b, true).None?;
    assert WatchLog(ps[1..][1..], true) == Watched("", []);
    assert WatchLog(ps[1..], true) == Watched(b + "", []);
    assert b + "" == b;
  }

  lemma HeadQuiet(k: nat)
    requires 0 < k < |WifiMarker|
    ensures ConsoleAlert(WifiMarker[..k]).None?
  {
    var a := WifiMarker[..k];
    TooShort(a, WifiMarker);
    if |a| < |BleMarker| {
      TooShort(a, BleMarker);
    } else {
      assert a[0] == 'W';
      assert !OccursAt(a, BleMarker, 0);
    }
  }

  lemma TailQuiet(k: nat)
    requires 0 < k < |WifiMarker|
    ensures ConsoleAlert(WifiMarker[k..]).None?
  {
    var b := WifiMarker[k..];
    TooShort(b, WifiMarker);
    if |b| < |BleMarker| {
      TooShort(b, BleMarker);
    } else {
      assert b[0] == 'I';
      assert !OccursAt(b, BleMarker, 0);
    }
  }

  /** A marker that the console splits over two reads, anywhere past its first character, is logged in full but raises no alert. */
  lemma SplitMarkerMissed(k: nat)
    requires 0 < k < |WifiMarker|
    ensures WatchLog([Got(Utf8.Encode(WifiMarker[..k])), Got(Utf8.Encode(WifiMarker[k..]))], true)
      == Watched(WifiMarker, [])
  {
    var a, b := WifiMarker[..k], WifiMarker[k..];
    assert WatchLog([Got(Utf8.Encode(a)), Got(Utf8.Encode(b))], true) == Watched(a + b, []) by {
      HeadQuiet(k);
      TailQuiet(k);
      QuietChunks(a, b);
    }
    assert a + b == WifiMarker;
  }
}
