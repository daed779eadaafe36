/**
 * Choosing the Bluetooth adapter from `hciconfig` output
 * (`_detect_usb_bluetooth_dongle`), in the two variants the connectors use:
 * the first running USB adapter, and the score-based choice.
 *
 * The command is an oracle: its exit code and standard output are
 * parameters.  `sys.exit(1)` (failed command, no USB adapter) is `None`.
 */
module Adapter {
  import opened Base
  import opened Text

  /** A line that opens a device block: it has a ':' and, stripped, starts with "hci". */
  predicate IsHeader(line: string)
  {
    Contains(line, ":") && StartsWith(Strip(line), "hci")
  }

  /** `line.split(':')[0].strip()`. */
  function HeaderName(line: string): string
  {
    Strip(Split(line, ':')[0])
  }

  predicate IsUsbHeader(line: string)
  {
    IsHeader(line) && Contains(line, "Bus: USB")
  }

  /** The names of the USB device blocks among `lines`, in order. */
  function UsbNames(lines: seq<string>): seq<string>
  {
    if lines == [] then []
    else
      var last := lines[|lines| - 1];
      UsbNames(lines[..|lines| - 1]) + (if IsUsbHeader(last) then [HeaderName(last)] else [])
  }

  /** The device whose block line `k` belongs to: the name of the last header before it. */
  function CurrentAt(lines: seq<string>, k: nat): Option<string>
    requires k <= |lines|
  {
    if k == 0 then None
    else if IsHeader(lines[k - 1]) then Some(HeaderName(lines[k - 1]))
    else CurrentAt(lines, k - 1)
  }

  /** Line `k` reports "UP RUNNING" inside the block of a USB device already listed. */
  predicate RunningHit(lines: seq<string>, k: nat)
    requires k < |lines|
  {
    var cur := CurrentAt(lines, k);
    && !IsHeader(lines[k])
    && cur.Some? && cur.value != ""
    && Contains(lines[k], "UP RUNNING")
    && cur.value in UsbNames(lines[..k])
  }

  /** Index of the first running hit at or after `k`, or `|lines|`. */
  function FirstHitFrom(lines: seq<string>, k: nat): (h: nat)
    requires k <= |lines|
    ensures k <= h <= |lines|
    ensures h < |lines| ==> RunningHit(lines, h)
    ensures forall j :: k <= j < h ==> !RunningHit(lines, j)
    decreases |lines| - k
  {
    if k == |lines| then k
    else if RunningHit(lines, k) then k
    else FirstHitFrom(lines, k + 1)
  }

  /**
   * The adapter the first variant settles on: the USB device of the first
   * running hit; without one, the first USB device; without any, none.
   */
  function Selected(lines: seq<string>): Option<string>
  {
    var h := FirstHitFrom(lines, 0);
    if h < |lines| then CurrentAt(lines, h)
    else if UsbNames(lines) != [] then Some(UsbNames(lines)[0])
    else None
  }

  /** Every USB name of a prefix is a USB name of the whole output. */
  lemma {:induction false} UsbNamesPrefix(lines: seq<string>, k: nat)
    requires k <= |lines|
    ensures forall n :: n in UsbNames(lines[..k]) ==> n in UsbNames(lines)
    decreases |lines| - k
  {
    if k < |lines| {
      UsbNamesPrefix(lines, k + 1);
      assert lines[..k + 1][..k] == lines[..k];
    } else {
      assert lines[..k] == lines;
    }
  }

  /** What reading line `i` does to the names, the current device and the first hit. */
  lemma DetectStep(lines: seq<string>, i: nat)
    requires i < |lines| && FirstHitFrom(lines, 0) == FirstHitFrom(lines, i)
    ensures UsbNames(lines[..i + 1]) == UsbNames(lines[..i]) + (if IsUsbHeader(lines[i]) then [HeaderName(lines[i])] else [])
    ensures CurrentAt(lines, i + 1) == (if IsHeader(lines[i]) then Some(HeaderName(lines[i])) else CurrentAt(lines, i))
    ensures RunningHit(lines, i) ==> Selected(lines) == CurrentAt(lines, i)
    ensures !RunningHit(lines, i) ==> FirstHitFrom(lines, 0) == FirstHitFrom(lines, i + 1)
  {
    assert lines[..i + 1][..i] == lines[..i];
  }

  /** The body of the first variant's loop for line `i`: a hit ends the search with its device. */
  method ReadLine1(lines: seq<string>, i: nat, usbDevices: seq<string>, current: Option<string>)
    returns (usbDevices': seq<string>, current': Option<string>, hit: bool)
    requires i < |lines| && FirstHitFrom(lines, 0) == FirstHitFrom(lines, i)
    requires usbDevices == UsbNames(lines[..i]) && current == CurrentAt(lines, i)
    ensures hit ==> current' == Selected(lines)
    ensures !hit ==> usbDevices' == UsbNames(lines[..i + 1]) && current' == CurrentAt(lines, i + 1)
    ensures !hit ==> FirstHitFrom(lines, 0) == FirstHitFrom(lines, i + 1)
  {
    var line := lines[i];
    DetectStep(lines, i);
    usbDevices', current', hit := usbDevices, current, false;
    if IsHeader(line) {
      current' := Some(HeaderName(line));
      if Contains(line, "Bus: USB") {
        usbDevices' := usbDevices + [current'.value];
      }
    } else if current.Some? && current.value != "" && Contains(line, "UP RUNNING") {
      if current.value in usbDevices {
        hit := true;
      }
    }
  }

  /** `_detect_usb_bluetooth_dongle`, first-running variant. */
  method DetectFirstRunning(returnCode: int, stdout: string) returns (r: Option<string>)
    ensures returnCode != 0 ==> r == None
    ensures returnCode == 0 ==> r == Selected(Split(stdout, '\n'))
  {
    if returnCode != 0 {
      return None;
    }
    var lines := Split(stdout, '\n');
    var usbDevices: seq<string> := [];
    var current: Option<string> := None;
    var i := 0;
    while i < |lines|
      invariant 0 <= i <= |lines|
      invariant usbDevices == UsbNames(lines[..i])
      invariant current == CurrentAt(lines, i)
      invariant FirstHitFrom(lines, 0) == FirstHitFrom(lines, i)
    {
      var hit;
      usbDevices, current, hit := ReadLine1(lines, i, usbDevices, current);
      if hit {
        return current;
      }
      i := i + 1;
    }
    assert lines[..i] == lines;
    if usbDevices != [] {
      return Some(usbDevices[0]);
    }
    return None;
  }

  /** The chosen adapter is always one of the USB devices. */
  lemma SelectedIsUsb(lines: seq<string>)
    requires Selected(lines).Some?
    ensures Selected(lines).value in UsbNames(lines)
  {
    var h := FirstHitFrom(lines, 0);
    if h < |lines| {
      UsbNamesPrefix(lines, h);
    }
  }

  /** No adapter is chosen (the process exits) exactly when there is no USB device. */
  lemma SelectedNoneIff(lines: seq<string>)
    ensures Selected(lines).None? <==> UsbNames(lines) == []
  {
    var h := FirstHitFrom(lines, 0);
    if h < |lines| {
      UsbNamesPrefix(lines, h);
      assert CurrentAt(lines, h).value in UsbNames(lines);
    }
  }

  /** When no line reports "UP RUNNING", the first USB device is chosen. */
  lemma NothingRunningFirstUsb(lines: seq<string>)
    requires forall k :: 0 <= k < |lines| ==> !Contains(lines[k], "UP RUNNING")
    requires UsbNames(lines) != []
    ensures Selected(lines) == Some(UsbNames(lines)[0])
  {
  }

  // ---------------------------------------------------------------------
  // Score-based variant.

  /** One entry of the `devices` list: `{'name', 'is_usb', 'score'}`. */
  datatype DeviceRecord = DeviceRecord(name: string, isUsb: bool, score: int)

  /** +10 for "UP RUNNING", -5 for "PSCAN" without "ISCAN". */
  function ScoreDelta(line: string): int
  {
    (if Contains(line, "UP RUNNING") then 10 else 0)
    + (if Contains(line, "PSCAN") && !Contains(line, "ISCAN") then -5 else 0)
  }

  /** A line of a USB device's block scores that device; other lines change nothing. */
  function ScoreLine(devices: seq<DeviceRecord>, line: string): (out: seq<DeviceRecord>)
  {
    if IsHeader(line) then devices + [DeviceRecord(HeaderName(line), Contains(line, "Bus: USB"), 0)]
    else if devices != [] && devices[|devices| - 1].isUsb then
      var d := devices[|devices| - 1];
      devices[|devices| - 1 := d.(score := d.score + ScoreDelta(line))]
    else devices
  }

  /** The records after reading all of `lines`. */
  function Records(lines: seq<string>): seq<DeviceRecord>
  {
    if lines == [] then [] else ScoreLine(Records(lines[..|lines| - 1]), lines[|lines| - 1])
  }

  lemma RecordsStep(lines: seq<string>, i: nat)
    requires i < |lines|
    ensures Records(lines[..i + 1]) == ScoreLine(Records(lines[..i]), lines[i])
  {
    assert lines[..i + 1][..i] == lines[..i];
  }

  function HeaderCount(lines: seq<string>): nat
  {
    if lines == [] then 0
    else HeaderCount(lines[..|lines| - 1]) + (if IsHeader(lines[|lines| - 1]) then 1 else 0)
  }

  /** Every header line makes exactly one record, and no other line does. */
  lemma {:induction false} RecordsPerHeader(lines: seq<string>)
    ensures |Records(lines)| == HeaderCount(lines)
  {
    if lines != [] {
      RecordsPerHeader(lines[..|lines| - 1]);
    }
  }

  /** Only USB devices are ever scored: every other record keeps score 0. */
  lemma {:induction false} NonUsbScoreZero(lines: seq<string>)
    ensures forall i :: 0 <= i < |Records(lines)| && !Records(lines)[i].isUsb ==> Records(lines)[i].score == 0
  {
    if lines != [] {
      NonUsbScoreZero(lines[..|lines| - 1]);
    }
  }

  function UsbRecords(devices: seq<DeviceRecord>): (usb: seq<DeviceRecord>)
    ensures forall i :: 0 <= i < |usb| ==> usb[i].isUsb && usb[i] in devices
    ensures forall d :: d in devices && d.isUsb ==> d in usb
    ensures |usb| <= |devices|
  {
    if devices == [] then []
    else (if devices[0].isUsb then [devices[0]] else []) + UsbRecords(devices[1..])
  }

  /** The filter keeps the list's order: the USB records of two lists in a row are those of the first followed by those of the second. */
  lemma {:induction false} UsbRecordsAppend(a: seq<DeviceRecord>, b: seq<DeviceRecord>)
    ensures UsbRecords(a + b) == UsbRecords(a) + UsbRecords(b)
    decreases |a|
  {
    if a == [] {
      assert a + b == b;
    } else {
      assert (a + b)[0] == a[0] && (a + b)[1..] == a[1..] + b;
      UsbRecordsAppend(a[1..], b);
    }
  }

  /** `max(usb_devices, key=score)`: the first record with the highest score. */
  function FirstMax(devices: seq<DeviceRecord>): (k: nat)
    requires devices != []
    ensures k < |devices|
    ensures forall j :: 0 <= j < |devices| ==> devices[j].score <= devices[k].score
    ensures forall j :: 0 <= j < k ==> devices[j].score < devices[k].score
  {
    if |devices| == 1 then 0
    else
      var k := FirstMax(devices[..|devices| - 1]);
      if devices[|devices| - 1].score > devices[k].score then |devices| - 1 else k
  }

  /** The score-based choice over the finished records. */
  function Choose(devices: seq<DeviceRecord>): Option<string>
  {
    var usb := UsbRecords(devices);
    if usb == [] then None
    else if |usb| == 1 then Some(usb[0].name)
    else Some(usb[FirstMax(usb)].name)
  }

  /**
   * One line of the parsing loop: a header appends a fresh record with score
   * 0; inside a USB block the current record's score gets `+= 10` for
   * "UP RUNNING" and then `-= 5` for "PSCAN" without "ISCAN".
   */
  method ReadLine(devices: seq<DeviceRecord>, line: string) returns (out: seq<DeviceRecord>)
    ensures out == ScoreLine(devices, line)
  {
    out := devices;
    if Contains(line, ":") && StartsWith(Strip(line), "hci") {
      out := out + [DeviceRecord(HeaderName(line), Contains(line, "Bus: USB"), 0)];
    } else if out != [] && out[|out| - 1].isUsb {
      var d := out[|out| - 1];
      var score := d.score;
      if Contains(line, "UP RUNNING") {
        score := score + 10;
      }
      if Contains(line, "PSCAN") && !Contains(line, "ISCAN") {
        score := score - 5;
      }
      out := out[|out| - 1 := d.(score := score)];
    }
  }

  /** The parsing loop of the score-based variant: one record per header, scores updated in place. */
  method ScoreDevices(lines: seq<string>) returns (devices: seq<DeviceRecord>)
    ensures devices == Records(lines)
  {
    devices := [];
    var i := 0;
    while i < |lines|
      invariant 0 <= i <= |lines|
      invariant devices == Records(lines[..i])
    {
      RecordsStep(lines, i);
      devices := ReadLine(devices, lines[i]);
      i := i + 1;
    }
    assert lines[..i] == lines;
  }

  /** `_detect_usb_bluetooth_dongle`, score-based variant. */
  method DetectByScore(returnCode: int, stdout: string) returns (r: Option<string>, devices: seq<DeviceRecord>)
    ensures returnCode != 0 ==> r == None && devices == []
    ensures returnCode == 0 ==> devices == Records(Split(stdout, '\n')) && r == Choose(devices)
  {
    if returnCode != 0 {
      return None, [];
    }
    devices := ScoreDevices(Split(stdout, '\n'));
    var usb := UsbRecords(devices);
    if usb == [] {
      return None, devices;
    }
    if |usb| == 1 {
      return Some(usb[0].name), devices;
    }
    var best := FirstMax(usb);
    return Some(usb[best].name), devices;
  }

  /**
   * The score-based choice is a USB device; with exactly one it is that one,
   * otherwise it has the highest score and beats every USB device listed
   * before it.  With no USB device nothing is chosen.
   */
  lemma ChooseMeaning(devices: seq<DeviceRecord>) returns (k: nat)
    requires Choose(devices).Some?
    ensures k < |UsbRecords(devices)| && UsbRecords(devices)[k].name == Choose(devices).value
    ensures |UsbRecords(devices)| == 1 ==> k == 0
    ensures forall j :: 0 <= j < |UsbRecords(devices)| && |UsbRecords(devices)| > 1 ==>
      UsbRecords(devices)[j].score <= UsbRecords(devices)[k].score
    ensures forall j :: 0 <= j < k ==> UsbRecords(devices)[j].score < UsbRecords(devices)[k].score
  {
    var usb := UsbRecords(devices);
    if |usb| > 1 {
      k := FirstMax(usb);
    } else {
      k := 0;
    }
  }

  /** Nothing is chosen (the process exits) exactly when there is no USB record. */
  lemma ChooseNoneIff(devices: seq<DeviceRecord>)
    ensures Choose(devices).None? <==> forall d :: d in devices ==> !d.isUsb
  {
    var usb := UsbRecords(devices);
    if usb != [] {
      assert usb[0] in devices;
    }
  }
}
