/**
 * The serial terminal (`tests/serail_tool.py`): its send history and the
 * up/down browsing over it, the rendering of received chunks, the
 * validation and the outcome of a send, the bounded queue between the
 * reader thread and the UI thread, and the packet merging of the reader.
 *
 * The Tk widgets are fields of a `Terminal` object: the send entry is a
 * string, the receive area is the sequence of lines appended to it, the
 * port is a flag together with the sequence of frames written to it. The
 * clock reading of a call is a parameter.
 */
module SerialTerminal {
  import opened Base
  import opened Text
  import Hex
  import Utf8

  const MaxHistory := 20
  const QueueSize := 1000

  // ---------------------------------------------------------------------
  // Rendering of lines (serail_tool.py:292-308, 486-495, 521-530)
  // ---------------------------------------------------------------------

  predicate Printable(b: Byte)
  {
    32 <= b <= 126
  }

  /** The text view of a chunk: printable bytes as their character, anything else as '.'. */
  function TextPayload(data: seq<Byte>): (s: string)
    ensures |s| == |data|
  {
    seq(|data|, i requires 0 <= i < |data| => if Printable(data[i]) then data[i] as char else '.')
  }

  /** The words in front of a payload: the optional "[time]" and the arrow. */
  function Head(stamp: Option<string>, arrow: string): seq<string>
  {
    (if stamp.Some? then ["[" + stamp.value + "]"] else []) + [arrow]
  }

  function HeadText(stamp: Option<string>, arrow: string): string
  {
    (if stamp.Some? then "[" + stamp.value + "] " else "") + arrow + " "
  }

  /** `" ".join(parts) + "\n"` for the head words and the payload. */
  function Line(stamp: Option<string>, arrow: string, payload: string): (line: string)
    ensures line == HeadText(stamp, arrow) + payload + "\n"
  {
    var parts := Head(stamp, arrow) + [payload];
    if stamp.Some? then
      assert Join(parts, " ") == parts[0] + " " + Join(parts[1..], " ");
      assert parts[1..] == [arrow, payload];
      assert Join(parts[1..], " ") == arrow + " " + Join([payload], " ");
      Join(parts, " ") + "\n"
    else
      assert parts == [arrow, payload];
      assert Join(parts, " ") == parts[0] + " " + Join(parts[1..], " ");
      Join(parts, " ") + "\n"
  }

  function Payload(data: seq<Byte>, hexMode: bool): string
  {
    if hexMode then Hex.SpacedHex(data) else TextPayload(data)
  }

  /** How `format_received_data` renders one received chunk. */
  function FormatReceived(data: seq<Byte>, stamp: Option<string>, hexMode: bool): (line: string)
    ensures line == HeadText(stamp, "收←") + Payload(data, hexMode) + "\n"
  {
    Line(stamp, "收←", Payload(data, hexMode))
  }

  /** The payload of a received line sits between its head and the final newline. */
  lemma ReceivedPayload(data: seq<Byte>, stamp: Option<string>, hexMode: bool)
    ensures var line := FormatReceived(data, stamp, hexMode);
      var h := |HeadText(stamp, "收←")|;
      h < |line| && line[|line| - 1] == '\n' && line[h..|line| - 1] == Payload(data, hexMode)
  {
    var line := FormatReceived(data, stamp, hexMode);
    var h := HeadText(stamp, "收←");
    assert line[|h|..|line| - 1] == Payload(data, hexMode);
  }

  /** In hex display, `bytes.fromhex` of the shown payload gives the chunk back. */
  lemma HexLineReadsBack(data: seq<Byte>, stamp: Option<string>)
    ensures var line := FormatReceived(data, stamp, true);
      var h := |HeadText(stamp, "收←")|;
      h < |line| && Hex.FromHex(line[h..|line| - 1]) == Some(data)
  {
    ReceivedPayload(data, stamp, true);
    Hex.FromSpacedHex(data);
  }

  /** In text display, the payload keeps the length and shows only printable characters. */
  lemma TextLinePrintable(data: seq<Byte>)
    ensures |TextPayload(data)| == |data|
    ensures forall i :: 0 <= i < |data| ==> 32 <= TextPayload(data)[i] as int <= 126
    ensures forall i :: 0 <= i < |data| ==> (TextPayload(data)[i] == '.' <==> !Printable(data[i]) || data[i] == 46)
  {
  }

  predicate PrintableText(s: string)
  {
    forall i :: 0 <= i < |s| ==> 32 <= s[i] as int <= 126
  }

  /** Printable ASCII text that the device echoes is shown unchanged in text display. */
  lemma EchoShown(s: string)
    requires PrintableText(s)
    ensures TextPayload(Utf8.Encode(s)) == s
  {
    Utf8.EncodeAscii(s);
  }

  /** Every byte of a non-ASCII character is shown as '.' in text display. */
  lemma NonAsciiDotted(c: char)
    requires c as int >= 0x80
    ensures TextPayload(Utf8.Encode([c])) == Repeat(".", |Utf8.EncodeChar(c)|)
  {
    var bs := Utf8.Encode([c]);
    assert bs == Utf8.EncodeChar(c);
    var dots := Repeat(".", |bs|);
    forall i | 0 <= i < |bs|
      ensures TextPayload(bs)[i] == dots[i]
    {
      RepeatCopy(".", |bs|, i);
      assert dots[i..i + 1] == ".";
    }
  }

  // ---------------------------------------------------------------------
  // Send history (serail_tool.py:348-382)
  // ---------------------------------------------------------------------

  /** What the history always is: at most 20 distinct non-empty entries. */
  predicate HistoryOk(h: seq<string>)
  {
    |h| <= MaxHistory && "" !in h && forall i, j :: 0 <= i < j < |h| ==> h[i] != h[j]
  }

  /** `add_to_send_history`: a new entry goes in front, the oldest (last) goes once there are more than 20. */
  function Added(h: seq<string>, s: string): (r: seq<string>)
    ensures |h| <= |r| <= |h| + 1
    ensures s != "" ==> s in r
    ensures forall x :: x in r ==> x == s || x in h
  {
    if s == "" || s in h then h
    else
      var g := [s] + h;
      if |g| > MaxHistory then
        assert g[..|g| - 1][0] == s;
        g[..|g| - 1]
      else g
  }

  /** Adding keeps the history well formed, whatever it is given. */
  lemma AddedOk(h: seq<string>, s: string)
    requires HistoryOk(h)
    ensures HistoryOk(Added(h, s))
  {
    if s != "" && s !in h {
      var g := [s] + h;
      forall i, j | 0 <= i < j < |g|
        ensures g[i] != g[j]
      {
        if i == 0 {
          assert g[j] == h[j - 1];
        } else {
          assert g[i] == h[i - 1] && g[j] == h[j - 1];
        }
      }
    }
  }

  /** A new entry becomes the first one and the others keep their order; with 20 already there, the oldest goes. */
  lemma AddedNewest(h: seq<string>, s: string)
    requires s != "" && s !in h
    ensures Added(h, s)[0] == s
    ensures |h| < MaxHistory ==> Added(h, s)[1..] == h
    ensures |h| >= MaxHistory ==> Added(h, s)[1..] == h[..|h| - 1]
  {
    var g := [s] + h;
    if |g| > MaxHistory {
      assert g[..|g| - 1][1..] == h[..|h| - 1];
    } else {
      assert g[1..] == h;
    }
  }

  /** Sending the same text twice records it once. */
  lemma AddedIdempotent(h: seq<string>, s: string)
    ensures Added(Added(h, s), s) == Added(h, s)
  {
  }

  /** `prev_history`: one step towards older entries, stopping at the oldest. */
  function PrevIndex(h: seq<string>, i: int): (j: int)
    ensures -1 <= i < |h| ==> -1 <= j < |h|
  {
    if h != [] && i < |h| - 1 then i + 1 else i
  }

  /** `next_history`: one step towards newer entries; from the newest back to the empty entry at -1. */
  function NextIndex(h: seq<string>, i: int): (j: int)
    ensures -1 <= i < |h| ==> -1 <= j < |h|
  {
    if h == [] then i
    else if i > 0 then i - 1
    else if i == 0 then -1
    else i
  }

  /** A step back in the history is undone by a step forward. */
  lemma BrowseRoundTrip(h: seq<string>, i: int)
    requires -1 <= i < |h| - 1
    ensures PrevIndex(h, i) == i + 1
    ensures NextIndex(h, PrevIndex(h, i)) == i
  {
  }

  /** `k` presses of "up" on a fresh entry. */
  function PrevTimes(h: seq<string>, i: int, k: nat): int
    decreases k
  {
    if k == 0 then i else PrevTimes(h, PrevIndex(h, i), k - 1)
  }

  /** From the unbrowsed entry, `k` presses of "up" reach entry `k - 1`, and the oldest entry once `k` passes it. */
  lemma {:induction false} PrevWalk(h: seq<string>, i: int, k: nat)
    requires -1 <= i < |h|
    ensures PrevTimes(h, i, k) == if i + k < |h| then i + k else |h| - 1
    decreases k
  {
    if k > 0 {
      if h == [] {
        PrevWalk(h, i, k - 1);
      } else {
        PrevWalk(h, PrevIndex(h, i), k - 1);
      }
    }
  }

  // ---------------------------------------------------------------------
  // Sending (serail_tool.py:444-555)
  // ---------------------------------------------------------------------

  /** What the serial port does with a write. */
  datatype WriteOutcome = Wrote | WriteTimedOut | WriteRaised(reason: string)

  /** The frame a send entry turns into, or why it does not turn into one. */
  datatype Prepared = OddLength | BadHex | Frame(bytes: seq<Byte>)

  /** The checks of the hex-send branch and the encoding of the text branch. */
  function Prepare(entry: string, hexSend: bool): (p: Prepared)
    ensures hexSend && p.Frame? ==> 2 * |p.bytes| <= |Replace(entry, " ", "")|
    ensures !hexSend ==> p.Frame?
  {
    if hexSend then
      var digits := Replace(entry, " ", "");
      if |digits| % 2 != 0 then OddLength
      else match Hex.FromHex(digits)
        case None => BadHex
        case Some(bs) => Frame(bs)
    else Frame(Utf8.Encode(entry + "\r\n"))
  }

  /** The message `safe_serial_write` raises for a failed write. */
  function WriteMessage(o: WriteOutcome): string
  {
    match o
    case Wrote => ""
    case WriteTimedOut => "写入超时，请检查串口连接"
    case WriteRaised(reason) => "写入失败: " + reason
  }

  predicate MentionsTimeout(message: string)
  {
    Contains(message, "超时")
  }

  /** A write timeout always closes the port; any other failure only when its own reason mentions a timeout. */
  lemma ClosesOnTimeout(reason: string)
    ensures MentionsTimeout(WriteMessage(WriteTimedOut))
    ensures MentionsTimeout(WriteMessage(WriteRaised(reason))) <==> MentionsTimeout(reason)
  {
    var m := WriteMessage(WriteTimedOut);
    assert OccursAt(m, "超时", 2) by {
      assert m[2..4] == "超时";
    }
    ContainsPastPrefix("写入失败: ", reason, "超时");
  }

  /** How a press of "send" ends. */
  datatype SendEnd = NotOpen | NothingToSend | Rejected(why: Prepared) | Sent(frame: seq<Byte>) | Failed(message: string)

  function SendEndOf(open: bool, entry: string, hexSend: bool, o: WriteOutcome): (e: SendEnd)
    ensures e.Rejected? ==> !e.why.Frame?
  {
    if !open then NotOpen
    else if entry == "" then NothingToSend
    else match Prepare(entry, hexSend)
      case Frame(bs) => if o == Wrote then Sent(bs) else Failed(WriteMessage(o))
      case other => Rejected(other)
  }

  /**
   * A send writes a frame exactly when the port is open, the entry is not
   * empty, the entry passes the hex checks and the write goes through; the
   * frame is then what the entry encodes to.
   */
  lemma SentIff(open: bool, entry: string, hexSend: bool, o: WriteOutcome)
    ensures SendEndOf(open, entry, hexSend, o).Sent?
      <==> open && entry != "" && Prepare(entry, hexSend).Frame? && o == Wrote
    ensures SendEndOf(open, entry, hexSend, o).Sent? ==> SendEndOf(open, entry, hexSend, o).frame == Prepare(entry, hexSend).bytes
  {
  }

  /** Spaces are not digits: removing them leaves the compact digits. */
  lemma {:induction false} SpacedHexCompact(bs: seq<Byte>)
    ensures Replace(Hex.SpacedHex(bs), " ", "") == Hex.CompactHex(bs)
    decreases |bs|
  {
    if |bs| == 1 {
      var h := Hex.ByteHex(bs[0]);
      assert Hex.SpacedHex(bs) == h;
      assert Hex.CompactHex(bs) == h;
      assert ' ' !in h by {
        assert Hex.IsUpperHexDigit(h[0]) && Hex.IsUpperHexDigit(h[1]);
      }
      ReplaceAbsent(h, " ", "", 0);
    } else if |bs| > 1 {
      var h := Hex.ByteHex(bs[0]);
      var t := Hex.SpacedHex(bs[1..]);
      assert ' ' !in h by {
        assert Hex.IsUpperHexDigit(h[0]) && Hex.IsUpperHexDigit(h[1]);
      }
      calc {
        Replace(Hex.SpacedHex(bs), " ", "");
      == { Hex.SpacedHexCons(bs); }
        Replace(h + (" " + t), " ", "");
      == { ReplaceCharAppend(h, " " + t, ' ', ""); }
        Replace(h, " ", "") + Replace(" " + t, " ", "");
      == { ReplaceAbsent(h, " ", "", 0); ReplaceCharAppend(" ", t, ' ', ""); }
        h + (Replace(" ", " ", "") + Replace(t, " ", ""));
      == { SpacedHexCompact(bs[1..]); assert Replace(" ", " ", "") == ""; }
        h + Hex.CompactHex(bs[1..]);
      == { Hex.PairsTail(bs); assert Hex.CompactHex(bs) == h + "" + Hex.CompactHex(bs[1..]); }
        Hex.CompactHex(bs);
      }
    }
  }

  /** Hex shown by the terminal, pasted back into a hex send, sends the same bytes. */
  lemma HexResend(bs: seq<Byte>)
    ensures Prepare(Hex.SpacedHex(bs), true) == Frame(bs)
    ensures Prepare(Hex.CompactHex(bs), true) == Frame(bs)
  {
    SpacedHexCompact(bs);
    Hex.FromCompactHex(bs);
    Hex.CompactHexDigits(bs);
    var c := Hex.CompactHex(bs);
    assert ' ' !in c by {
      forall i | 0 <= i < |c| ensures c[i] != ' ' {
        assert Hex.IsUpperHexDigit(c[i]);
      }
    }
    ReplaceAbsent(c, " ", "", 0);
  }

  /** A sequence of hex digits of odd length is refused before any conversion. */
  lemma OddDigitsRejected(entry: string)
    requires ' ' !in entry && |entry| % 2 == 1
    ensures Prepare(entry, true) == OddLength
  {
    ReplaceAbsent(entry, " ", "", 0);
  }

  /** A character that is neither a hex digit nor white space is refused, once the length is even. */
  lemma BadCharRejected(entry: string, k: nat)
    requires ' ' !in entry && |entry| % 2 == 0
    requires k < |entry| && !Hex.IsHexDigit(entry[k]) && !Hex.IsAsciiSpace(entry[k])
    ensures Prepare(entry, true) == BadHex
  {
    ReplaceAbsent(entry, " ", "", 0);
    Hex.FromHexRejects(entry, k);
  }

  /** Text mode writes the entry in UTF-8 followed by CR LF. */
  lemma TextFrame(entry: string)
    ensures Prepare(entry, false) == Frame(Utf8.Encode(entry) + [13, 10])
  {
    Utf8.EncodeAppend(entry, "\r\n");
    assert Utf8.Encode("\r\n") == [13, 10];
  }

  // ---------------------------------------------------------------------
  // The queue between the reader and the UI (serail_tool.py:250-336)
  // ---------------------------------------------------------------------

  /** What the reader puts on the queue: a merged chunk, or the text of a read error. */
  datatype Item = Received(data: seq<Byte>) | ReadError(text: string)

  /** A put on a full queue first discards the oldest item. */
  function Pushed(q: seq<Item>, item: Item): (r: seq<Item>)
    ensures |q| <= QueueSize ==> |r| <= QueueSize
    ensures |r| > 0 && r[|r| - 1] == item
  {
    if |q| >= QueueSize then q[1..] + [item] else q + [item]
  }

  function PushedAll(q: seq<Item>, items: seq<Item>): seq<Item>
    decreases |items|
  {
    if items == [] then q else PushedAll(Pushed(q, items[0]), items[1..])
  }

  /** The last (at most) 1000 items of `all`. */
  function Newest(all: seq<Item>): (r: seq<Item>)
    ensures |r| <= QueueSize
  {
    if |all| <= QueueSize then all else all[|all| - QueueSize..]
  }

  lemma NewestTail(all: seq<Item>)
    requires |all| > QueueSize
    ensures Newest(all[1..]) == Newest(all)
  {
    if |all| - 1 > QueueSize {
      assert all[1..][|all| - 1 - QueueSize..] == all[|all| - QueueSize..];
    } else {
      assert all[1..] == all[1..];
    }
  }

  /** The queue keeps the newest items: after any run of puts it holds the last ones, at most 1000, of everything put. */
  lemma {:induction false} PushedAllNewest(q: seq<Item>, items: seq<Item>)
    requires |q| <= QueueSize
    ensures PushedAll(q, items) == Newest(q + items)
    decreases |items|
  {
    if items == [] {
      assert q + items == q;
    } else {
      var p := Pushed(q, items[0]);
      PushedAllNewest(p, items[1..]);
      if |q| >= QueueSize {
        assert p + items[1..] == (q + items)[1..];
        NewestTail(q + items);
      } else {
        assert p + items[1..] == q + items;
      }
    }
  }

  /** What `update_ui` shows for a batch of items, one clock reading per batch. */
  function Shown(batch: seq<Item>, stamp: Option<string>, hexMode: bool, showReceive: bool): (lines: seq<string>)
    ensures |lines| <= |batch|
  {
    if batch == [] then []
    else
      var first := match batch[0]
        case Received(data) => if showReceive then [FormatReceived(data, stamp, hexMode)] else []
        case ReadError(text) => [text];
      first + Shown(batch[1..], stamp, hexMode, showReceive)
  }

  function ErrorTexts(batch: seq<Item>): seq<string>
  {
    if batch == [] then []
    else (if batch[0].ReadError? then [batch[0].text] else []) + ErrorTexts(batch[1..])
  }

  /** With received data hidden, exactly the read errors are still shown, in order. */
  lemma {:induction false} ErrorsAlwaysShown(batch: seq<Item>, stamp: Option<string>, hexMode: bool)
    ensures Shown(batch, stamp, hexMode, false) == ErrorTexts(batch)
    decreases |batch|
  {
    if batch != [] {
      ErrorsAlwaysShown(batch[1..], stamp, hexMode);
    }
  }

  lemma {:induction false} ShownAppend(a: seq<Item>, b: seq<Item>, stamp: Option<string>, hexMode: bool, showReceive: bool)
    ensures Shown(a + b, stamp, hexMode, showReceive) == Shown(a, stamp, hexMode, showReceive) + Shown(b, stamp, hexMode, showReceive)
    decreases |a|
  {
    if a == [] {
      assert a + b == b;
    } else {
      assert (a + b)[1..] == a[1..] + b;
      ShownAppend(a[1..], b, stamp, hexMode, showReceive);
    }
  }

  /** One pass of the reader thread's loop. */
  datatype ReadEvent = Idle | Got(data: seq<Byte>, more: seq<Byte>) | ReadFailed(reason: string)

  /** The message the reader reports when a read raises. */
  function ReadErrorText(reason: string): string
  {
    "[读取错误] " + reason + "\n"
  }

  /**
   * What the reader thread leaves on the queue after a run of passes: a
   * merged chunk for every pass that read something, and, after a failure
   * while not stopping, its error and nothing more.  On a full queue the
   * error's blocking `put` waits for the UI thread to take an item; with
   * no consumer here that `put` never completes, so the queue is left as
   * it was.  The queue never grows past its `maxsize`.
   */
  function Fed(q: seq<Item>, events: seq<ReadEvent>, stopping: bool): (r: seq<Item>)
    ensures |q| <= QueueSize ==> |r| <= QueueSize
    decreases |events|
  {
    if events == [] then q
    else match events[0]
      case Idle => Fed(q, events[1..], stopping)
      case Got(data, more) =>
        if data == [] then Fed(q, events[1..], stopping)
        else Fed(Pushed(q, Received(data + more)), events[1..], stopping)
      case ReadFailed(reason) =>
        if !stopping && |q| < QueueSize then q + [ReadError(ReadErrorText(reason))] else q
  }

  /** Passes that read data put exactly that data on the queue, newest last, as long as nothing fails. */
  function Chunks(events: seq<ReadEvent>): seq<Item>
  {
    if events == [] then []
    else
      (if events[0].Got? && events[0].data != [] then [Received(events[0].data + events[0].more)] else [])
      + Chunks(events[1..])
  }

  predicate NoFailure(events: seq<ReadEvent>)
  {
    forall i :: 0 <= i < |events| ==> !events[i].ReadFailed?
  }

  lemma {:induction false} FedChunks(q: seq<Item>, events: seq<ReadEvent>, stopping: bool)
    requires NoFailure(events)
    ensures Fed(q, events, stopping) == PushedAll(q, Chunks(events))
    decreases |events|
  {
    if events != [] {
      assert NoFailure(events[1..]) by {
        forall i | 0 <= i < |events| - 1 ensures !events[1..][i].ReadFailed? {
          assert events[1..][i] == events[i + 1];
        }
      }
      var e := events[0];
      if e.Got? && e.data != [] {
        FedChunks(Pushed(q, Received(e.data + e.more)), events[1..], stopping);
        assert Chunks(events) == [Received(e.data + e.more)] + Chunks(events[1..]);
      } else {
        FedChunks(q, events[1..], stopping);
        assert Chunks(events) == Chunks(events[1..]);
      }
    }
  }

  /**
   * As written, the reader puts its error on the queue as encoded bytes
   * (serail_tool.py:288), so `update_ui` takes the `bytes` branch for it
   * (serail_tool.py:322-325): the error is rendered as received data and
   * its string branch (serail_tool.py:335-336) is never taken.
   */
  function ReadErrorAsWritten(reason: string): seq<Byte>
  {
    Utf8.Encode(ReadErrorText(reason))
  }

  /** `update_ui` as written: every item is `bytes`. */
  function ShownAsWritten(batch: seq<seq<Byte>>, stamp: Option<string>, hexMode: bool, showReceive: bool): (lines: seq<string>)
    ensures |lines| <= |batch|
    ensures !showReceive ==> lines == []
  {
    if batch == [] then []
    else
      (if showReceive then [FormatReceived(batch[0], stamp, hexMode)] else [])
      + ShownAsWritten(batch[1..], stamp, hexMode, showReceive)
  }

  /**
   * As written, a read error disappears when received data is hidden, and
   * otherwise is shown as a received chunk rather than as its message.
   */
  lemma ReadErrorMisrendered(reason: string, hexMode: bool)
    ensures ShownAsWritten([ReadErrorAsWritten(reason)], None, hexMode, false) == []
    ensures ShownAsWritten([ReadErrorAsWritten(reason)], None, hexMode, true)
      == [FormatReceived(ReadErrorAsWritten(reason), None, hexMode)]
    ensures FormatReceived(ReadErrorAsWritten(reason), None, hexMode)[0] == '收'
    ensures ReadErrorText(reason)[0] == '['
  {
  }

  // ---------------------------------------------------------------------
  // The terminal object
  // ---------------------------------------------------------------------

  class Terminal {
    const portName: string
    const hexDisplay: bool
    const hexSend: bool
    const stampOn: bool
    const showReceive: bool

    var history: seq<string>
    var historyIndex: int
    var entry: string
    var portOpen: bool
    /** Frames written to the port, oldest first. */
    var written: seq<seq<Byte>>
    /** Lines appended to the receive area, oldest first. */
    var shown: seq<string>
    var queue: seq<Item>
    var buffer: seq<Byte>

    predicate Valid()
      reads this
    {
      HistoryOk(history) && -1 <= historyIndex < |history| && |queue| <= QueueSize
    }

    /** The tool starts with hex display, time stamps, text send and received data shown. */
    constructor (portName: string, hexDisplay: bool, hexSend: bool, stampOn: bool, showReceive: bool)
      ensures Valid()
      ensures this.portName == portName
      ensures this.hexDisplay == hexDisplay && this.hexSend == hexSend
      ensures this.stampOn == stampOn && this.showReceive == showReceive
      ensures history == [] && historyIndex == -1 && entry == "" && !portOpen
      ensures written == [] && shown == [] && queue == [] && buffer == []
    {
      this.portName := portName;
      this.hexDisplay := hexDisplay;
      this.hexSend := hexSend;
      this.stampOn := stampOn;
      this.showReceive := showReceive;
      history := [];
      historyIndex := -1;
      entry := "";
      portOpen := false;
      written := [];
      shown := [];
      queue := [];
      buffer := [];
    }

    method AddToSendHistory(s: string)
      requires Valid()
      modifies this
      ensures Valid()
      ensures history == Added(old(history), s)
      ensures historyIndex == old(historyIndex) && entry == old(entry) && portOpen == old(portOpen)
      ensures written == old(written) && shown == old(shown) && queue == old(queue) && buffer == old(buffer)
    {
      AddedOk(history, s);
      if s != "" && s !in history {
        history := [s] + history;
        if |history| > MaxHistory {
          history := history[..|history| - 1];
        }
      }
    }

    method PrevHistory()
      requires Valid()
      modifies this
      ensures Valid()
      ensures historyIndex == PrevIndex(history, old(historyIndex))
      ensures entry == if historyIndex != old(historyIndex) then history[historyIndex] else old(entry)
      ensures history == old(history) && portOpen == old(portOpen)
      ensures written == old(written) && shown == old(shown) && queue == old(queue) && buffer == old(buffer)
    {
      if history == [] {
        return;
      }
      if historyIndex < |history| - 1 {
        historyIndex := historyIndex + 1;
        entry := history[historyIndex];
      }
    }

    method NextHistory()
      requires Valid()
      modifies this
      ensures Valid()
      ensures historyIndex == NextIndex(history, old(historyIndex))
      ensures entry == if old(historyIndex) > 0 then history[historyIndex]
        else if old(historyIndex) == 0 then "" else old(entry)
      ensures history == old(history) && portOpen == old(portOpen)
      ensures written == old(written) && shown == old(shown) && queue == old(queue) && buffer == old(buffer)
    {
      if history == [] {
        return;
      }
      if historyIndex > 0 {
        historyIndex := historyIndex - 1;
        entry := history[historyIndex];
      } else if historyIndex == 0 {
        historyIndex := -1;
        entry := "";
      }
    }

    /** `close_serial` while the port is open. */
    method CloseSerial()
      modifies this
      ensures !portOpen
      ensures shown == old(shown) + ["已断开与 " + portName + " 的连接\n"]
      ensures history == old(history) && historyIndex == old(historyIndex) && entry == old(entry)
      ensures written == old(written) && queue == old(queue) && buffer == old(buffer)
    {
      portOpen := false;
      shown := shown + ["已断开与 " + portName + " 的连接\n"];
    }

    /**
     * `send_data` with the clock reading `now` and what the port does with
     * the write. The entry is kept for sending again.
     */
    method SendData(now: string, o: WriteOutcome) returns (end: SendEnd)
      requires Valid()
      modifies this
      ensures Valid()
      ensures end == SendEndOf(old(portOpen), old(entry), hexSend, o)
      ensures written == old(written) + (if end.Sent? then [end.frame] else [])
      ensures history == (if end.Sent? then Added(old(history), old(entry)) else old(history))
      ensures historyIndex == (if end.Sent? then -1 else old(historyIndex))
      ensures portOpen == (old(portOpen) && !(end.Failed? && MentionsTimeout(end.message)))
      ensures shown == old(shown) + SendLines(end, old(entry), now)
      ensures entry == old(entry) && queue == old(queue) && buffer == old(buffer)
    {
      if !portOpen {
        return NotOpen;
      }
      if entry == "" {
        return NothingToSend;
      }
      var data: seq<Byte>;
      if hexSend {
        var digits := Replace(entry, " ", "");
        if |digits| % 2 != 0 {
          shown := shown + ["[" + now + "] [发送错误] 十六进制长度必须为偶数: " + entry + "\n"];
          return Rejected(OddLength);
        }
        var bs := Hex.FromHex(digits);
        if bs.None? {
          shown := shown + ["[" + now + "] [发送错误] 无效的十六进制字符: " + entry + "\n"];
          return Rejected(BadHex);
        }
        data := bs.value;
      } else {
        data := Utf8.Encode(entry + "\r\n");
      }
      end := Transmit(data, now, o);
    }

    /** The write of a checked frame and what the terminal does with its outcome. */
    method Transmit(data: seq<Byte>, now: string, o: WriteOutcome) returns (end: SendEnd)
      requires Valid() && portOpen
      modifies this
      ensures Valid()
      ensures end == if o == Wrote then Sent(data) else Failed(WriteMessage(o))
      ensures written == old(written) + (if end.Sent? then [data] else [])
      ensures history == (if end.Sent? then Added(old(history), old(entry)) else old(history))
      ensures historyIndex == (if end.Sent? then -1 else old(historyIndex))
      ensures portOpen == !(end.Failed? && MentionsTimeout(end.message))
      ensures shown == old(shown) + SendLines(end, old(entry), now)
      ensures entry == old(entry) && queue == old(queue) && buffer == old(buffer)
    {
      if o != Wrote {
        var message := WriteMessage(o);
        shown := shown + ["[" + now + "] [发送错误] " + message + "\n"];
        if MentionsTimeout(message) {
          shown := shown + ["[" + now + "] [系统] 检测到超时错误，自动关闭串口连接\n"];
          CloseSerial();
        }
        return Failed(message);
      }
      written := written + [data];
      var stamp := if stampOn then Some(now) else None;
      var display := if hexSend then Hex.SpacedHex(data) else entry;
      shown := shown + [Line(stamp, "发→", display)];
      AddToSendHistory(entry);
      historyIndex := -1;
      end := Sent(data);
    }

    /** The lines a send appends to the receive area. */
    function SendLines(end: SendEnd, sentEntry: string, now: string): seq<string>
      reads this
    {
      match end
      case NotOpen => []
      case NothingToSend => []
      case Rejected(why) =>
        if why == OddLength then ["[" + now + "] [发送错误] 十六进制长度必须为偶数: " + sentEntry + "\n"]
        else ["[" + now + "] [发送错误] 无效的十六进制字符: " + sentEntry + "\n"]
      case Sent(frame) =>
        [Line(if stampOn then Some(now) else None, "发→", if hexSend then Hex.SpacedHex(frame) else sentEntry)]
      case Failed(message) =>
        ["[" + now + "] [发送错误] " + message + "\n"]
          + if MentionsTimeout(message) then
              ["[" + now + "] [系统] 检测到超时错误，自动关闭串口连接\n", "已断开与 " + portName + " 的连接\n"]
            else []
    }

    /** A put of the reader thread for a merged chunk. */
    method Enqueue(item: Item)
      requires Valid()
      modifies this
      ensures Valid()
      ensures queue == Pushed(old(queue), item)
      ensures history == old(history) && historyIndex == old(historyIndex) && entry == old(entry) && portOpen == old(portOpen)
      ensures written == old(written) && shown == old(shown) && buffer == old(buffer)
    {
      if |queue| == QueueSize {
        queue := queue[1..];
      }
      queue := queue + [item];
    }

    /**
     * One pass of `read_serial` that found data waiting: the data is added to
     * the buffer, whatever arrived within the next 50 ms too, and a
     * non-empty buffer is put on the queue and emptied.
     */
    method ReadPass(data: seq<Byte>, more: seq<Byte>)
      requires Valid() && buffer == []
      modifies this
      ensures Valid() && buffer == []
      ensures queue == if data == [] then old(queue) else Pushed(old(queue), Received(data + more))
      ensures history == old(history) && historyIndex == old(historyIndex) && entry == old(entry) && portOpen == old(portOpen)
      ensures written == old(written) && shown == old(shown)
    {
      if data != [] {
        buffer := buffer + data;
        buffer := buffer + more;
        if buffer != [] {
          Enqueue(Received(buffer));
          buffer := [];
        }
        assert old(buffer) + data + more == data + more;
      }
    }

    /** The reader thread over a run of passes, until one fails. */
    method ReadSerial(events: seq<ReadEvent>, stopping: bool)
      requires Valid() && buffer == []
      modifies this
      ensures Valid() && buffer == []
      ensures queue == Fed(old(queue), events, stopping)
      ensures history == old(history) && historyIndex == old(historyIndex) && entry == old(entry) && portOpen == old(portOpen)
      ensures written == old(written) && shown == old(shown)
    {
      var n := 0;
      while n < |events|
        invariant 0 <= n <= |events|
        invariant Valid() && buffer == []
        invariant Fed(old(queue), events, stopping) == Fed(queue, events[n..], stopping)
        invariant history == old(history) && historyIndex == old(historyIndex) && entry == old(entry) && portOpen == old(portOpen)
        invariant written == old(written) && shown == old(shown)
      {
        assert events[n..][1..] == events[n + 1..];
        match events[n] {
          case Idle =>
          case Got(data, more) =>
            ReadPass(data, more);
          case ReadFailed(reason) =>
            if !stopping && |queue| < QueueSize {
              queue := queue + [ReadError(ReadErrorText(reason))];
            }
            return;
        }
        n := n + 1;
      }
    }

    /** The inner loop of `update_ui`: take every item off the queue, oldest first. */
    method DrainQueue() returns (batch: seq<Item>)
      requires Valid()
      modifies this
      ensures Valid()
      ensures batch == old(queue) && queue == []
      ensures history == old(history) && historyIndex == old(historyIndex) && entry == old(entry) && portOpen == old(portOpen)
      ensures written == old(written) && shown == old(shown) && buffer == old(buffer)
    {
      batch := [];
      while queue != []
        invariant Valid()
        invariant batch + queue == old(queue)
        invariant history == old(history) && historyIndex == old(historyIndex) && entry == old(entry) && portOpen == old(portOpen)
        invariant written == old(written) && shown == old(shown) && buffer == old(buffer)
        decreases |queue|
      {
        batch := batch + [queue[0]];
        queue := queue[1..];
      }
    }

    /** One item of a refresh: received data is shown unless hidden, a read error as its message. */
    method ShowItem(item: Item, stamp: Option<string>)
      modifies this
      ensures shown == old(shown) + Shown([item], stamp, hexDisplay, showReceive)
      ensures history == old(history) && historyIndex == old(historyIndex) && entry == old(entry) && portOpen == old(portOpen)
      ensures written == old(written) && buffer == old(buffer) && queue == old(queue)
    {
      assert [item][1..] == [];
      match item {
        case Received(data) =>
          if showReceive {
            shown := shown + [FormatReceived(data, stamp, hexDisplay)];
          }
        case ReadError(text) =>
          shown := shown + [text];
      }
    }

    /** One refresh of `update_ui`: every queued item is shown, oldest first. */
    method UpdateUi(now: string) returns (batch: seq<Item>)
      requires Valid()
      modifies this
      ensures Valid()
      ensures batch == old(queue) && queue == []
      ensures shown == old(shown) + Shown(batch, if stampOn then Some(now) else None, hexDisplay, showReceive)
      ensures history == old(history) && historyIndex == old(historyIndex) && entry == old(entry) && portOpen == old(portOpen)
      ensures written == old(written) && buffer == old(buffer)
    {
      batch := DrainQueue();
      var stamp := if stampOn then Some(now) else None;
      var i := 0;
      while i < |batch|
        invariant 0 <= i <= |batch|
        invariant Valid() && queue == []
        invariant shown == old(shown) + Shown(batch[..i], stamp, hexDisplay, showReceive)
        invariant history == old(history) && historyIndex == old(historyIndex) && entry == old(entry) && portOpen == old(portOpen)
        invariant written == old(written) && buffer == old(buffer)
      {
        ShownAppend(batch[..i], [batch[i]], stamp, hexDisplay, showReceive);
        assert batch[..i + 1] == batch[..i] + [batch[i]];
        ShowItem(batch[i], stamp);
        i := i + 1;
      }
      assert batch[..i] == batch;
    }
  }
}
