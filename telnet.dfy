/**
 * The Telnet side of the two console monitors (`tests/uut_console_monitor.py`
 * and `tests/uut_sleep_monitor.py`, whose negotiation code is the same): the
 * option negotiation that refuses every option the terminal server asks
 * for, and the two ways the scripts collect what the socket delivers.
 *
 * A socket is the sequence of results its `recv` calls give; running out of
 * given results stands for the server going quiet, which the scripts see as
 * a timeout.
 */
module Telnet {
  import opened Base

  // Command codes of the Telnet protocol, section "TELNET COMMAND STRUCTURE" of RFC 854.
  const IAC: Byte := 255
  const DONT: Byte := 254
  const DO: Byte := 253
  const WONT: Byte := 252
  const WILL: Byte := 251

  /** What one `sock.recv` gives: bytes (none when the peer closed), a timeout, or an error. */
  datatype Recv = Data(bytes: seq<Byte>) | TimedOut | Failed(reason: string)

  predicate Printable(b: Byte)
  {
    31 < b < 127
  }

  /** The answer to `IAC cmd opt`: DO is refused with WONT, WILL with DONT, anything else gets a lone IAC. */
  function Reply(cmd: Byte, opt: Byte): (r: seq<Byte>)
    ensures r != [] && r[0] == IAC
  {
    if cmd == DO then [IAC, WONT, opt]
    else if cmd == WILL then [IAC, DONT, opt]
    else [IAC]
  }

  /** A reply that agrees to nothing: a lone IAC, or IAC WONT/DONT with an option. */
  predicate Refusal(r: seq<Byte>)
  {
    (r == [IAC]) || (|r| == 3 && r[0] == IAC && (r[1] == WONT || r[1] == DONT))
  }

  /** The replies sent while scanning a chunk from `i` on, and what is left once a printable byte shows up. */
  datatype Scanned = Scanned(replies: seq<seq<Byte>>, rest: Option<seq<Byte>>)

  function Scan(data: seq<Byte>, i: nat): (r: Scanned)
    ensures forall j :: 0 <= j < |r.replies| ==> Refusal(r.replies[j])
    ensures r.rest.Some? ==> r.rest.value != [] && Printable(r.rest.value[0])
    decreases |data| - i
  {
    if i >= |data| then Scanned([], None)
    else if data[i] == IAC && i + 2 < |data| then
      var s := Scan(data, i + 3);
      var reply := Reply(data[i + 1], data[i + 2]);
      assert Refusal(reply);
      assert forall j :: 0 < j < |s.replies| + 1 ==> ([reply] + s.replies)[j] == s.replies[j - 1];
      Scanned([reply] + s.replies, s.rest)
    else if Printable(data[i]) then Scanned([], Some(data[i..]))
    else Scan(data, i + 1)
  }

  /** Every reply of a scan refuses; what is left starts with a printable byte and is a tail of the chunk. */
  lemma {:induction false} ScanShape(data: seq<Byte>, i: nat) returns (k: nat)
    ensures forall j :: 0 <= j < |Scan(data, i).replies| ==> Refusal(Scan(data, i).replies[j])
    ensures Scan(data, i).rest.Some? ==> i <= k < |data| && Scan(data, i).rest.value == data[k..] && Printable(data[k])
    decreases |data| - i
  {
    k := i;
    if i >= |data| {
    } else if data[i] == IAC && i + 2 < |data| {
      k := ScanShape(data, i + 3);
      var r := Reply(data[i + 1], data[i + 2]);
      assert Refusal(r);
      var s := Scan(data, i + 3);
      assert Scan(data, i).replies == [r] + s.replies;
    } else if Printable(data[i]) {
    } else {
      k := ScanShape(data, i + 1);
    }
  }

  /** Scanning does not look at the bytes before the scan position. */
  lemma {:induction false} ScanShift(p: seq<Byte>, data: seq<Byte>, i: nat)
    ensures Scan(p + data, |p| + i) == Scan(data, i)
    decreases |data| - i
  {
    var d := p + data;
    if i < |data| {
      assert d[|p| + i] == data[i];
      if data[i] == IAC && i + 2 < |data| {
        assert d[|p| + i + 1] == data[i + 1] && d[|p| + i + 2] == data[i + 2];
        ScanShift(p, data, i + 3);
      } else if Printable(data[i]) {
        assert d[|p| + i..] == data[i..];
      } else {
        ScanShift(p, data, i + 1);
      }
    }
  }

  /** A complete command in front of a chunk is answered and skipped, whatever its bytes are. */
  lemma CommandAnswered(cmd: Byte, opt: Byte, rest: seq<Byte>)
    ensures Scan([IAC, cmd, opt] + rest, 0).replies == [Reply(cmd, opt)] + Scan(rest, 0).replies
    ensures Scan([IAC, cmd, opt] + rest, 0).rest == Scan(rest, 0).rest
  {
    var d := [IAC, cmd, opt] + rest;
    if rest == [] {
      assert Scan(d, 3) == Scanned([], None);
    } else {
      ScanShift([IAC, cmd, opt], rest, 0);
    }
  }

  /** DO is answered with WONT for the same option, WILL with DONT. */
  lemma RefusesOptions(opt: Byte)
    ensures Reply(DO, opt) == [IAC, WONT, opt]
    ensures Reply(WILL, opt) == [IAC, DONT, opt]
    ensures forall cmd: Byte :: cmd != DO && cmd != WILL ==> Reply(cmd, opt) == [IAC]
  {
  }

  /** An IAC without two more bytes in the same chunk is not a command; what follows it still counts as data. */
  lemma DanglingIac(x: Byte)
    ensures Scan([IAC], 0) == Scanned([], None)
    ensures Printable(x) ==> Scan([IAC, x], 0) == Scanned([], Some([x]))
    ensures !Printable(x) ==> Scan([IAC, x], 0) == Scanned([], None)
  {
    var d := [IAC, x];
    assert d[1..] == [x];
    assert Scan(d, 0) == Scan(d, 1);
  }

  /** A chunk that starts with a printable byte ends negotiation at once and is kept whole. */
  lemma PrintableFirst(data: seq<Byte>)
    requires data != [] && Printable(data[0])
    ensures Scan(data, 0) == Scanned([], Some(data))
  {
    assert data[0..] == data;
  }

  /** The byte loop of `handle_telnet_negotiation` over one chunk. */
  method ScanChunk(data: seq<Byte>) returns (replies: seq<seq<Byte>>, rest: Option<seq<Byte>>)
    ensures Scanned(replies, rest) == Scan(data, 0)
  {
    replies := [];
    rest := None;
    var i := 0;
    while i < |data|
      invariant 0 <= i
      invariant i > |data| ==> i == |data| + 1 || i == |data| + 2
      invariant Scan(data, 0) == Scanned(replies + Scan(data, i).replies, Scan(data, i).rest)
      decreases |data| - i
    {
      if data[i] == IAC && i + 2 < |data| {
        var response := Reply(data[i + 1], data[i + 2]);
        assert Scan(data, i).replies == [response] + Scan(data, i + 3).replies;
        assert replies + ([response] + Scan(data, i + 3).replies) == (replies + [response]) + Scan(data, i + 3).replies;
        replies := replies + [response];
        i := i + 3;
      } else if Printable(data[i]) {
        rest := Some(data[i..]);
        assert replies + [] == replies;
        return;
      } else {
        i := i + 1;
      }
    }
    assert replies + [] == replies;
  }

  /** How negotiation ends: the first data after it, the replies sent, and how many `recv` results it took. */
  datatype Negotiated = Negotiated(early: seq<Byte>, sent: seq<seq<Byte>>, used: nat)

  function Negotiation(events: seq<Recv>): (r: Negotiated)
    ensures r.used <= |events|
  {
    if events == [] then Negotiated([], [], 0)
    else match events[0]
      case Data(bs) =>
        if bs == [] then Negotiated([], [], 1)
        else
          var s := Scan(bs, 0);
          if s.rest.Some? then Negotiated(s.rest.value, s.replies, 1)
          else
            var n := Negotiation(events[1..]);
            Negotiated(n.early, s.replies + n.sent, n.used + 1)
      case TimedOut => Negotiated([], [], 1)
      case Failed(_) => Negotiated([], [], 1)
  }

  /** `handle_telnet_negotiation`. */
  method Negotiate(events: seq<Recv>) returns (early: seq<Byte>, sent: seq<seq<Byte>>, used: nat)
    ensures Negotiated(early, sent, used) == Negotiation(events)
  {
    early := [];
    sent := [];
    used := 0;
    while used < |events|
      invariant used <= |events|
      invariant Negotiation(events) == var n := Negotiation(events[used..]); Negotiated(n.early, sent + n.sent, n.used + used)
      decreases |events| - used
    {
      var e := events[used];
      assert events[used..][0] == e && events[used..][1..] == events[used + 1..];
      match e {
        case Data(bs) =>
          if bs == [] {
            assert sent + [] == sent;
            return [], sent, used + 1;
          }
          var replies, rest := ScanChunk(bs);
          if rest.Some? {
            return rest.value, sent + replies, used + 1;
          }
          assert (sent + replies) + Negotiation(events[used + 1..]).sent == sent + (replies + Negotiation(events[used + 1..]).sent);
          sent := sent + replies;
          used := used + 1;
        case TimedOut =>
          assert sent + [] == sent;
          return [], sent, used + 1;
        case Failed(_) =>
          assert sent + [] == sent;
          return [], sent, used + 1;
      }
    }
    assert events[used..] == [];
    assert sent + [] == sent;
  }

  /** Negotiation agrees to no option, and the data it hands on starts printable and is a tail of the chunk it came in. */
  lemma {:induction false} NegotiationShape(events: seq<Recv>) returns (k: nat)
    ensures forall j :: 0 <= j < |Negotiation(events).sent| ==> Refusal(Negotiation(events).sent[j])
    ensures Negotiation(events).early != [] ==>
      var u := Negotiation(events).used;
      u >= 1 && events[u - 1].Data? && Printable(Negotiation(events).early[0])
      && k < |events[u - 1].bytes| && Negotiation(events).early == events[u - 1].bytes[k..]
    decreases |events|
  {
    k := 0;
    if events != [] && events[0].Data? && events[0].bytes != [] {
      var bs := events[0].bytes;
      k := ScanShape(bs, 0);
      var s := Scan(bs, 0);
      if s.rest.None? {
        k := NegotiationShape(events[1..]);
        var n := Negotiation(events[1..]);
        assert Negotiation(events).sent == s.replies + n.sent;
        if n.early != [] {
          assert events[n.used + 1 - 1] == events[1..][n.used - 1];
        }
      } else {
        assert bs[k..][0] == bs[k];
      }
    }
  }

  /** A timeout, a closed connection or an error ends negotiation with no data. */
  lemma QuietEndsEmpty(e: Recv, more: seq<Recv>)
    requires e.TimedOut? || e.Failed? || e == Data([])
    ensures Negotiation([e] + more) == Negotiated([], [], 1)
  {
  }

  /** What a successful chunk loop of `safe_recv` collects, and how many results it used. */
  function RecvAll(events: seq<Recv>): (r: (seq<Byte>, nat))
    ensures r.1 <= |events|
  {
    if events == [] then ([], 0)
    else match events[0]
      case Data(bs) =>
        if bs == [] then ([], 1) else var n := RecvAll(events[1..]); (bs + n.0, n.1 + 1)
      case TimedOut => ([], 1)
      case Failed(_) => ([], 1)
  }

  /** `safe_recv`: everything received until the peer closes, the read times out, or it fails. */
  method SafeRecv(events: seq<Recv>) returns (data: seq<Byte>, used: nat)
    ensures (data, used) == RecvAll(events)
  {
    data := [];
    used := 0;
    assert events[0..] == events;
    assert data + RecvAll(events).0 == RecvAll(events).0;
    while used < |events|
      invariant used <= |events|
      invariant RecvAll(events) == (data + RecvAll(events[used..]).0, RecvAll(events[used..]).1 + used)
      decreases |events| - used
    {
      assert events[used..][0] == events[used] && events[used..][1..] == events[used + 1..];
      match events[used] {
        case Data(chunk) =>
          if chunk == [] {
            assert data + [] == data;
            return data, used + 1;
          }
          assert (data + chunk) + RecvAll(events[used + 1..]).0 == data + (chunk + RecvAll(events[used + 1..]).0);
          data := data + chunk;
          used := used + 1;
        case TimedOut =>
          assert data + [] == data;
          return data, used + 1;
        case Failed(_) =>
          assert data + [] == data;
          return data, used + 1;
      }
    }
    assert events[used..] == [];
    assert data + [] == data;
  }

  function Concat(chunks: seq<seq<Byte>>): seq<Byte>
  {
    if chunks == [] then [] else chunks[0] + Concat(chunks[1..])
  }

  function AsData(chunks: seq<seq<Byte>>): (es: seq<Recv>)
    ensures |es| == |chunks|
    ensures forall i :: 0 <= i < |chunks| ==> es[i] == Data(chunks[i])
  {
    seq(|chunks|, i requires 0 <= i < |chunks| => Data(chunks[i]))
  }

  /** Non-empty chunks followed by anything that ends the loop are received in full and in order. */
  lemma {:induction false} RecvAllChunks(chunks: seq<seq<Byte>>, stop: Recv, more: seq<Recv>)
    requires forall i :: 0 <= i < |chunks| ==> chunks[i] != []
    requires !stop.Data? || stop.bytes == []
    ensures RecvAll(AsData(chunks) + [stop] + more) == (Concat(chunks), |chunks| + 1)
    decreases |chunks|
  {
    var es := AsData(chunks) + [stop] + more;
    if chunks == [] {
      assert es[0] == stop;
    } else {
      assert es[0] == Data(chunks[0]);
      assert es[1..] == AsData(chunks[1..]) + [stop] + more;
      RecvAllChunks(chunks[1..], stop, more);
    }
  }

  /**
   * The read after a command in `uut_console_monitor.py`: up to `tries`
   * reads; an empty read sleeps and tries again, a timeout or any error
   * stops.
   */
  function Burst(events: seq<Recv>, tries: nat): (data: seq<Byte>)
    decreases tries
  {
    if tries == 0 || events == [] then []
    else match events[0]
      case Data(bs) => bs + Burst(events[1..], tries - 1)
      case TimedOut => []
      case Failed(_) => []
  }

  method ReadBurst(events: seq<Recv>) returns (data: seq<Byte>)
    ensures data == Burst(events, 5)
  {
    data := [];
    var k := 0;
    while k < 5
      invariant 0 <= k <= 5
      invariant Burst(events, 5) == data + Burst(events[Min(k, |events|)..], 5 - k)
    {
      if k >= |events| {
        assert data + [] == data;
        return;
      }
      assert events[k..][0] == events[k] && events[k..][1..] == events[k + 1..];
      match events[k] {
        case Data(chunk) =>
          assert (data + chunk) + Burst(events[k + 1..], 4 - k) == data + (chunk + Burst(events[k + 1..], 4 - k));
          data := data + chunk;
        case TimedOut =>
          assert data + [] == data;
          return;
        case Failed(_) =>
          assert data + [] == data;
          return;
      }
      k := k + 1;
    }
    assert data + [] == data;
  }

  function Min(a: int, b: int): int
  {
    if a < b then a else b
  }

  /** The results of a burst read with the empty ones left out. */
  function NonEmpty(events: seq<Recv>): (r: seq<Recv>)
    ensures |r| <= |events|
  {
    if events == [] then []
    else (if events[0] == Data([]) then [] else [events[0]]) + NonEmpty(events[1..])
  }

  /**
   * A burst read is `safe_recv` over its first `tries` results once the
   * empty reads, which it sleeps through instead of stopping, are left out.
   */
  lemma {:induction false} BurstIsRecvAll(events: seq<Recv>, tries: nat)
    ensures Burst(events, tries) == RecvAll(NonEmpty(events[..Min(tries, |events|)])).0
    decreases tries
  {
    if tries > 0 && events != [] {
      var head := events[..Min(tries, |events|)];
      assert head[0] == events[0];
      assert head[1..] == events[1..][..Min(tries - 1, |events| - 1)];
      BurstIsRecvAll(events[1..], tries - 1);
      if events[0] == Data([]) {
        assert NonEmpty(head) == NonEmpty(head[1..]);
      } else {
        assert NonEmpty(head) == [events[0]] + NonEmpty(head[1..]);
      }
    } else {
      assert events[..Min(tries, |events|)] == [];
    }
  }
}
