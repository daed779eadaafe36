/**
 * The Wake-on-LAN magic packet shared by both wake-up scripts: the MAC
 * address text with its colons removed is read by `bytes.fromhex`, and the
 * packet is six 0xFF bytes followed by sixteen copies of the MAC bytes.
 * No length check is made on the MAC: any even number of hex digits is
 * accepted.
 */
module Wol {
  import opened Base
  import opened Text
  import opened Hex

  /** The exceptions the senders raise or catch. */
  datatype Exc = ValueError | SocketError | AttributeError

  /** How a call ends: a return value or an escaping exception. */
  datatype Outcome = Returned(ok: bool) | Raised(e: Exc)

  /** Where, if anywhere, the socket calls of one send fail. */
  datatype SocketFault = NoFault | CreateFails | OptionFails | SendFails

  /** One UDP datagram put on the network. */
  datatype Datagram = Datagram(payload: seq<Byte>, ip: string, port: int)

  const DefaultBroadcast: string := "255.255.255.255"
  const DefaultPort: int := 9

  /** `bytes.fromhex(mac.replace(':', ''))`, with `None` for the `ValueError`. */
  function MacBytes(mac: string): (r: Option<seq<Byte>>)
    ensures r.Some? ==> 2 * |r.value| <= |mac|
  {
    RemoveChar(mac, ':');
    FromHex(Replace(mac, [':'], ""))
  }

  /** A MAC that is read gives at most one byte per two of its characters. */
  lemma MacBytesLength(mac: string)
    ensures MacBytes(mac).Some? ==> 2 * |MacBytes(mac).value| <= |mac|
  {
    RemoveChar(mac, ':');
  }

  /** `b'\xff' * 6 + mac_bytes * 16`. */
  function MagicPacket(mac: seq<Byte>): (p: seq<Byte>)
    ensures |p| == 6 + 16 * |mac|
  {
    Repeat([0xFF], 6) + Repeat(mac, 16)
  }

  lemma PacketHead()
    ensures Repeat([0xFF as Byte], 6) == [0xFF, 0xFF, 0xFF, 0xFF, 0xFF, 0xFF]
  {
  }

  /** The packet opens with six 0xFF bytes, and copy `k` of the MAC sits at offset `6 + k * |mac|`. */
  lemma PacketLayout(mac: seq<Byte>, k: nat)
    requires k < 16
    ensures MagicPacket(mac)[..6] == [0xFF, 0xFF, 0xFF, 0xFF, 0xFF, 0xFF]
    ensures 6 + (k + 1) * |mac| <= |MagicPacket(mac)|
    ensures MagicPacket(mac)[6 + k * |mac| .. 6 + (k + 1) * |mac|] == mac
  {
    var head, body := Repeat([0xFF], 6), Repeat(mac, 16);
    PacketHead();
    RepeatCopy(mac, 16, k);
    assert (head + body)[6 + k * |mac| .. 6 + (k + 1) * |mac|] == body[k * |mac| .. (k + 1) * |mac|];
  }

  /** The usual colon-separated MAC text for the bytes `bs`. */
  function ColonHex(bs: seq<Byte>): string
  {
    Join(Pairs(bs), ":")
  }

  lemma ColonHexCons(bs: seq<Byte>)
    requires |bs| > 1
    ensures ColonHex(bs) == ByteHex(bs[0]) + (":" + ColonHex(bs[1..]))
  {
    var ps := Pairs(bs);
    PairsTail(bs);
    assert ps[1..] == Pairs(bs[1..]);
    assert Join(ps, ":") == ps[0] + ":" + Join(ps[1..], ":");
  }

  /** Removing the colons from the colon-separated text leaves the bare digits. */
  lemma {:induction false} UncolonHex(bs: seq<Byte>)
    ensures Replace(ColonHex(bs), [':'], "") == CompactHex(bs)
    decreases |bs|
  {
    if |bs| == 1 {
      var h := ByteHex(bs[0]);
      assert ColonHex(bs) == h && CompactHex(bs) == h;
      ReplaceAbsent(h, [':'], "", 0);
    } else if |bs| > 1 {
      var h := ByteHex(bs[0]);
      var rest := ColonHex(bs[1..]);
      ColonHexCons(bs);
      PairsTail(bs);
      assert CompactHex(bs) == h + "" + CompactHex(bs[1..]);
      ReplaceCharAppend(h, ":" + rest, ':', "");
      ReplaceCharAppend(":", rest, ':', "");
      ReplaceAbsent(h, [':'], "", 0);
      assert Replace(":", [':'], "") == "";
      UncolonHex(bs[1..]);
    }
  }

  /**
   * Reading a MAC written in the usual form gives back its bytes, whatever
   * their number: the packet for `n` bytes has `6 + 16 n` bytes (102 for
   * the usual six), and nothing rejects a MAC of another length.
   */
  lemma {:induction false} MacRoundTrip(bs: seq<Byte>)
    ensures MacBytes(ColonHex(bs)) == Some(bs)
    ensures |MagicPacket(bs)| == 6 + 16 * |bs|
    ensures |bs| == 6 ==> |MagicPacket(bs)| == 102
  {
    UncolonHex(bs);
    FromCompactHex(bs);
  }

  /** A MAC with a character that is neither a hex digit, a colon nor whitespace is a `ValueError`. */
  lemma {:induction false} MacRejects(mac: string, k: nat)
    requires k < |mac| && !IsHexDigit(mac[k]) && !IsAsciiSpace(mac[k]) && mac[k] != ':'
    ensures MacBytes(mac).None?
    decreases |mac|
  {
    RemoveChar(mac, ':');
    var kept := Replace(mac, [':'], "");
    var j := FilterIndex(mac, x => x != ':', k);
    FromHexRejects(kept, j);
  }

  /** A character that passes the filter keeps a place in its output. */
  lemma {:induction false} FilterIndex(s: string, keep: char -> bool, k: nat) returns (j: nat)
    requires k < |s| && keep(s[k])
    ensures j < |Filter(s, keep)| && Filter(s, keep)[j] == s[k]
    decreases |s|
  {
    if k == 0 {
      j := 0;
    } else {
      var j' := FilterIndex(s[1..], keep, k - 1);
      j := if keep(s[0]) then j' + 1 else j';
    }
  }

  /** Every datagram of `ds` is `d`. */
  predicate AllAre(ds: seq<Datagram>, d: Datagram)
  {
    forall j :: 0 <= j < |ds| ==> ds[j] == d
  }

  lemma AllAreAppend(a: seq<Datagram>, b: seq<Datagram>, d: Datagram)
    requires AllAre(a, d) && AllAre(b, d)
    ensures AllAre(a + b, d)
  {
    forall j | 0 <= j < |a + b|
      ensures (a + b)[j] == d
    {
      if j < |a| {
        assert (a + b)[j] == a[j];
      } else {
        assert (a + b)[j] == b[j - |a|];
      }
    }
  }

  /** The number of sends whose socket calls all succeed. */
  function Successes(faults: seq<SocketFault>): (n: nat)
    ensures n <= |faults|
    decreases |faults|
  {
    if faults == [] then 0
    else Successes(faults[..|faults| - 1]) + (if faults[|faults| - 1].NoFault? then 1 else 0)
  }

  /** Some send succeeds exactly when the count is positive. */
  lemma {:induction false} SuccessesPositive(faults: seq<SocketFault>)
    ensures Successes(faults) > 0 <==> exists i :: 0 <= i < |faults| && faults[i].NoFault?
    decreases |faults|
  {
    if faults != [] {
      var init := faults[..|faults| - 1];
      SuccessesPositive(init);
      if exists i :: 0 <= i < |init| && init[i].NoFault? {
        var i :| 0 <= i < |init| && init[i].NoFault?;
        assert faults[i] == init[i];
      }
      if exists i :: 0 <= i < |faults| && faults[i].NoFault? {
        var i :| 0 <= i < |faults| && faults[i].NoFault?;
        if i < |init| {
          assert init[i] == faults[i];
        }
      }
    }
  }

  /** The pauses of a loop that waits `interval` between consecutive sends and not after the last. */
  function Gaps(count: nat, interval: nat): (g: seq<nat>)
    ensures count > 0 ==> |g| == count - 1
    ensures count == 0 ==> g == []
    ensures forall i :: 0 <= i < |g| ==> g[i] == interval
  {
    if count <= 1 then [] else Gaps(count - 1, interval) + [interval]
  }

  /**
   * The state of a send loop after `i` of `count` sends: the successes
   * counted (none when there is no packet to send), one `expected`
   * datagram per success, and a pause after every send but the last.
   */
  ghost predicate Sending(faults: seq<SocketFault>, interval: nat, expected: Option<Datagram>,
                          i: nat, successCount: nat, sent: seq<Datagram>, slept: seq<nat>)
  {
    && i <= |faults|
    && successCount == (if expected.Some? then Successes(faults[..i]) else 0)
    && |sent| == successCount
    && (expected.None? ==> sent == [])
    && (expected.Some? ==> AllAre(sent, expected.value))
    && slept == (if i < |faults| then Gaps(i + 1, interval) else Gaps(|faults|, interval))
  }

  lemma SendingStart(faults: seq<SocketFault>, interval: nat, expected: Option<Datagram>)
    ensures Sending(faults, interval, expected, 0, 0, [], [])
  {
    assert faults[..0] == [];
  }

  /** One more send, which succeeds exactly when there is a packet and the network lets it through. */
  lemma SendingStep(faults: seq<SocketFault>, interval: nat, expected: Option<Datagram>,
                    i: nat, successCount: nat, sent: seq<Datagram>, slept: seq<nat>, one: bool, d: seq<Datagram>)
    requires i < |faults| && Sending(faults, interval, expected, i, successCount, sent, slept)
    requires one <==> expected.Some? && faults[i].NoFault?
    requires d == if one then [expected.value] else []
    ensures Sending(faults, interval, expected, i + 1, if one then successCount + 1 else successCount, sent + d,
                    if i < |faults| - 1 then slept + [interval] else slept)
  {
    assert faults[..i + 1][..i] == faults[..i];
    if one {
      AllAreAppend(sent, d, expected.value);
    }
  }

  /** After the last send: the count, the datagrams and the pauses of the whole loop. */
  lemma SendingDone(faults: seq<SocketFault>, interval: nat, expected: Option<Datagram>,
                    successCount: nat, sent: seq<Datagram>, slept: seq<nat>)
    requires Sending(faults, interval, expected, |faults|, successCount, sent, slept)
    ensures successCount == (if expected.Some? then Successes(faults) else 0)
    ensures successCount <= |faults|
    ensures successCount > 0 <==> expected.Some? && exists i :: 0 <= i < |faults| && faults[i].NoFault?
    ensures |sent| == successCount && forall i :: 0 <= i < |sent| ==> Some(sent[i]) == expected
    ensures slept == Gaps(|faults|, interval)
  {
    assert faults[..|faults|] == faults;
    SuccessesPositive(faults);
  }
}
