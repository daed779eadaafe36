/**
 * The Linux Wake-on-LAN sender: one call builds the magic packet for the
 * target MAC and broadcasts it over a fresh UDP socket; the batch call
 * sends it `count` times, pausing between sends, and reports whether any
 * send got through.
 *
 * The socket calls are modelled by a `SocketFault` per send (which call,
 * if any, raises `socket.error`); the pauses are returned as the list of
 * their lengths; logging is left out.
 */
module WifiWakeLinux {
  import opened Base
  import opened Text
  import opened Hex
  import opened Wol

  /**
   * `send_magic_packet` as written: `sock` starts as `None` and the
   * `finally` block closes it whenever the name exists, which is always;
   * when the MAC does not parse, or the socket cannot be created, the
   * `except` block's `False` is replaced by the `AttributeError` of
   * `None.close()`.
   */
  function SendAsWritten(mac: string, fault: SocketFault): (r: Outcome)
    ensures r.Raised? <==> MacBytes(mac).None? || fault.CreateFails?
    ensures r.Raised? ==> r.e == AttributeError
    ensures r.Returned? ==> (r.ok <==> fault.NoFault?)
  {
    match MacBytes(mac)
    case None => Raised(AttributeError)
    case Some(_) =>
      if fault.CreateFails? then Raised(AttributeError)
      else Returned(fault.NoFault?)
  }

  /** An invalid MAC, whatever the network does, makes the as-written call raise rather than return `False`. */
  lemma MalformedMacEscapes(mac: string, fault: SocketFault)
    requires MacBytes(mac).None?
    ensures SendAsWritten(mac, fault) == Raised(AttributeError)
    ensures SendAsWritten(mac, fault) != Returned(false)
  {
  }

  /** The input that shows it: the MAC text "xx". */
  lemma MalformedMacExample()
    ensures SendAsWritten("xx", NoFault) == Raised(AttributeError)
  {
    MacRejects("xx", 0);
  }

  /** `send_wakeup_packets` as written: the first escaping exception ends the batch. */
  function BatchAsWritten(mac: string, faults: seq<SocketFault>, success: nat): (r: Outcome)
    ensures r.Raised? <==> exists i :: 0 <= i < |faults| && SendAsWritten(mac, faults[i]).Raised?
    ensures r.Raised? ==> r.e == AttributeError
    decreases |faults|
  {
    if faults == [] then Returned(success > 0)
    else
      match SendAsWritten(mac, faults[0])
      case Raised(e) => Raised(e)
      case Returned(b) => BatchAsWritten(mac, faults[1..], success + (if b then 1 else 0))
  }

  /** With an invalid MAC, a batch of at least one send raises as written. */
  lemma MalformedMacEndsBatch(mac: string, faults: seq<SocketFault>, success: nat)
    requires MacBytes(mac).None? && faults != []
    ensures BatchAsWritten(mac, faults, success) == Raised(AttributeError)
  {
  }

  class WolSender {
    const macAddress: string
    const broadcastIp: string
    const port: int

    constructor(macAddress: string, broadcastIp: string, port: int)
      ensures this.macAddress == macAddress && this.broadcastIp == broadcastIp && this.port == port
    {
      this.macAddress := macAddress;
      this.broadcastIp := broadcastIp;
      this.port := port;
    }

    /** The datagram every successful send puts on the network. */
    function Expected(): (d: Option<Datagram>)
      ensures d.Some? <==> MacBytes(macAddress).Some?
      ensures d.Some? ==> |d.value.payload| == 6 + 16 * |MacBytes(macAddress).value|
    {
      match MacBytes(macAddress)
      case None => None
      case Some(bs) => Some(Datagram(MagicPacket(bs), broadcastIp, port))
    }

    /**
     * `send_magic_packet` with the socket closed only once it exists:
     * every failure, of the MAC or of the network, is reported as `false`,
     * and a success puts exactly the magic packet on the network.
     */
    method SendMagicPacket(fault: SocketFault) returns (ok: bool, sent: seq<Datagram>)
      ensures ok <==> MacBytes(macAddress).Some? && fault.NoFault?
      ensures ok ==> sent == [Expected().value]
      ensures !ok ==> sent == []
      ensures MacBytes(macAddress).Some? && !fault.CreateFails? ==> SendAsWritten(macAddress, fault) == Returned(ok)
    {
      var parsed := MacBytes(macAddress);
      if parsed.None? {
        return false, [];
      }
      var packet := MagicPacket(parsed.value);
      if !fault.NoFault? {
        return false, [];
      }
      ok := true;
      sent := [Datagram(packet, broadcastIp, port)];
    }

    /**
     * `send_wakeup_packets`: `count` sends (one fault each), a pause of
     * `interval` between consecutive sends only; the count of successes
     * never exceeds `count`, and the result is whether it is positive.
     */
    method SendWakeupPackets(count: nat, interval: nat, faults: seq<SocketFault>)
      returns (ok: bool, successCount: nat, sent: seq<Datagram>, slept: seq<nat>)
      requires |faults| == count
      ensures successCount == (if MacBytes(macAddress).Some? then Successes(faults) else 0)
      ensures successCount <= count
      ensures ok <==> successCount > 0
      ensures ok <==> MacBytes(macAddress).Some? && exists i :: 0 <= i < count && faults[i].NoFault?
      ensures |sent| == successCount && forall i :: 0 <= i < |sent| ==> Some(sent[i]) == Expected()
      ensures slept == Gaps(count, interval)
    {
      successCount, sent, slept := 0, [], [];
      SendingStart(faults, interval, Expected());
      for i := 0 to count
        invariant Sending(faults, interval, Expected(), i, successCount, sent, slept)
      {
        var one, d := SendMagicPacket(faults[i]);
        SendingStep(faults, interval, Expected(), i, successCount, sent, slept, one, d);
        successCount := if one then successCount + 1 else successCount;
        sent := sent + d;
        if i < count - 1 {
          slept := slept + [interval];
        }
      }
      SendingDone(faults, interval, Expected(), successCount, sent, slept);
      ok := successCount > 0;
    }
  }
}
