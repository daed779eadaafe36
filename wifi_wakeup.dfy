/**
 * The two Wake-on-LAN senders of the wake-up script, both called
 * `WolSender` there (the second definition replaces the first once the
 * module has been read):
 *
 *  - the first opens one UDP socket, broadcasts the magic packet `count`
 *    times with a pause between sends, and returns `False` at the first
 *    send error; it can also look up the broadcast address of the default
 *    interface;
 *  - the second refuses a missing or blank MAC at construction, and builds
 *    the packet and a socket afresh for every send, counting each failed
 *    send instead of raising.
 *
 * The socket calls are modelled by their faults, the pauses by the list
 * of their lengths, the interface lookup by its result; logging is left
 * out.
 */
module WifiWakeup {
  import opened Base
  import opened Text
  import opened Wol

  /**
   * What the interface lookup of `find_broadcast_address` yields: `None`
   * when any step raises (no `netifaces`, no default gateway, no IPv4
   * address), else the `broadcast` entry of the first IPv4 address, itself
   * `None` when missing.
   */
  function FindBroadcastAddress(lookup: Option<Option<string>>): (r: string)
    ensures r != ""
    ensures r == DefaultBroadcast || lookup == Some(Some(r))
    ensures (lookup.None? || lookup == Some(None) || lookup == Some(Some(""))) ==> r == DefaultBroadcast
    ensures lookup.Some? && lookup.value.Some? && lookup.value.value != "" ==> r == lookup.value.value
  {
    match lookup
    case None => DefaultBroadcast
    case Some(entry) =>
      match entry
      case None => DefaultBroadcast
      case Some(b) => if b != "" then b else DefaultBroadcast
  }

  /**
   * The send loop of the first `send_magic_packet`: `datagram` is sent once
   * per send up to the first one that fails, with `interval` between
   * consecutive sends; true exactly when none fails.
   */
  method SendUntilFailure(datagram: Datagram, interval: nat, sendFails: seq<bool>)
    returns (ok: bool, sent: seq<Datagram>, slept: seq<nat>)
    ensures ok == (FirstTrue(sendFails) == |sendFails|)
    ensures ok <==> forall i :: 0 <= i < |sendFails| ==> !sendFails[i]
    ensures |sent| == FirstTrue(sendFails) && forall i :: 0 <= i < |sent| ==> sent[i] == datagram
    ensures slept == (if FirstTrue(sendFails) < |sendFails| then Gaps(FirstTrue(sendFails) + 1, interval)
                      else Gaps(|sendFails|, interval))
  {
    sent, slept := [], [];
    var count := |sendFails|;
    var i := 0;
    while i < count
      invariant 0 <= i <= count && i <= FirstTrue(sendFails)
      invariant |sent| == i && forall j :: 0 <= j < i ==> sent[j] == datagram
      invariant slept == (if i < count then Gaps(i + 1, interval) else Gaps(count, interval))
    {
      if sendFails[i] {
        FirstTrueAt(sendFails, i);
        return false, sent, slept;
      }
      sent := sent + [datagram];
      if i < count - 1 {
        slept := slept + [interval];
      }
      i := i + 1;
    }
    FirstTrueAt(sendFails, count);
    ok := true;
  }

  /** The first definition of `WolSender`. */
  class WolSender {
    const macAddress: string
    var broadcastIp: string
    const port: int

    constructor(macAddress: string, broadcastIp: string, port: int)
      ensures this.macAddress == macAddress && this.broadcastIp == broadcastIp && this.port == port
    {
      this.macAddress := macAddress;
      this.broadcastIp := broadcastIp;
      this.port := port;
    }

    /**
     * `send_magic_packet(count, interval)`: an invalid MAC raises
     * `ValueError` and a failing socket set-up raises `socket.error`, both
     * before anything is sent; past that, sends go out until the first one
     * that fails (`sendFails`), which makes the result `false`, and the
     * socket is closed whatever happens (`closed`).
     */
    method SendMagicPacket(count: nat, interval: nat, setupOk: bool, sendFails: seq<bool>)
      returns (r: Outcome, sent: seq<Datagram>, slept: seq<nat>, closed: bool)
      requires |sendFails| == count
      ensures MacBytes(macAddress).None? ==> r == Raised(ValueError) && sent == [] && slept == [] && !closed
      ensures MacBytes(macAddress).Some? && !setupOk ==> r == Raised(SocketError) && sent == [] && slept == [] && !closed
      ensures MacBytes(macAddress).Some? && setupOk ==> (closed
        && r == Returned(FirstTrue(sendFails) == count)
        && |sent| == FirstTrue(sendFails)
        && (forall i :: 0 <= i < |sent| ==> sent[i] == Datagram(MagicPacket(MacBytes(macAddress).value), broadcastIp, port))
        && slept == (if FirstTrue(sendFails) < count then Gaps(FirstTrue(sendFails) + 1, interval) else Gaps(count, interval)))
      ensures r.Returned? ==> (r.ok <==> forall i :: 0 <= i < count ==> !sendFails[i])
    {
      sent, slept, closed := [], [], false;
      var parsed := MacBytes(macAddress);
      if parsed.None? {
        return Raised(ValueError), sent, slept, closed;
      }
      var packet := MagicPacket(parsed.value);
      if !setupOk {
        return Raised(SocketError), sent, slept, closed;
      }
      var ok;
      ok, sent, slept := SendUntilFailure(Datagram(packet, broadcastIp, port), interval, sendFails);
      r, closed := Returned(ok), true;
    }
  }

  /** Whether the second constructor accepts the MAC: not `None`, not empty, not blank. */
  predicate MacAccepted(mac: Option<string>)
  {
    mac.Some? && Strip(mac.value) != ""
  }

  /** A MAC is refused exactly when it is missing or has no character other than whitespace. */
  lemma MacAcceptedIff(mac: Option<string>)
    ensures MacAccepted(mac) <==> mac.Some? && exists i :: 0 <= i < |mac.value| && !IsSpace(mac.value[i])
  {
  }

  /** The attributes the second constructor sets: the logger set-up is commented out. */
  const SecondCtorAttributes: set<string> := {"mac_address", "broadcast_ip", "port", "uut_name"}

  /** `send_magic_packet` of the second class as written: its first statement reads `self.logger`. */
  function SecondSendAsWritten(count: nat, faults: seq<SocketFault>): (r: Outcome)
    ensures r.Raised? ==> r.e == AttributeError
    ensures r.Returned? ==> (r.ok <==> exists i :: 0 <= i < |faults| && faults[i].NoFault?)
  {
    SuccessesPositive(faults);
    if "logger" !in SecondCtorAttributes then Raised(AttributeError) else Returned(Successes(faults) > 0)
  }

  /** As written, the second sender never sends: every call raises before its loop. */
  lemma LoggerNeverSet(count: nat, faults: seq<SocketFault>)
    ensures "logger" !in SecondCtorAttributes
    ensures SecondSendAsWritten(count, faults) == Raised(AttributeError)
  {
    assert "logger" != "mac_address" && "logger" != "broadcast_ip" && "logger" != "port" && "logger" != "uut_name";
  }

  /** The second definition of `WolSender`, with the logging calls dropped. */
  class PerPacketWolSender {
    const macAddress: string
    const broadcastIp: string
    const port: int
    const uutName: string

    constructor(macAddress: string, broadcastIp: string, port: int, uutName: string)
      requires MacAccepted(Some(macAddress))
      ensures this.macAddress == macAddress && this.broadcastIp == broadcastIp
      ensures this.port == port && this.uutName == uutName
    {
      this.macAddress := macAddress;
      this.broadcastIp := broadcastIp;
      this.port := port;
      this.uutName := uutName;
    }

    /** The datagram every successful send puts on the network. */
    function Expected(): (d: Option<Datagram>)
      ensures d.Some? <==> MacBytes(macAddress).Some?
      ensures d.Some? ==> d.value.payload == MagicPacket(MacBytes(macAddress).value)
      ensures d.Some? ==> d.value.ip == broadcastIp && d.value.port == port
    {
      match MacBytes(macAddress)
      case None => None
      case Some(bs) => Some(Datagram(MagicPacket(bs), broadcastIp, port))
    }

    /** One pass of the send loop: the packet is built from the MAC again and sent over a new socket. */
    method SendOnce(fault: SocketFault) returns (ok: bool, d: seq<Datagram>)
      ensures ok <==> Expected().Some? && fault.NoFault?
      ensures d == if ok then [Expected().value] else []
    {
      var parsed := MacBytes(macAddress);
      if parsed.None? {
        return false, [];
      }
      var packet := MagicPacket(parsed.value);
      if !fault.NoFault? {
        return false, [];
      }
      ok, d := true, [Datagram(packet, broadcastIp, port)];
    }

    /** The send loop of `send_magic_packet`, one `SendOnce` per fault, with a pause between consecutive sends. */
    method SendEach(count: nat, interval: nat, faults: seq<SocketFault>)
      returns (successCount: nat, sent: seq<Datagram>, slept: seq<nat>)
      requires |faults| == count
      ensures Sending(faults, interval, Expected(), count, successCount, sent, slept)
    {
      var expected := Expected();
      successCount, sent, slept := 0, [], [];
      SendingStart(faults, interval, expected);
      for i := 0 to count
        invariant Sending(faults, interval, expected, i, successCount, sent, slept)
      {
        var one, d := SendOnce(faults[i]);
        SendingStep(faults, interval, expected, i, successCount, sent, slept, one, d);
        successCount := if one then successCount + 1 else successCount;
        sent := sent + d;
        if i < count - 1 {
          slept := slept + [interval];
        }
      }
    }

    /**
     * Every send: the packet is built again, a socket opened, the packet
     * broadcast; an invalid MAC or a socket error only counts that send as
     * failed.  Pauses come between sends only, failed or not.
     */
    method SendMagicPacket(count: nat, interval: nat, faults: seq<SocketFault>)
      returns (ok: bool, successCount: nat, sent: seq<Datagram>, slept: seq<nat>)
      requires |faults| == count
      ensures successCount == (if Expected().Some? then Successes(faults) else 0)
      ensures successCount <= count
      ensures ok <==> successCount > 0
      ensures ok <==> Expected().Some? && exists i :: 0 <= i < count && faults[i].NoFault?
      ensures |sent| == successCount && forall i :: 0 <= i < |sent| ==> Some(sent[i]) == Expected()
      ensures slept == Gaps(count, interval)
    {
      successCount, sent, slept := SendEach(count, interval, faults);
      SendingDone(faults, interval, Expected(), successCount, sent, slept);
      ok := successCount > 0;
    }
  }

  /** The second constructor: `ValueError` for a missing or blank MAC, else a sender with the given settings. */
  method CreatePerPacket(mac: Option<string>, broadcastIp: string, port: int, uutName: string)
    returns (r: Option<PerPacketWolSender>)
    ensures r.Some? <==> MacAccepted(mac)
    ensures r.Some? ==> (fresh(r.value) && r.value.macAddress == mac.value && r.value.broadcastIp == broadcastIp
      && r.value.port == port && r.value.uutName == uutName)
  {
    if !MacAccepted(mac) {
      return None;
    }
    var s := new PerPacketWolSender(mac.value, broadcastIp, port, uutName);
    r := Some(s);
  }
}
