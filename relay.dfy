/** The two loops that move telemetry from the UDP socket to the HID
    device, one iteration per method call: the listener decodes each
    datagram and sends the record into a channel of capacity 10, and the
    bridge polls that channel without waiting, keeps the last record it
    took, and builds the gear report from it. */
module Relay {
  import opened Bytes
  import opened Telemetry
  import opened PacketDecoder
  import opened HidReport
  import opened Wrappers

  /** The channel's capacity. */
  const Capacity: nat := 10

  /** The size of the listener's receive buffer: longer datagrams are cut
      to their first 1024 bytes. */
  const ReceiveBufferSize: nat := 1024

  /** What the listener's buffer holds after receiving `datagram`. */
  function Received(datagram: seq<u8>): (bytes: seq<u8>)
    ensures |bytes| <= ReceiveBufferSize
    ensures bytes <= datagram
    ensures |datagram| <= ReceiveBufferSize ==> bytes == datagram
  {
    if |datagram| <= ReceiveBufferSize then datagram else datagram[..ReceiveBufferSize]
  }

  /** Cutting a datagram to the receive buffer never changes what it
      decodes to: the record lies in the first 226 bytes. */
  lemma DecodeOfReceived(datagram: seq<u8>)
    ensures Decode(Received(datagram)) == Decode(datagram)
  {
    if PacketSize <= |datagram| {
      var bytes := Received(datagram);
      DecodeIgnoresTrailingBytes(datagram);
      DecodeIgnoresTrailingBytes(bytes);
      assert bytes[..PacketSize] == datagram[..PacketSize];
    }
  }

  /** The channel and the two loops' state. */
  class Bridge {
    /** Records sent into the channel and not yet taken, oldest first. */
    var queue: seq<TelemetryData>
    /** The record the bridge reports from (`last_packet`). */
    var held: TelemetryData
    /** A record the listener is waiting to send because the channel is
        full; the listener receives nothing more until it is sent. */
    var pending: Option<TelemetryData>
    /** Whether the bridge holds the receiving end: false when no device was
        opened, and then every send fails. */
    const receiverOpen: bool

    /** Every record the listener has put into the channel, in order. */
    ghost var sent: seq<TelemetryData>
    /** Every record the bridge has taken from the channel, in order. */
    ghost var taken: seq<TelemetryData>

    /** The channel is a FIFO of at most 10 records: what was sent is what
        was taken followed by what is queued. The bridge holds the last
        record it took, or the all-zero record before the first. Nothing is
        sent into a closed channel. */
    ghost predicate Valid()
      reads this
      ensures Valid() ==> |taken| <= |sent| <= |taken| + Capacity
    {
      |queue| <= Capacity &&
      sent == taken + queue &&
      held == (if taken == [] then ZeroRecord() else taken[|taken| - 1]) &&
      (!receiverOpen ==> sent == [] && pending == None)
    }

    /** The channel is created empty, and the bridge starts from the
        all-zero record. */
    constructor (receiverOpen: bool)
      ensures Valid()
      ensures this.receiverOpen == receiverOpen
      ensures queue == [] && held == ZeroRecord() && pending == None
      ensures sent == [] && taken == []
    {
      this.receiverOpen := receiverOpen;
      queue := [];
      held := ZeroRecord();
      pending := None;
      sent := [];
      taken := [];
    }

    /** One listener iteration for a received datagram (the listener is not
        waiting on a send). A datagram that does not decode is ignored; a
        decoded record is sent: into the channel when it has room, into the
        waiting slot when it is full, and nowhere when the receiving end is
        gone. */
    method OnDatagram(datagram: seq<u8>)
      requires Valid() && pending == None
      modifies this
      ensures Valid()
      ensures held == old(held) && taken == old(taken)
      ensures Decode(datagram).Failure? || !receiverOpen ==>
        queue == old(queue) && sent == old(sent) && pending == None
      ensures Decode(datagram).Success? && receiverOpen && |old(queue)| < Capacity ==>
        queue == old(queue) + [Decode(datagram).value] && sent == old(sent) + [Decode(datagram).value] && pending == None
      ensures Decode(datagram).Success? && receiverOpen && |old(queue)| == Capacity ==>
        queue == old(queue) && sent == old(sent) && pending == Some(Decode(datagram).value)
    {
      var bytes := Received(datagram);
      DecodeOfReceived(datagram);
      var parsed := ParsePacket(bytes);
      if parsed.Success? && receiverOpen {
        if |queue| < Capacity {
          queue := queue + [parsed.value];
          sent := sent + [parsed.value];
        } else {
          pending := Some(parsed.value);
        }
      }
    }

    /** The waiting send completes once the bridge has made room. */
    method ResumeSend()
      requires Valid() && pending.Some? && |queue| < Capacity
      modifies this
      ensures Valid()
      ensures queue == old(queue) + [old(pending).value] && sent == old(sent) + [old(pending).value]
      ensures pending == None && held == old(held) && taken == old(taken)
    {
      queue := queue + [pending.value];
      sent := sent + [pending.value];
      pending := None;
    }

    /** One bridge iteration: take the oldest record if there is one and
        hold it, then build the gear report from the held record. */
    method BridgeStep() returns (report: seq<u8>)
      requires Valid() && receiverOpen
      modifies this
      ensures Valid()
      ensures old(queue) != [] ==> held == old(queue)[0] && queue == old(queue)[1..] && taken == old(taken) + [held]
      ensures old(queue) == [] ==> held == old(held) && queue == [] && taken == old(taken)
      ensures sent == old(sent) && pending == old(pending)
      ensures report == Report(held, GearPacketId)
    {
      if |queue| > 0 {
        held := queue[0];
        queue := queue[1..];
        taken := taken + [held];
      }
      report := CreateHidPacket(held, GearPacketId);
    }
  }

  /** Under the invariant, the held record is one the listener decoded and
      sent, unless nothing has been taken yet. */
  lemma HeldWasSent(b: Bridge)
    requires b.Valid()
    ensures b.taken == [] ==> b.held == ZeroRecord()
    ensures b.taken != [] ==> b.held in b.sent && b.sent[|b.taken| - 1] == b.held
  {
    if b.taken != [] {
      assert b.sent[|b.taken| - 1] == b.taken[|b.taken| - 1];
    }
  }
}
