/** The HID report the bridge writes to the device (`create_hid_packet`):
    report id 0, the packet id, and for packet 1 the gear index. */
module HidReport {
  import opened Bytes
  import opened Telemetry
  import opened PacketDecoder
  import opened Wrappers

  /** The HID report id every report starts with. */
  const ReportId: u8 := 0

  /** The packet id of the gear report, the only one with a payload. */
  const GearPacketId: u8 := 1

  /** The largest report the device accepts. */
  const MaxReportLength: nat := 64

  /** The report for `packetId`: report id, packet id, then the gear index
      when the packet id is 1 and nothing more for any other id. */
  function Report(input: TelemetryData, packetId: u8): (report: seq<u8>)
    ensures 2 <= |report| <= MaxReportLength
    ensures report[..2] == [ReportId, packetId]
  {
    [ReportId, packetId] + (if packetId == GearPacketId then [input.vehicleGearIndex] else [])
  }

  /** Building the report as the source does: start with the report id,
      push the packet id, then push the payload the packet id selects. */
  method CreateHidPacket(input: TelemetryData, packetId: u8) returns (output: seq<u8>)
    ensures output == Report(input, packetId)
  {
    output := [ReportId];
    output := output + [packetId];
    if packetId == GearPacketId {
      output := output + [input.vehicleGearIndex];
    }
  }

  /** Every report starts with the report id and the packet id, and fits
      the device's 64-byte maximum; the gear report is exactly three bytes
      ending in the gear index, any other report exactly those two bytes. */
  lemma ReportShape(input: TelemetryData, packetId: u8)
    ensures |Report(input, packetId)| <= MaxReportLength
    ensures Report(input, packetId)[..2] == [ReportId, packetId]
    ensures packetId == GearPacketId ==> Report(input, packetId) == [0, 1, input.vehicleGearIndex]
    ensures packetId != GearPacketId ==> Report(input, packetId) == [0, packetId]
  {
  }

  /** The inverse of `Report` on gear reports: the gear index a gear report
      carries, and nothing for any other byte string. It states the gear
      round trip in `GearOfReport`. */
  function GearOf(report: seq<u8>): (gear: Option<u8>)
    ensures gear.Some? ==> |report| == 3 && report[2] == gear.value
  {
    if |report| == 3 && report[0] == ReportId && report[1] == GearPacketId then Some(report[2]) else None
  }

  /** The gear index is recovered from a gear report, and no gear from a
      report with any other packet id. */
  lemma GearOfReport(input: TelemetryData, packetId: u8)
    ensures GearOf(Report(input, packetId)) == if packetId == GearPacketId then Some(input.vehicleGearIndex) else None
  {
  }

  /** End to end: the gear report for a datagram of at least 226 bytes
      carries byte 25 of the datagram unchanged. */
  lemma GearReportOfDatagram(buf: seq<u8>)
    requires PacketSize <= |buf|
    ensures Decode(buf).Success?
    ensures Report(Decode(buf).value, GearPacketId) == [ReportId, GearPacketId, buf[25]]
  {
    DecodedGearIndex(buf);
  }

  /** Before any datagram, the bridge reports gear index 0. */
  lemma ReportOfZeroRecord()
    ensures Report(ZeroRecord(), GearPacketId) == [ReportId, GearPacketId, 0]
  {
    var r := ZeroRecord();
    assert ToFields(r)[6] == ZeroFields()[6];
  }
}
