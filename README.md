# UDP telemetry receiver to HID bridge, modelled in Dafny

The receiver (`UDPreceiver/src/main.rs`) listens for UDP datagrams from a
racing simulation. Each datagram carries one telemetry record: 60 adjacent
little-endian fields, 226 bytes in all, with no padding. The receiver
decodes the record and passes it through a channel of capacity 10 to a
bridge loop. The bridge loop keeps the last record it received and writes a
short HID report carrying the current gear to a USB device. Before starting
the bridge, the receiver chooses that device by scanning vendor ids in a
fixed priority order.

This project models the core of that program and proves properties of the
model:

- `bytes.dfy` (module `Bytes`): fixed-width unsigned words and the
  `read_u32`, `read_u64`, `read_f32`, `read_bool` and `read_u8` closures of
  the decoder. Little-endian values are proved to round-trip.
- `telemetry.dfy` (module `Telemetry`): the `TelemetryData` record and its
  wire layout. The layout is given as the kind of each field and its byte
  offset. The module also has the all-zero default record, and the
  conversion between a record and its list of 60 field values.
- `chunks.dfy` (module `Chunks`): byte chunks laid end to end, and where each
  chunk lands. These are generic lemmas used by the serializer.
- `decoder.dfy` (module `PacketDecoder`):
  - `parse_packet` as a cursor loop (`ParsePacket`), proved against the
    decoding function `Decode`;
  - the field offsets and the in-bounds condition;
  - the decoded values of the header, the gear index, the flags and the
    frame counter;
  - independence from trailing bytes;
  - a serializer for the sending side, with both round trips;
  - the parser exactly as written, including its panic on short buffers.
- `hid.dfy` (module `HidReport`): `create_hid_packet`, as a function and as
  the push-by-push method, its inverse `GearOf` for the gear round trip, and the
  end-to-end gear report for a datagram.
- `selection.dfy` (module `DeviceSelection`): the vendor-id and usage scan
  of `start_hid_interaction`.
- `relay.dfy` (module `Relay`): the channel, the listener step and the
  bridge step as a class. The class keeps a queue of at most 10 records, the
  held record, and a send that waits while the channel is full.
- `wrappers.dfy` (module `Wrappers`): `Option`.

Each `f32` field is kept as its 32-bit pattern. The receiver only
reinterprets bytes as a float and never computes with one.

Three points on which the model's reading of the code needs stating:

- The record is a fixed 226-byte layout. The code accepts longer datagrams
  and ignores the bytes past the record. See
  `PacketDecoder.DecodeIgnoresTrailingBytes`.
- The code checks only for fewer than 4 bytes, and a shorter buffer then
  panics at a slice (see "## Findings"). `ParsePacket` and `Decode` are the
  corrected parser, which rejects every buffer shorter than 226 bytes, and
  this corrected parser is the one that drives `Relay`. The code as written
  is modelled separately by `PacketDecoder.ParsePacketAsWritten`.
- `try_recv` takes the oldest record, one per bridge iteration, so no
  record is skipped. See `Relay.Bridge.BridgeStep` and the invariant
  `Relay.Bridge.Valid`.

## Model

| member | source | states |
|---|---|---|
| Bytes.LittleEndian | UDPreceiver/src/main.rs:253-262 | the value of a little-endian byte string, byte 0 least significant, is below 256 to the power of its length |
| Bytes.LittleEndianOfToLittleEndian | UDPreceiver/src/main.rs:253-267 | reading back the little-endian bytes of a value gives the value |
| Bytes.ToLittleEndianOfLittleEndian | UDPreceiver/src/main.rs:253-267 | writing back the value of little-endian bytes gives the bytes, so a word of a given width is a bijection |
| Bytes.LittleEndianInjective | UDPreceiver/src/main.rs:253-267 | two byte strings of one length with the same value are equal |
| Bytes.ReadU32 | UDPreceiver/src/main.rs:253-257 | `u32::from_le_bytes`: byte 0 is least significant, weights 1, 2^8, 2^16 and 2^24 |
| Bytes.ReadU64 | UDPreceiver/src/main.rs:258-262 | `u64::from_le_bytes`: the low four bytes are the low word and the high four bytes the high word |
| Bytes.ReadF32 | UDPreceiver/src/main.rs:263-267 | `f32::from_le_bytes` keeps the 32-bit pattern read as `u32` would read it |
| Bytes.ReadBool | UDPreceiver/src/main.rs:268 | a flag byte is true exactly when it is nonzero |
| Bytes.ReadU8 | UDPreceiver/src/main.rs:269 | a one-byte field is the byte itself |
| Telemetry.ZeroRecord | UDPreceiver/src/main.rs:153-214 | the bridge's initial record has every number field zero and both flags false |
| Telemetry.KindAt | UDPreceiver/src/main.rs:275-393 | the kind of each of the 60 reads; the flag (`read_bool`) fields are exactly fields 5 and 53 |
| Telemetry.Offset | UDPreceiver/src/main.rs:275-393 | where the cursor stands before each read: every field ends within the 226-byte record, and the end of the record is byte 226 |
| Telemetry.LayoutIsAdjacent | UDPreceiver/src/main.rs:251-393 | the first field starts at byte 0, each field starts where the previous one ends, and the last ends at byte 226 |
| Telemetry.Field | UDPreceiver/src/main.rs:13-73 | each field of the record holds a value of its wire kind |
| Telemetry.ToFields | UDPreceiver/src/main.rs:13-73 | listing a record's fields gives 60 values, each of its field's kind |
| Telemetry.FromFields | UDPreceiver/src/main.rs:396-457 | the struct literal assembles the record from the 60 values read; the gear index is the seventh value (the full identity is `ToFieldsOfFromFields`) |
| Telemetry.ToFieldsOfFromFields | UDPreceiver/src/main.rs:395-457 | assembling the record from the 60 read values and listing its fields gives those values back |
| Telemetry.FieldOfFromFields | UDPreceiver/src/main.rs:395-457 | each field of the assembled record is the value read for it |
| Telemetry.ReadField | UDPreceiver/src/main.rs:253-269 | reading a field's width of bytes gives a value of that field's kind |
| Telemetry.ReadFieldOfWriteField | UDPreceiver/src/main.rs:253-269 | reading back the bytes written for a field gives the field |
| Telemetry.WriteFieldOfReadField | UDPreceiver/src/main.rs:268 | writing back a field read from bytes reproduces the bytes exactly when it is not a flag or its byte is 0 or 1 |
| PacketDecoder.FieldAt | UDPreceiver/src/main.rs:275-393 | one `read_*` of the field's width at its offset gives a value of the field's kind |
| PacketDecoder.FieldsUpToAt | UDPreceiver/src/main.rs:275-393 | the j-th value the cursor has read is field j read at its layout offset |
| PacketDecoder.FieldsOfWellTyped | UDPreceiver/src/main.rs:275-393 | every field read from a full-length datagram fits its kind |
| PacketDecoder.OffsetIsCursor | UDPreceiver/src/main.rs:251-392 | the layout offset of field i is where the cursor, starting at 0 and advancing by each field's width, stands before field i |
| PacketDecoder.CursorAdvances | UDPreceiver/src/main.rs:276-392 | the cursor only moves forward |
| PacketDecoder.CursorStep | UDPreceiver/src/main.rs:275-393 | one read: field i spans the cursor to the next cursor position, lies inside a 226-byte datagram, and extends the values read so far |
| PacketDecoder.Decode | UDPreceiver/src/main.rs:250-461 | the corrected `parse_packet`: decoding fails exactly on datagrams shorter than 226 bytes; the record it gives otherwise is stated by `DecodedFields` |
| PacketDecoder.ParsePacket | UDPreceiver/src/main.rs:250-461 | the cursor loop returns exactly what `Decode` defines: `BufferTooSmall` below 226 bytes, otherwise the record assembled from the 60 reads |
| PacketDecoder.DecodeFailsIffShort | UDPreceiver/src/main.rs:271-273 | decoding fails exactly on datagrams shorter than 226 bytes, and then with `BufferTooSmall` |
| PacketDecoder.DecodedFields | UDPreceiver/src/main.rs:275-457 | the fields of the decoded record are the fields read at the layout offsets |
| PacketDecoder.DecodedHeader | UDPreceiver/src/main.rs:275-278 | `packet_4cc` is bytes 0..4 and `packet_uid` bytes 4..12, little-endian |
| PacketDecoder.DecodedGearIndex | UDPreceiver/src/main.rs:287 | `vehicle_gear_index` is byte 25 |
| PacketDecoder.DecodedFlags | UDPreceiver/src/main.rs:285-381 | `shiftlights_rpm_valid` is true exactly when byte 24 is nonzero, and `vehicle_handbrake` exactly when byte 201 is |
| PacketDecoder.FlagAt | UDPreceiver/src/main.rs:268 | a flag field read from the datagram is true exactly when its byte is nonzero |
| PacketDecoder.DecodedTiming | UDPreceiver/src/main.rs:387-393 | `game_frame_count` is bytes 210..214 and `stage_length` bytes 222..226, little-endian |
| PacketDecoder.DecodeIgnoresTrailingBytes | UDPreceiver/src/main.rs:275-393 | a datagram decodes exactly as its first 226 bytes |
| PacketDecoder.FieldsUpToOfPrefix | UDPreceiver/src/main.rs:275-393 | the values the cursor reads depend only on the first 226 bytes |
| PacketDecoder.FieldAtOfPrefix | UDPreceiver/src/main.rs:275-393 | each field depends only on the first 226 bytes |
| PacketDecoder.ChunksStartAtOffsets | UDPreceiver/src/main.rs:275-393 | in the wire image, field j's bytes start at the layout offset of field j |
| PacketDecoder.Serialize | UDPreceiver/src/main.rs:13-73 | the wire image of a record is 226 bytes |
| PacketDecoder.SerializedSlot | UDPreceiver/src/main.rs:275-393 | in the wire image, field j occupies bytes `Offset(j)..Offset(j+1)` |
| PacketDecoder.DecodeOfSerialize | UDPreceiver/src/main.rs:250-461 | decoding the wire image of any record gives the record back |
| PacketDecoder.FromFieldsOfToFields | UDPreceiver/src/main.rs:395-457 | listing a record's fields and assembling them gives the record back |
| PacketDecoder.SerializeOfDecode | UDPreceiver/src/main.rs:250-461 | re-serializing a decoded datagram reproduces its first 226 bytes exactly when bytes 24 and 201 are 0 or 1 |
| PacketDecoder.FlagsOfRewrite | UDPreceiver/src/main.rs:285-381 | a datagram its decoded fields write back to has flag bytes 0 or 1 |
| PacketDecoder.RewriteOfFlags | UDPreceiver/src/main.rs:275-393 | a datagram with flag bytes 0 or 1 is what its decoded fields write back |
| PacketDecoder.RewriteOfFlagsAt | UDPreceiver/src/main.rs:275-393 | with flag bytes 0 or 1, each field's written-back bytes sit at that field's offset |
| PacketDecoder.RewrittenSlot | UDPreceiver/src/main.rs:268 | writing back a decoded field reproduces its bytes exactly when it is not a flag or its byte is 0 or 1 |
| PacketDecoder.ParsePacketAsWritten | UDPreceiver/src/main.rs:271-393 | as written: below 4 bytes `BufferTooSmall`; from 4 to 225 bytes a panic at the first field whose slice runs past the end, never field 0; from 226 bytes the decoded record |
| PacketDecoder.SlicesFrom | UDPreceiver/src/main.rs:275-393 | from field i on, a slice panics exactly when the buffer is shorter than 226 bytes, at the field whose slice crosses the end |
| PacketDecoder.TenByteDatagramPanics | UDPreceiver/src/main.rs:271-277 | a 10-byte datagram passes the length check and panics on the `packet_uid` slice, where the corrected parser reports `BufferTooSmall` |
| HidReport.Report | UDPreceiver/src/main.rs:468-481 | a report starts with report id 0 and the packet id and is at most 64 bytes |
| HidReport.CreateHidPacket | UDPreceiver/src/main.rs:468-481 | pushing the report id, the packet id and, for packet 1, the gear index builds exactly `Report` |
| HidReport.ReportShape | UDPreceiver/src/main.rs:466-481 | the gear report is exactly `[0, 1, gear]` and any other report exactly `[0, id]`, all within 64 bytes |
| HidReport.GearOf | UDPreceiver/src/main.rs:475 | a report the device reads a gear from is three bytes ending in that gear |
| HidReport.GearOfReport | UDPreceiver/src/main.rs:468-481 | the device recovers the gear index from the gear report and no gear from a report with any other packet id |
| HidReport.GearReportOfDatagram | UDPreceiver/src/main.rs:468-481 | the gear report for a datagram of at least 226 bytes is `[0, 1, byte 25]` |
| HidReport.ReportOfZeroRecord | UDPreceiver/src/main.rs:153-224 | before any datagram, the bridge reports gear 0 |
| DeviceSelection.VidRank | UDPreceiver/src/main.rs:9 | each listed vendor id has one position in the priority order |
| DeviceSelection.SelectDevice | UDPreceiver/src/main.rs:121-147 | nothing is chosen without a HID API; a chosen device has a listed vendor id and usage 1 and opened, and it comes before every other such device in scan order; nothing is chosen only when no such device opens |
| DeviceSelection.EarliestIsUnique | UDPreceiver/src/main.rs:131-139 | at most one device is earliest in scan order among those that qualify, so at most one bridge is started |
| Relay.Received | UDPreceiver/src/main.rs:100-106 | the listener sees at most 1024 bytes, a prefix of the datagram, and the whole datagram when it fits |
| Relay.DecodeOfReceived | UDPreceiver/src/main.rs:100-106 | cutting a datagram to the receive buffer never changes what it decodes to |
| Relay.Bridge.Valid | UDPreceiver/src/main.rs:79 | the channel of capacity 10 is a FIFO: what was sent is what was taken followed by what is queued, so at most 10 records are in flight; the held record is the last taken or the all-zero record |
| Relay.Bridge.constructor | UDPreceiver/src/main.rs:153-214 | the channel starts empty and the bridge starts from the all-zero record |
| Relay.Bridge.OnDatagram | UDPreceiver/src/main.rs:103-112 | a datagram that does not decode leaves everything unchanged; a decoded record is appended to the channel when it has room, waits when it is full, and is dropped when the receiving end is gone; the FIFO invariant is kept |
| Relay.Bridge.ResumeSend | UDPreceiver/src/main.rs:108 | a waiting send appends its record once the channel has room |
| Relay.Bridge.BridgeStep | UDPreceiver/src/main.rs:216-224 | a non-empty channel gives up its oldest record, which becomes the held record; an empty one leaves the held record; the report is `Report(held, 1)` |
| Relay.HeldWasSent | UDPreceiver/src/main.rs:216-219 | the held record is the all-zero record until a record is taken, and then the last record taken, which the listener sent |

## Left out

- The tokio runtime, `task::spawn`, `tokio::join!` and async suspension. The listener and bridge iterations are separate methods, and interleavings are not modelled. `Relay.Bridge.OnDatagram` requires that the listener is not waiting on a send, because while it waits it receives nothing.
- Relay.Bridge: whether the receiving end is open is fixed when the bridge is created. The code drops the receiver when `HidApi::new` fails (the `!apiReady` case of `DeviceSelection.SelectDevice`) and when the device scan opens nothing. Records the listener sent before that moment are not modelled.
- Socket bind, the fixed address 127.0.0.1:20782, and receive errors. Receive errors are only logged. A received datagram is an input byte sequence.
- Relay.Received: cutting an oversized datagram to the 1024-byte buffer is what Linux, the BSDs and macOS do. On Windows such a receive is an error, and the loop only logs it.
- `HidApi::new` is the `apiReady` input. `device_list` and `open` are the list of `DeviceInfo` entries, each with the outcome of opening its vendor and product id.
- DeviceSelection.SelectDevice: hidapi opens the first device with a given vendor and product id, which may be another interface of the same device. The model takes the outcome as belonging to the listed entry.
- `device.write`, `device.read`, their errors, and the unvalidated 5-byte reply. These are foreign calls. `BridgeStep` returns the report the bridge would write.
- All logging, including the "Not considered yet" line for packet ids other than 1.
- Floating point. Every `f32` field is its bit pattern, and nothing computes with floats.
- The dead assignment before `create_hid_packet` and the commented-out sleep.
- The infinite loops themselves. Each method call is one iteration.
- The `Invalid u32`, `Invalid u64` and `Invalid f32` errors of the read closures. Every slice has exactly the width the closure needs, so those errors cannot occur.
- PacketDecoder.ParsePacket: the source reads the 60 fields in straight-line code. The model loops over the layout table, with the same reads in the same order.
- PacketDecoder.ParsePacketAsWritten: the reads before a panic are not modelled, only the panic.
- The model does not carry the panic's effect into `Relay`. When the listener task panics it ends, and the bridge goes on reporting its last held record. `Relay` uses the corrected parser.

## Findings

| source | as written | input that shows it | evidently intended | confidence | as-written member | corrected member |
|---|---|---|---|---|---|---|
| UDPreceiver/src/main.rs:271-277 | only buffers shorter than 4 bytes are rejected; each field is then sliced at its fixed offset | a 10-byte datagram: the slice 4..12 for `packet_uid` is out of range and panics, which ends the listener task | reject every buffer shorter than 226 bytes with the "Buffer too small" error | high, not executed | PacketDecoder.ParsePacketAsWritten, PacketDecoder.TenByteDatagramPanics | PacketDecoder.ParsePacket, PacketDecoder.DecodeFailsIffShort |
