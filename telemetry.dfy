/** The telemetry record that the receiver decodes from each UDP datagram
    (`TelemetryData`), and its wire layout: 60 adjacent little-endian fields,
    226 bytes in all, without padding. */
module Telemetry {
  import opened Bytes

  /** One decoded datagram. Every `F32Bits` field holds the raw bit pattern
      of an `f32`; `packet4cc` is the four-character packet tag. */
  datatype TelemetryData = TelemetryData(
    packet4cc: u32,
    packetUid: u64,
    shiftlightsFraction: F32Bits,
    shiftlightsRpmStart: F32Bits,
    shiftlightsRpmEnd: F32Bits,
    shiftlightsRpmValid: bool,
    vehicleGearIndex: u8,
    vehicleGearIndexNeutral: u8,
    vehicleGearIndexReverse: u8,
    vehicleGearMaximum: u8,
    vehicleSpeed: F32Bits,
    vehicleTransmissionSpeed: F32Bits,
    vehiclePositionX: F32Bits,
    vehiclePositionY: F32Bits,
    vehiclePositionZ: F32Bits,
    vehicleVelocityX: F32Bits,
    vehicleVelocityY: F32Bits,
    vehicleVelocityZ: F32Bits,
    vehicleAccelerationX: F32Bits,
    vehicleAccelerationY: F32Bits,
    vehicleAccelerationZ: F32Bits,
    vehicleLeftDirectionX: F32Bits,
    vehicleLeftDirectionY: F32Bits,
    vehicleLeftDirectionZ: F32Bits,
    vehicleForwardDirectionX: F32Bits,
    vehicleForwardDirectionY: F32Bits,
    vehicleForwardDirectionZ: F32Bits,
    vehicleUpDirectionX: F32Bits,
    vehicleUpDirectionY: F32Bits,
    vehicleUpDirectionZ: F32Bits,
    vehicleHubPositionBl: F32Bits,
    vehicleHubPositionBr: F32Bits,
    vehicleHubPositionFl: F32Bits,
    vehicleHubPositionFr: F32Bits,
    vehicleHubVelocityBl: F32Bits,
    vehicleHubVelocityBr: F32Bits,
    vehicleHubVelocityFl: F32Bits,
    vehicleHubVelocityFr: F32Bits,
    vehicleCpForwardSpeedBl: F32Bits,
    vehicleCpForwardSpeedBr: F32Bits,
    vehicleCpForwardSpeedFl: F32Bits,
    vehicleCpForwardSpeedFr: F32Bits,
    vehicleBrakeTemperatureBl: F32Bits,
    vehicleBrakeTemperatureBr: F32Bits,
    vehicleBrakeTemperatureFl: F32Bits,
    vehicleBrakeTemperatureFr: F32Bits,
    vehicleEngineRpmMax: F32Bits,
    vehicleEngineRpmIdle: F32Bits,
    vehicleEngineRpmCurrent: F32Bits,
    vehicleThrottle: F32Bits,
    vehicleBrake: F32Bits,
    vehicleClutch: F32Bits,
    vehicleSteering: F32Bits,
    vehicleHandbrake: bool,
    gameTotalTime: F32Bits,
    gameDeltaTime: F32Bits,
    gameFrameCount: u32,
    stageCurrentTime: F32Bits,
    stageCurrentDistance: F32Bits,
    stageLength: F32Bits
  )

  /** The record the device bridge holds before any datagram has been
      decoded: every number zero (the bit pattern of `0.0` is zero too) and
      both flags false. */
  function ZeroRecord(): (r: TelemetryData)
    ensures ToFields(r) == ZeroFields()
  {
    TelemetryData(
      0,
      0,
      0,
      0,
      0,
      false,
      0,
      0,
      0,
      0,
      0,
      0,
      0,
      0,
      0,
      0,
      0,
      0,
      0,
      0,
      0,
      0,
      0,
      0,
      0,
      0,
      0,
      0,
      0,
      0,
      0,
      0,
      0,
      0,
      0,
      0,
      0,
      0,
      0,
      0,
      0,
      0,
      0,
      0,
      0,
      0,
      0,
      0,
      0,
      0,
      0,
      0,
      0,
      false,
      0,
      0,
      0,
      0,
      0,
      0
    )
  }

  /** The five kinds of field the decoder reads, one per `read_*` closure. */
  datatype FieldKind = U8 | Flag | U32 | U64 | F32

  function Width(k: FieldKind): (n: nat)
    ensures 1 <= n <= 8
  {
    match k
    case U8 => 1
    case Flag => 1
    case U32 => 4
    case U64 => 8
    case F32 => 4
  }

  const FieldCount: nat := 60

  /** Length of a datagram that holds every field. */
  const PacketSize: nat := 226

  /** The kind of the `i`-th field, in the order the decoder reads them.
      Field, byte range, kind and name:
        0    0..  4  U32   packet4cc
        1    4.. 12  U64   packetUid
        2   12.. 16  F32   shiftlightsFraction
        3   16.. 20  F32   shiftlightsRpmStart
        4   20.. 24  F32   shiftlightsRpmEnd
        5   24.. 25  Flag  shiftlightsRpmValid
        6   25.. 26  U8    vehicleGearIndex
        7   26.. 27  U8    vehicleGearIndexNeutral
        8   27.. 28  U8    vehicleGearIndexReverse
        9   28.. 29  U8    vehicleGearMaximum
       10   29.. 33  F32   vehicleSpeed
       11   33.. 37  F32   vehicleTransmissionSpeed
       12   37.. 41  F32   vehiclePositionX
       13   41.. 45  F32   vehiclePositionY
       14   45.. 49  F32   vehiclePositionZ
       15   49.. 53  F32   vehicleVelocityX
       16   53.. 57  F32   vehicleVelocityY
       17   57.. 61  F32   vehicleVelocityZ
       18   61.. 65  F32   vehicleAccelerationX
       19   65.. 69  F32   vehicleAccelerationY
       20   69.. 73  F32   vehicleAccelerationZ
       21   73.. 77  F32   vehicleLeftDirectionX
       22   77.. 81  F32   vehicleLeftDirectionY
       23   81.. 85  F32   vehicleLeftDirectionZ
       24   85.. 89  F32   vehicleForwardDirectionX
       25   89.. 93  F32   vehicleForwardDirectionY
       26   93.. 97  F32   vehicleForwardDirectionZ
       27   97..101  F32   vehicleUpDirectionX
       28  101..105  F32   vehicleUpDirectionY
       29  105..109  F32   vehicleUpDirectionZ
       30  109..113  F32   vehicleHubPositionBl
       31  113..117  F32   vehicleHubPositionBr
       32  117..121  F32   vehicleHubPositionFl
       33  121..125  F32   vehicleHubPositionFr
       34  125..129  F32   vehicleHubVelocityBl
       35  129..133  F32   vehicleHubVelocityBr
       36  133..137  F32   vehicleHubVelocityFl
       37  137..141  F32   vehicleHubVelocityFr
       38  141..145  F32   vehicleCpForwardSpeedBl
       39  145..149  F32   vehicleCpForwardSpeedBr
       40  149..153  F32   vehicleCpForwardSpeedFl
       41  153..157  F32   vehicleCpForwardSpeedFr
       42  157..161  F32   vehicleBrakeTemperatureBl
       43  161..165  F32   vehicleBrakeTemperatureBr
       44  165..169  F32   vehicleBrakeTemperatureFl
       45  169..173  F32   vehicleBrakeTemperatureFr
       46  173..177  F32   vehicleEngineRpmMax
       47  177..181  F32   vehicleEngineRpmIdle
       48  181..185  F32   vehicleEngineRpmCurrent
       49  185..189  F32   vehicleThrottle
       50  189..193  F32   vehicleBrake
       51  193..197  F32   vehicleClutch
       52  197..201  F32   vehicleSteering
       53  201..202  Flag  vehicleHandbrake
       54  202..206  F32   gameTotalTime
       55  206..210  F32   gameDeltaTime
       56  210..214  U32   gameFrameCount
       57  214..218  F32   stageCurrentTime
       58  218..222  F32   stageCurrentDistance
       59  222..226  F32   stageLength
  */
  function KindAt(i: nat): (k: FieldKind)
    requires i < FieldCount
    ensures k == Flag <==> i == 5 || i == 53
  {
    if i == 0 then U32           // packet_4cc
    else if i == 1 then U64      // packet_uid
    else if i < 5 then F32       // shift-light fraction, RPM start, RPM end
    else if i == 5 then Flag     // shift-light RPM valid
    else if i < 10 then U8       // gear index, neutral index, reverse index, maximum
    else if i < 53 then F32      // speeds, kinematics, orientation, wheels, engine, driver inputs
    else if i == 53 then Flag    // handbrake
    else if i == 56 then U32     // game frame count
    else F32                     // game total/delta time, stage time/distance/length
  }

  /** The byte offset of field `i` (and, for `i == FieldCount`, the end of
      the record): the layout table above, five runs of equally wide
      fields. */
  function Offset(i: nat): (o: nat)
    requires i <= FieldCount
    ensures i == FieldCount ==> o == PacketSize
    ensures i < FieldCount ==> o + Width(KindAt(i)) <= PacketSize
  {
    if i <= 1 then 4 * i
    else if i <= 5 then 12 + 4 * (i - 2)
    else if i <= 10 then 25 + (i - 6)
    else if i <= 53 then 29 + 4 * (i - 10)
    else 202 + 4 * (i - 54)
  }

  /** The fields are adjacent, without padding: the first starts at byte 0,
      each starts where the one before it ends, and the last ends at byte
      226. So a cursor that starts at 0 and advances by each field's width
      stands at `Offset(i)` before field `i`. */
  lemma LayoutIsAdjacent(i: nat)
    requires i < FieldCount
    ensures Offset(0) == 0 && Offset(FieldCount) == PacketSize
    ensures Offset(i + 1) == Offset(i) + Width(KindAt(i))
  {
  }

  /** One field as read from the wire: a number or a flag. */
  datatype FieldValue = Word(w: nat) | Bit(b: bool)

  /** `v` is a value a field of kind `k` can hold. */
  predicate Fits(k: FieldKind, v: FieldValue) {
    match k
    case Flag => v.Bit?
    case _ => v.Word? && v.w < Pow256(Width(k))
  }

  /** A sequence of one value per field, each of its field's kind. */
  predicate WellTyped(vs: seq<FieldValue>) {
    |vs| == FieldCount && forall i :: 0 <= i < FieldCount ==> Fits(KindAt(i), vs[i])
  }

  /** Field `i` of the record, in wire order. */
  function Field(r: TelemetryData, i: nat): (v: FieldValue)
    requires i < FieldCount
    ensures Fits(KindAt(i), v)
  {
    Expand4Bound();
    match i
    case 0 => Word(r.packet4cc)
    case 1 => Word(r.packetUid)
    case 2 => Word(r.shiftlightsFraction)
    case 3 => Word(r.shiftlightsRpmStart)
    case 4 => Word(r.shiftlightsRpmEnd)
    case 5 => Bit(r.shiftlightsRpmValid)
    case 6 => Word(r.vehicleGearIndex)
    case 7 => Word(r.vehicleGearIndexNeutral)
    case 8 => Word(r.vehicleGearIndexReverse)
    case 9 => Word(r.vehicleGearMaximum)
    case 10 => Word(r.vehicleSpeed)
    case 11 => Word(r.vehicleTransmissionSpeed)
    case 12 => Word(r.vehiclePositionX)
    case 13 => Word(r.vehiclePositionY)
    case 14 => Word(r.vehiclePositionZ)
    case 15 => Word(r.vehicleVelocityX)
    case 16 => Word(r.vehicleVelocityY)
    case 17 => Word(r.vehicleVelocityZ)
    case 18 => Word(r.vehicleAccelerationX)
    case 19 => Word(r.vehicleAccelerationY)
    case 20 => Word(r.vehicleAccelerationZ)
    case 21 => Word(r.vehicleLeftDirectionX)
    case 22 => Word(r.vehicleLeftDirectionY)
    case 23 => Word(r.vehicleLeftDirectionZ)
    case 24 => Word(r.vehicleForwardDirectionX)
    case 25 => Word(r.vehicleForwardDirectionY)
    case 26 => Word(r.vehicleForwardDirectionZ)
    case 27 => Word(r.vehicleUpDirectionX)
    case 28 => Word(r.vehicleUpDirectionY)
    case 29 => Word(r.vehicleUpDirectionZ)
    case 30 => Word(r.vehicleHubPositionBl)
    case 31 => Word(r.vehicleHubPositionBr)
    case 32 => Word(r.vehicleHubPositionFl)
    case 33 => Word(r.vehicleHubPositionFr)
    case 34 => Word(r.vehicleHubVelocityBl)
    case 35 => Word(r.vehicleHubVelocityBr)
    case 36 => Word(r.vehicleHubVelocityFl)
    case 37 => Word(r.vehicleHubVelocityFr)
    case 38 => Word(r.vehicleCpForwardSpeedBl)
    case 39 => Word(r.vehicleCpForwardSpeedBr)
    case 40 => Word(r.vehicleCpForwardSpeedFl)
    case 41 => Word(r.vehicleCpForwardSpeedFr)
    case 42 => Word(r.vehicleBrakeTemperatureBl)
    case 43 => Word(r.vehicleBrakeTemperatureBr)
    case 44 => Word(r.vehicleBrakeTemperatureFl)
    case 45 => Word(r.vehicleBrakeTemperatureFr)
    case 46 => Word(r.vehicleEngineRpmMax)
    case 47 => Word(r.vehicleEngineRpmIdle)
    case 48 => Word(r.vehicleEngineRpmCurrent)
    case 49 => Word(r.vehicleThrottle)
    case 50 => Word(r.vehicleBrake)
    case 51 => Word(r.vehicleClutch)
    case 52 => Word(r.vehicleSteering)
    case 53 => Bit(r.vehicleHandbrake)
    case 54 => Word(r.gameTotalTime)
    case 55 => Word(r.gameDeltaTime)
    case 56 => Word(r.gameFrameCount)
    case 57 => Word(r.stageCurrentTime)
    case 58 => Word(r.stageCurrentDistance)
    case _ => Word(r.stageLength)
  }

  /** The record's fields in wire order. */
  function ToFields(r: TelemetryData): (vs: seq<FieldValue>)
    ensures WellTyped(vs)
  {
    seq(FieldCount, i requires 0 <= i < FieldCount => Field(r, i))
  }

  /** The record built from its fields in wire order (the struct literal that
      ends the decoder). */
  function FromFields(vs: seq<FieldValue>): (r: TelemetryData)
    requires WellTyped(vs)
    ensures r.vehicleGearIndex as int == vs[6].w
  {
    Expand4Bound();
    TelemetryData(
      vs[0].w as u32,
      vs[1].w as u64,
      vs[2].w as F32Bits,
      vs[3].w as F32Bits,
      vs[4].w as F32Bits,
      vs[5].b,
      vs[6].w as u8,
      vs[7].w as u8,
      vs[8].w as u8,
      vs[9].w as u8,
      vs[10].w as F32Bits,
      vs[11].w as F32Bits,
      vs[12].w as F32Bits,
      vs[13].w as F32Bits,
      vs[14].w as F32Bits,
      vs[15].w as F32Bits,
      vs[16].w as F32Bits,
      vs[17].w as F32Bits,
      vs[18].w as F32Bits,
      vs[19].w as F32Bits,
      vs[20].w as F32Bits,
      vs[21].w as F32Bits,
      vs[22].w as F32Bits,
      vs[23].w as F32Bits,
      vs[24].w as F32Bits,
      vs[25].w as F32Bits,
      vs[26].w as F32Bits,
      vs[27].w as F32Bits,
      vs[28].w as F32Bits,
      vs[29].w as F32Bits,
      vs[30].w as F32Bits,
      vs[31].w as F32Bits,
      vs[32].w as F32Bits,
      vs[33].w as F32Bits,
      vs[34].w as F32Bits,
      vs[35].w as F32Bits,
      vs[36].w as F32Bits,
      vs[37].w as F32Bits,
      vs[38].w as F32Bits,
      vs[39].w as F32Bits,
      vs[40].w as F32Bits,
      vs[41].w as F32Bits,
      vs[42].w as F32Bits,
      vs[43].w as F32Bits,
      vs[44].w as F32Bits,
      vs[45].w as F32Bits,
      vs[46].w as F32Bits,
      vs[47].w as F32Bits,
      vs[48].w as F32Bits,
      vs[49].w as F32Bits,
      vs[50].w as F32Bits,
      vs[51].w as F32Bits,
      vs[52].w as F32Bits,
      vs[53].b,
      vs[54].w as F32Bits,
      vs[55].w as F32Bits,
      vs[56].w as u32,
      vs[57].w as F32Bits,
      vs[58].w as F32Bits,
      vs[59].w as F32Bits
    )
  }

  /** Zero for every number field and false for every flag. */
  function ZeroFields(): (vs: seq<FieldValue>)
    ensures WellTyped(vs)
  {
    seq(FieldCount, i requires 0 <= i < FieldCount => if KindAt(i) == Flag then Bit(false) else Word(0))
  }

  /** Building a record from well-typed fields and listing its fields gives
      the same fields back. */
  lemma ToFieldsOfFromFields(vs: seq<FieldValue>)
    requires WellTyped(vs)
    ensures ToFields(FromFields(vs)) == vs
  {
    var r := FromFields(vs);
    forall i | 0 <= i < FieldCount ensures Field(r, i) == vs[i] {
      FieldOfFromFields(vs, i);
    }
    ToFieldsOfFieldwise(r, vs);
  }

  /** A record whose every field is the corresponding value lists as those
      values. */
  lemma ToFieldsOfFieldwise(r: TelemetryData, vs: seq<FieldValue>)
    requires |vs| == FieldCount
    requires forall i :: 0 <= i < FieldCount ==> Field(r, i) == vs[i]
    ensures ToFields(r) == vs
  {
    assert forall i :: 0 <= i < FieldCount ==> ToFields(r)[i] == vs[i];
  }

  /** Field `i` of the record built from `vs` is `vs[i]`. */
  lemma FieldOfFromFields(vs: seq<FieldValue>, i: nat)
    requires WellTyped(vs) && i < FieldCount
    ensures Field(FromFields(vs), i) == vs[i]
  {
    if i < 10 {
      FieldOfFromFields0(vs, i);
    } else if i < 20 {
      FieldOfFromFields1(vs, i);
    } else if i < 30 {
      FieldOfFromFields2(vs, i);
    } else if i < 40 {
      FieldOfFromFields3(vs, i);
    } else if i < 50 {
      FieldOfFromFields4(vs, i);
    } else {
      FieldOfFromFields5(vs, i);
    }
  }

  lemma FieldOfFromFields0(vs: seq<FieldValue>, i: nat)
    requires WellTyped(vs) && 0 <= i < 10
    ensures Field(FromFields(vs), i) == vs[i]
  {
    assert Fits(KindAt(i), vs[i]);
  }

  lemma FieldOfFromFields1(vs: seq<FieldValue>, i: nat)
    requires WellTyped(vs) && 10 <= i < 20
    ensures Field(FromFields(vs), i) == vs[i]
  {
    assert Fits(KindAt(i), vs[i]);
  }

  lemma FieldOfFromFields2(vs: seq<FieldValue>, i: nat)
    requires WellTyped(vs) && 20 <= i < 30
    ensures Field(FromFields(vs), i) == vs[i]
  {
    assert Fits(KindAt(i), vs[i]);
  }

  lemma FieldOfFromFields3(vs: seq<FieldValue>, i: nat)
    requires WellTyped(vs) && 30 <= i < 40
    ensures Field(FromFields(vs), i) == vs[i]
  {
    assert Fits(KindAt(i), vs[i]);
  }

  lemma FieldOfFromFields4(vs: seq<FieldValue>, i: nat)
    requires WellTyped(vs) && 40 <= i < 50
    ensures Field(FromFields(vs), i) == vs[i]
  {
    assert Fits(KindAt(i), vs[i]);
  }

  lemma FieldOfFromFields5(vs: seq<FieldValue>, i: nat)
    requires WellTyped(vs) && 50 <= i < 60
    ensures Field(FromFields(vs), i) == vs[i]
  {
    assert Fits(KindAt(i), vs[i]);
  }

  lemma Expand4Bound()
    ensures Pow256(1) == 0x100 && Pow256(4) == 0x1_0000_0000 && Pow256(8) == 0x1_0000_0000_0000_0000
  {
  }

  /** A field as the decoder's `read_*` closures read it from exactly
      `Width(k)` bytes. */
  function ReadField(k: FieldKind, bytes: seq<u8>): (v: FieldValue)
    requires |bytes| == Width(k)
    ensures Fits(k, v)
  {
    Expand4Bound();
    match k
    case U8 => Word(ReadU8(bytes))
    case Flag => Bit(ReadBool(bytes))
    case U32 => Word(ReadU32(bytes))
    case U64 => Word(ReadU64(bytes))
    case F32 => Word(ReadF32(bytes))
  }

  /** The bytes a sender puts on the wire for a field: little-endian numbers,
      and 1 or 0 for a flag. */
  function WriteField(k: FieldKind, v: FieldValue): (bytes: seq<u8>)
    requires Fits(k, v)
    ensures |bytes| == Width(k)
  {
    Expand4Bound();
    match k
    case Flag => [if v.b then 1 else 0]
    case _ => ToLittleEndian(v.w, Width(k))
  }

  /** Reading back the bytes written for a field gives the field. */
  lemma ReadFieldOfWriteField(k: FieldKind, v: FieldValue)
    requires Fits(k, v)
    ensures ReadField(k, WriteField(k, v)) == v
  {
    Expand4Bound();
    if k != Flag {
      LittleEndianOfToLittleEndian(v.w, Width(k));
    }
  }

  /** Reading a field and writing it back reproduces its bytes exactly when
      the field is not a flag or its byte is 0 or 1: every other nonzero flag
      byte also reads as `true`. */
  lemma WriteFieldOfReadField(k: FieldKind, bytes: seq<u8>)
    requires |bytes| == Width(k)
    ensures WriteField(k, ReadField(k, bytes)) == bytes <==> (k == Flag ==> bytes[0] <= 1)
  {
    Expand4Bound();
    if k != Flag {
      ToLittleEndianOfLittleEndian(bytes);
      assert k == U8 ==> bytes == [bytes[0]];
    }
  }
}
