/** The telemetry packet decoder (`parse_packet`): a cursor walks the fixed
    layout of `Telemetry` over an untrusted datagram and builds a record. */
module PacketDecoder {
  import opened Bytes
  import opened Telemetry
  import opened Chunks

  /** The decoder's error: the datagram cannot hold the record. */
  datatype DecodeError = BufferTooSmall

  datatype Result<T> = Success(value: T) | Failure(error: DecodeError)

  /** Field `i` of the datagram, read at its offset. */
  function FieldAt(buf: seq<u8>, i: nat): (v: FieldValue)
    requires i < FieldCount && PacketSize <= |buf|
    ensures Fits(KindAt(i), v)
  {
    ReadField(KindAt(i), buf[Offset(i)..Offset(i + 1)])
  }

  /** The first `n` fields of the datagram, in the order the cursor reads
      them. */
  function FieldsUpTo(buf: seq<u8>, n: nat): (vs: seq<FieldValue>)
    requires n <= FieldCount && PacketSize <= |buf|
    ensures |vs| == n
  {
    if n == 0 then [] else FieldsUpTo(buf, n - 1) + [FieldAt(buf, n - 1)]
  }

  /** Field `j` of the prefix is the field read at offset `Offset(j)`. */
  lemma {:induction false} FieldsUpToAt(buf: seq<u8>, n: nat, j: nat)
    requires j < n <= FieldCount && PacketSize <= |buf|
    ensures FieldsUpTo(buf, n)[j] == FieldAt(buf, j)
  {
    if j < n - 1 {
      FieldsUpToAt(buf, n - 1, j);
    }
  }

  /** Every field of the datagram, in wire order. */
  function FieldsOf(buf: seq<u8>): (vs: seq<FieldValue>)
    requires PacketSize <= |buf|
    ensures |vs| == FieldCount
  {
    FieldsUpTo(buf, FieldCount)
  }

  /** Each field read from the datagram fits its kind. */
  lemma FieldsOfWellTyped(buf: seq<u8>)
    requires PacketSize <= |buf|
    ensures WellTyped(FieldsOf(buf))
  {
    forall i | 0 <= i < FieldCount ensures Fits(KindAt(i), FieldsOf(buf)[i]) {
      FieldsUpToAt(buf, FieldCount, i);
    }
  }

  /** What decoding a datagram means: a datagram shorter than the layout is
      refused, any other decodes field by field; nothing else is checked (no
      tag or checksum validation). */
  function Decode(buf: seq<u8>): (r: Result<TelemetryData>)
    ensures r.Failure? <==> |buf| < PacketSize
  {
    if |buf| < PacketSize then Failure(BufferTooSmall)
    else
      FieldsOfWellTyped(buf);
      Success(FromFields(FieldsOf(buf)))
  }

  /** Where a cursor that starts at 0 and moves past each field in turn
      stands before field `i`. */
  function CursorBefore(i: nat): nat
    requires i <= FieldCount
  {
    if i == 0 then 0 else CursorBefore(i - 1) + Width(KindAt(i - 1))
  }

  /** The layout table is exactly where the cursor stands. */
  lemma {:induction false} OffsetIsCursor(i: nat)
    requires i <= FieldCount
    ensures Offset(i) == CursorBefore(i)
  {
    if i > 0 {
      OffsetIsCursor(i - 1);
      LayoutIsAdjacent(i - 1);
    }
  }

  /** The cursor only moves forward: every field is at least one byte. */
  lemma {:induction false} CursorAdvances(i: nat, j: nat)
    requires i < j <= FieldCount
    ensures CursorBefore(i) < CursorBefore(j)
    decreases j
  {
    if i < j - 1 {
      CursorAdvances(i, j - 1);
    }
  }

  /** The decoder: the cursor `offset` starts at 0 and moves past each field
      as it is read, in layout order; the fields are then assembled into the
      record. Every slice it takes is in bounds. */
  method ParsePacket(buffer: seq<u8>) returns (r: Result<TelemetryData>)
    ensures r == Decode(buffer)
  {
    if |buffer| < PacketSize {
      return Failure(BufferTooSmall);
    }
    var offset := 0;
    var fields: seq<FieldValue> := [];
    var i := 0;
    while i < FieldCount
      invariant i <= FieldCount && offset == Offset(i)
      invariant fields == FieldsUpTo(buffer, i)
    {
      var kind := KindAt(i);
      CursorStep(buffer, i);
      fields := fields + [ReadField(kind, buffer[offset..offset + Width(kind)])];
      offset := offset + Width(kind);
      i := i + 1;
    }
    FieldsOfWellTyped(buffer);
    return Success(FromFields(fields));
  }

  /** One step of the cursor: field `i` starts where the cursor stands,
      ends where it stands next, and lies inside a full-length datagram. */
  lemma CursorStep(buf: seq<u8>, i: nat)
    requires i < FieldCount && PacketSize <= |buf|
    ensures Offset(i + 1) == Offset(i) + Width(KindAt(i)) <= |buf|
    ensures FieldsUpTo(buf, i + 1) == FieldsUpTo(buf, i) + [ReadField(KindAt(i), buf[Offset(i)..Offset(i) + Width(KindAt(i))])]
  {
    LayoutIsAdjacent(i);
  }

  /** Decoding fails exactly on datagrams shorter than 226 bytes, and then
      yields the "buffer too small" error and no record. */
  lemma DecodeFailsIffShort(buf: seq<u8>)
    ensures Decode(buf).Failure? <==> |buf| < 226
    ensures Decode(buf).Failure? ==> Decode(buf).error == BufferTooSmall
  {
  }

  /** The fields of a decoded record are the fields read at the layout's
      offsets. */
  lemma {:induction false} DecodedFields(buf: seq<u8>)
    requires PacketSize <= |buf|
    ensures Decode(buf).Success?
    ensures ToFields(Decode(buf).value) == FieldsOf(buf)
  {
    FieldsOfWellTyped(buf);
    ToFieldsOfFromFields(FieldsOf(buf));
  }

  /** The packet tag is bytes 0..4 and the packet id bytes 4..12, both
      little-endian. */
  lemma DecodedHeader(buf: seq<u8>)
    requires PacketSize <= |buf|
    ensures Decode(buf).Success?
    ensures Decode(buf).value.packet4cc == LittleEndian(buf[0..4])
    ensures Decode(buf).value.packetUid == LittleEndian(buf[4..12])
  {
    FieldsUpToAt(buf, FieldCount, 0);
    FieldsUpToAt(buf, FieldCount, 1);
  }

  /** The gear index is byte 25, unchanged. */
  lemma DecodedGearIndex(buf: seq<u8>)
    requires PacketSize <= |buf|
    ensures Decode(buf).Success?
    ensures Decode(buf).value.vehicleGearIndex == buf[25]
  {
    FieldsUpToAt(buf, FieldCount, 6);
  }

  /** The two flags, the shift-light RPM-valid flag at byte 24 and the
      handbrake at byte 201, are true exactly when their byte is nonzero. */
  lemma DecodedFlags(buf: seq<u8>)
    requires PacketSize <= |buf|
    ensures Decode(buf).Success?
    ensures Decode(buf).value.shiftlightsRpmValid <==> buf[24] != 0
    ensures Decode(buf).value.vehicleHandbrake <==> buf[201] != 0
  {
    FlagAt(buf, 5);
    FlagAt(buf, 53);
  }

  /** The flag field `i` is true exactly when its byte is nonzero. */
  lemma FlagAt(buf: seq<u8>, i: nat)
    requires PacketSize <= |buf| && i < FieldCount && KindAt(i) == Flag
    ensures Offset(i) < |buf|
    ensures FieldsOf(buf)[i] == Bit(buf[Offset(i)] != 0)
  {
    FieldsUpToAt(buf, FieldCount, i);
    LayoutIsAdjacent(i);
    assert buf[Offset(i)..Offset(i + 1)] == [buf[Offset(i)]];
  }

  /** The frame counter is bytes 210..214, little-endian, and the last field
      (the stage length) is bytes 222..226. */
  lemma DecodedTiming(buf: seq<u8>)
    requires PacketSize <= |buf|
    ensures Decode(buf).Success?
    ensures Decode(buf).value.gameFrameCount == LittleEndian(buf[210..214])
    ensures Decode(buf).value.stageLength == LittleEndian(buf[222..226])
  {
    FieldsUpToAt(buf, FieldCount, 56);
    FieldsUpToAt(buf, FieldCount, 59);
  }

  /** Bytes past the layout never matter: a datagram decodes as its first
      226 bytes (so the 1024-byte receive buffer makes no difference). */
  lemma DecodeIgnoresTrailingBytes(buf: seq<u8>)
    requires PacketSize <= |buf|
    ensures Decode(buf) == Decode(buf[..PacketSize])
  {
    FieldsUpToOfPrefix(buf, FieldCount);
  }

  /** The first `n` fields depend only on the first 226 bytes. */
  lemma {:induction false} FieldsUpToOfPrefix(buf: seq<u8>, n: nat)
    requires n <= FieldCount && PacketSize <= |buf|
    ensures FieldsUpTo(buf, n) == FieldsUpTo(buf[..PacketSize], n)
  {
    if n > 0 {
      var head, i := buf[..PacketSize], n - 1;
      FieldsUpToOfPrefix(buf, i);
      FieldAtOfPrefix(buf, i);
      assert FieldsUpTo(buf, n) == FieldsUpTo(buf, i) + [FieldAt(buf, i)];
      assert FieldsUpTo(head, n) == FieldsUpTo(head, i) + [FieldAt(head, i)];
    }
  }

  lemma FieldAtOfPrefix(buf: seq<u8>, i: nat)
    requires i < FieldCount && PacketSize <= |buf|
    ensures FieldAt(buf, i) == FieldAt(buf[..PacketSize], i)
  {
    LayoutIsAdjacent(i);
    SliceOfPrefix(buf, PacketSize, Offset(i), Offset(i + 1));
  }

  /** The bytes a sender puts on the wire for each field, in layout order. */
  function FieldChunks(vs: seq<FieldValue>): (cs: seq<seq<u8>>)
    requires WellTyped(vs)
    ensures |cs| == FieldCount
  {
    seq(FieldCount, i requires 0 <= i < FieldCount => WriteField(KindAt(i), vs[i]))
  }

  /** Field `j`'s chunk starts at the layout's offset for field `j`. */
  lemma {:induction false} ChunksStartAtOffsets(vs: seq<FieldValue>, j: nat)
    requires WellTyped(vs) && j <= FieldCount
    ensures Start(FieldChunks(vs), j) == Offset(j)
  {
    if j == 0 {
      assert FieldChunks(vs)[..0] == [];
    } else {
      ChunksStartAtOffsets(vs, j - 1);
      FlattenSlot(FieldChunks(vs), j - 1);
      LayoutIsAdjacent(j - 1);
    }
  }

  /** A record laid out on the wire, as the racing simulation sends it:
      every field's bytes at its offset, 226 bytes in all. */
  function Serialize(r: TelemetryData): (bytes: seq<u8>)
    ensures |bytes| == PacketSize
  {
    var cs := FieldChunks(ToFields(r));
    ChunksStartAtOffsets(ToFields(r), FieldCount);
    FlattenPrefix(cs, FieldCount);
    Flatten(cs)
  }

  /** In the wire image of `vs`, field `j` occupies bytes
      `Offset(j)..Offset(j + 1)`. */
  lemma SerializedSlot(vs: seq<FieldValue>, j: nat)
    requires WellTyped(vs) && j < FieldCount
    ensures Offset(j + 1) <= PacketSize <= |Flatten(FieldChunks(vs))|
    ensures Flatten(FieldChunks(vs))[Offset(j)..Offset(j + 1)] == WriteField(KindAt(j), vs[j])
  {
    ChunksStartAtOffsets(vs, j);
    ChunksStartAtOffsets(vs, j + 1);
    ChunksStartAtOffsets(vs, FieldCount);
    FlattenSlot(FieldChunks(vs), j);
    FlattenPrefix(FieldChunks(vs), FieldCount);
    LayoutIsAdjacent(j);
  }

  /** Decoding a serialized record gives the record back. */
  lemma DecodeOfSerialize(r: TelemetryData)
    ensures Decode(Serialize(r)) == Success(r)
  {
    var buf, vs := Serialize(r), ToFields(r);
    forall j | 0 <= j < FieldCount ensures FieldsOf(buf)[j] == vs[j] {
      FieldsUpToAt(buf, FieldCount, j);
      SerializedSlot(vs, j);
      ReadFieldOfWriteField(KindAt(j), vs[j]);
    }
    assert FieldsOf(buf) == vs;
    FromFieldsOfToFields(r);
  }

  /** Listing a record's fields and building a record from them gives the
      record back. */
  lemma FromFieldsOfToFields(r: TelemetryData)
    ensures FromFields(ToFields(r)) == r
  {
  }

  /** The flag bytes at 24 and 201 hold 0 or 1. */
  predicate CanonicalFlags(buf: seq<u8>)
    requires PacketSize <= |buf|
  {
    buf[24] <= 1 && buf[201] <= 1
  }

  /** Re-serializing a decoded datagram reproduces its first 226 bytes
      exactly when both flag bytes are 0 or 1: the decoder maps every
      nonzero flag byte to `true`, so it loses the difference between them,
      and nothing else. */
  lemma SerializeOfDecode(buf: seq<u8>)
    requires PacketSize <= |buf|
    ensures Decode(buf).Success?
    ensures Serialize(Decode(buf).value) == buf[..PacketSize] <==> CanonicalFlags(buf)
  {
    DecodedFields(buf);
    FieldsOfWellTyped(buf);
    var vs := FieldsOf(buf);
    assert Serialize(Decode(buf).value) == Flatten(FieldChunks(vs));
    if Flatten(FieldChunks(vs)) == buf[..PacketSize] {
      FlagsOfRewrite(buf);
    }
    if CanonicalFlags(buf) {
      RewriteOfFlags(buf);
    }
  }

  /** A datagram whose fields write back to its own bytes has flag bytes
      0 or 1. */
  lemma FlagsOfRewrite(buf: seq<u8>)
    requires PacketSize <= |buf| && WellTyped(FieldsOf(buf))
    requires Flatten(FieldChunks(FieldsOf(buf))) == buf[..PacketSize]
    ensures CanonicalFlags(buf)
  {
    var vs := FieldsOf(buf);
    RewrittenSlot(buf, 5);
    RewrittenSlot(buf, 53);
    SerializedSlot(vs, 5);
    SerializedSlot(vs, 53);
    assert buf[..PacketSize][24..25] == buf[24..25];
    assert buf[..PacketSize][201..202] == buf[201..202];
  }

  /** A datagram whose flag bytes are 0 or 1 is exactly what its fields
      write back. */
  lemma RewriteOfFlags(buf: seq<u8>)
    requires PacketSize <= |buf| && CanonicalFlags(buf)
    ensures WellTyped(FieldsOf(buf))
    ensures Flatten(FieldChunks(FieldsOf(buf))) == buf[..PacketSize]
  {
    FieldsOfWellTyped(buf);
    var vs := FieldsOf(buf);
    var cs := FieldChunks(vs);
    var s := buf[..PacketSize];
    forall j | 0 <= j < |cs|
      ensures Start(cs, j) + |cs[j]| <= |s| && s[Start(cs, j)..Start(cs, j) + |cs[j]|] == cs[j]
    {
      RewriteOfFlagsAt(buf, j);
    }
    SerializedSlot(vs, 0);
    FlattenOfSlots(cs, s);
  }

  lemma RewriteOfFlagsAt(buf: seq<u8>, j: nat)
    requires PacketSize <= |buf| && CanonicalFlags(buf) && j < FieldCount
    ensures WellTyped(FieldsOf(buf))
    ensures var cs, s := FieldChunks(FieldsOf(buf)), buf[..PacketSize];
      Start(cs, j) + |cs[j]| <= |s| && s[Start(cs, j)..Start(cs, j) + |cs[j]|] == cs[j]
  {
    var vs := FieldsOf(buf);
    RewrittenSlot(buf, j);
    SerializedSlot(vs, j);
    ChunksStartAtOffsets(vs, j);
    SliceOfPrefix(buf, PacketSize, Offset(j), Offset(j + 1));
    assert KindAt(j) == Flag ==> j == 5 || j == 53;
  }

  /** Writing back field `j` as decoded reproduces its bytes exactly when
      it is not a flag or its byte is 0 or 1. */
  lemma RewrittenSlot(buf: seq<u8>, j: nat)
    requires PacketSize <= |buf| && j < FieldCount
    ensures WellTyped(FieldsOf(buf))
    ensures Offset(j) < Offset(j + 1) <= PacketSize
    ensures WriteField(KindAt(j), FieldsOf(buf)[j]) == buf[Offset(j)..Offset(j + 1)]
        <==> (KindAt(j) == Flag ==> buf[Offset(j)] <= 1)
  {
    FieldsOfWellTyped(buf);
    FieldsUpToAt(buf, FieldCount, j);
    LayoutIsAdjacent(j);
    WriteFieldOfReadField(KindAt(j), buf[Offset(j)..Offset(j + 1)]);
  }

  /** How a call of the parser ends as written: with a value, or with a
      panic on the out-of-range slice for field `field`. */
  datatype Outcome = Returned(result: Result<TelemetryData>) | Panicked(field: nat)

  /** The parser as written: it rejects only buffers shorter than 4 bytes,
      then slices every field at the cursor; a slice that runs past the end
      of the buffer panics. */
  function ParsePacketAsWritten(buf: seq<u8>): (o: Outcome)
    ensures |buf| < 4 ==> o == Returned(Failure(BufferTooSmall))
    ensures o.Panicked? <==> 4 <= |buf| < PacketSize
    ensures o.Panicked? ==> 0 < o.field < FieldCount && Offset(o.field) <= |buf| < Offset(o.field + 1)
    ensures PacketSize <= |buf| ==> o == Returned(Decode(buf))
  {
    if |buf| < 4 then Returned(Failure(BufferTooSmall)) else SlicesFrom(buf, 0)
  }

  /** The slices from field `i` on, the cursor standing in range at
      `Offset(i)`: the first one past the end panics; if none is, the reads
      are exactly those of `Decode`. */
  function SlicesFrom(buf: seq<u8>, i: nat): (o: Outcome)
    requires i <= FieldCount && Offset(i) <= |buf|
    ensures o.Panicked? <==> |buf| < PacketSize
    ensures o.Panicked? ==> i <= o.field < FieldCount && Offset(o.field) <= |buf| < Offset(o.field + 1)
    ensures o.Returned? ==> PacketSize <= |buf| && o == Returned(Decode(buf))
    decreases FieldCount - i
  {
    if i == FieldCount then
      LayoutIsAdjacent(0);
      Returned(Decode(buf))
    else
      LayoutIsAdjacent(i);
      if |buf| < Offset(i + 1) then Panicked(i) else SlicesFrom(buf, i + 1)
  }

  /** A 10-byte datagram: the check for fewer than 4 bytes lets it through,
      and the 8-byte slice for `packet_uid` at bytes 4..12 runs past its
      end, where the corrected parser reports `BufferTooSmall`. */
  lemma TenByteDatagramPanics()
    ensures ParsePacketAsWritten(seq(10, _ => 0)) == Panicked(1)
    ensures Decode(seq(10, _ => 0)) == Failure(BufferTooSmall)
  {
    var buf: seq<u8> := seq(10, _ => 0);
    assert Offset(1) == 4 && Offset(2) == 12;
    assert SlicesFrom(buf, 0) == SlicesFrom(buf, 1);
  }
}
