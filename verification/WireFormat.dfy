/** The wire formats field by field, at the offsets and with the constants that
    protocol/spec/wire-format.md lists, and the published examples of protocol/tests/test_wire.c. */
module WireFormat {
  import opened Bytes
  import Checksum
  import F = FrameCodec
  import R = RpcCodec
  import RawRecord
  import OtaStream

  // ---------------------------------------------------------------------------------------
  // Little-endian fields
  // ---------------------------------------------------------------------------------------

  lemma Small(v: uint16)
    ensures var s := PutU16(v); s[0] as int + 256 * s[1] as int == v
  {
  }

  lemma Large(v: uint32)
    ensures var s := PutU32(v);
            s[0] as int + 256 * s[1] as int + 65536 * s[2] as int + 16777216 * s[3] as int == v
  {
  }

  /** The number that two or four bytes stand for, lowest first. */
  function Two(s: seq<byte>, at: nat): nat
    requires at + 2 <= |s|
  {
    s[at] as int + 256 * s[at + 1] as int
  }

  function Four(s: seq<byte>, at: nat): nat
    requires at + 4 <= |s|
  {
    s[at] as int + 256 * s[at + 1] as int + 65536 * s[at + 2] as int + 16777216 * s[at + 3] as int
  }

  lemma Bytes16(s: seq<byte>, at: nat, a: byte, b: byte)
    requires at + 2 <= |s| && Two(s, at) == a as int + 256 * b as int
    ensures s[at] == a && s[at + 1] == b
  {
  }

  // ---------------------------------------------------------------------------------------
  // The frame
  // ---------------------------------------------------------------------------------------

  /** A header can be sent exactly with the magic 0x4c57, version 1, header size 24, no reserved flag
      and a payload of at most 65535 bytes. */
  lemma FrameSentExactly(h: F.FrameHeader, payload: seq<byte>)
    ensures F.Encode(h, payload).Ok? <==>
            h.magic == 0x4c57 && h.major == 1 && h.headerSize == 24 && h.flags < 4 && |payload| <= 65535
  {
    hide F.HeaderBytes, F.FrameChecksum;
  }

  lemma HeaderLayout(h: F.FrameHeader)
    ensures var s := F.HeaderBytes(h);
            && |s| == 24
            && Two(s, 0) == h.magic && s[2] == h.major && s[3] == h.headerSize && s[4] == h.channel && s[5] == h.flags
            && Two(s, 6) == h.payloadSize && Four(s, 8) == h.session && Four(s, 12) == h.sequence
            && Four(s, 16) == h.headerChecksum && Four(s, 20) == h.payloadChecksum
  {
    Small(h.magic);
    Small(h.payloadSize);
    Large(h.session);
    Large(h.sequence);
    Large(h.headerChecksum);
    Large(h.payloadChecksum);
    hide PutU16, PutU32;
  }

  /** The checksum a frame asks for: CRC-32C with flag bit 0, SUM32 without it. */
  function Check(flags: byte, s: seq<byte>): uint32 {
    if flags % 2 == 1 then Checksum.Crc32c(s) else Checksum.Sum32(s)
  }

  lemma FieldZeroed(h: F.FrameHeader)
    ensures var s, z := F.HeaderBytes(h), F.HeaderBytes(h.(headerChecksum := 0));
            z == s[..16] + [0, 0, 0, 0] + s[20..]
  {
    assert PutU32(0) == [0, 0, 0, 0];
    hide PutU16, PutU32;
    var s, z := F.HeaderBytes(h), F.HeaderBytes(h.(headerChecksum := 0));
    forall k | 0 <= k < 24
      ensures z[k] == (s[..16] + [0, 0, 0, 0] + s[20..])[k]
    {
    }
  }

  /** A sent frame byte for byte: the magic 57 4c first, the fields little-endian at their offsets, the
      payload after 24 bytes, the payload's checksum, and that of the header with its own field zero. */
  lemma FrameLayout(h: F.FrameHeader, payload: seq<byte>)
    requires F.Encode(h, payload).Ok?
    ensures var f := F.Encode(h, payload).value;
            && |f| == 24 + |payload| && f[24..] == payload
            && f[0] == 0x57 && f[1] == 0x4c && f[2] == 1 && f[3] == 24 && f[4] == h.channel && f[5] == h.flags
            && Two(f, 6) == |payload| && Four(f, 8) == h.session && Four(f, 12) == h.sequence
            && Four(f, 20) == Check(h.flags, payload)
            && Four(f, 16) == Check(h.flags, f[..16] + [0, 0, 0, 0] + f[20..24])
  {
    var sealed := F.Sealed(h, payload);
    var s := F.HeaderBytes(sealed);
    HeaderLayout(sealed);
    FieldZeroed(sealed);
    hide F.HeaderBytes, Checksum.Crc32c, Checksum.Sum32, Four, Two;
    var f := F.Encode(h, payload).value;
    assert f == s + payload;
    assert f[..16] == s[..16] && f[20..24] == s[20..];
    InFront(s, payload);
    Bytes16(f, 0, 0x57, 0x4c);
  }

  /** A field keeps its value when bytes follow. */
  lemma InFront(s: seq<byte>, t: seq<byte>)
    requires |s| == 24
    ensures forall at :: 0 <= at <= 20 ==> Four(s + t, at) == Four(s, at) && Two(s + t, at) == Two(s, at)
  {
  }

  // ---------------------------------------------------------------------------------------
  // The RPC envelope
  // ---------------------------------------------------------------------------------------

  /** An envelope can be sent exactly with a service and a method, a kind from 1 to 3, no reserved
      flag, a request id unless it is an event, no status on a request and otherwise a status domain
      exactly when the code is not zero. */
  lemma EnvelopeSentExactly(e: R.Envelope, payload: seq<byte>)
    ensures R.Encode(e, payload).Ok? <==>
            && e.service != 0 && e.operation != 0 && (e.kind == 1 || e.kind == 2 || e.kind == 3) && e.flags < 4
            && (e.kind == 3 || e.request != 0)
            && (if e.kind == 1 then e.statusDomain == 0 && e.statusCode == 0
                else e.statusDomain == 0 <==> e.statusCode == 0)
            && |payload| <= 65535
  {
    hide R.EnvelopeBytes;
  }

  /** A sent RPC message byte for byte; the status code in two's complement. */
  lemma EnvelopeLayout(e: R.Envelope, payload: seq<byte>)
    requires R.Encode(e, payload).Ok?
    ensures var f := R.Encode(e, payload).value;
            && |f| == 16 + |payload| && f[16..] == payload
            && Two(f, 0) == e.service && Two(f, 2) == e.operation && Four(f, 4) == e.request
            && f[8] == e.kind && f[9] == e.flags && Two(f, 10) == |payload|
            && Two(f, 12) == e.statusDomain
            && Two(f, 14) == (if e.statusCode < 0 then 65536 + e.statusCode else e.statusCode)
  {
    Small(e.service);
    Small(e.operation);
    Large(e.request);
    Small(|payload|);
    Small(e.statusDomain);
    Small(ToUnsigned(e.statusCode));
    hide PutU16, PutU32;
    var s := R.EnvelopeBytes(e.(payloadSize := |payload|));
    var f := R.Encode(e, payload).value;
    assert f == s + payload;
  }

  // ---------------------------------------------------------------------------------------
  // The raw record
  // ---------------------------------------------------------------------------------------

  /** Type, flags, header size 8 and payload size, then the payload. */
  lemma RecordLayout(r: RawRecord.Record)
    requires RawRecord.Encodable(r)
    ensures var s := RawRecord.Encode(r);
            && |s| == 8 + |r.payload| && s[8..] == r.payload
            && s[0] == r.kind && s[1] == r.flags && s[2] == 8 && s[3] == 0 && Four(s, 4) == |r.payload|
  {
    Large(|r.payload|);
    hide PutU32;
  }

  /** What a receiver finds at an offset: the end, or a record of type, flags, a header of at least 8
      bytes that may be longer, and a payload after that header; anything else is an error. */
  lemma RecordReadExactly(data: seq<byte>, at: nat)
    ensures var step, left := RawRecord.Next(data, at), |data| - at;
            && (step == RawRecord.End <==> left == 0)
            && (step == RawRecord.Bad(InvalidArgument) <==> left < 0)
            && (step == RawRecord.Bad(InvalidHeaderSize) <==> left >= 8 && Two(data, at + 2) < 8)
            && (step == RawRecord.Bad(Truncated) <==>
                0 < left < 8 || (left >= 8 && Two(data, at + 2) >= 8 && Two(data, at + 2) + Four(data, at + 4) > left))
            && (step.View? <==> left >= 8 && Two(data, at + 2) >= 8 && Two(data, at + 2) + Four(data, at + 4) <= left)
            && (step.View? ==> step.kind == data[at] && step.flags == data[at + 1] &&
                               step.at == at + Two(data, at + 2) && step.size == Four(data, at + 4))
  {
    hide Two, Four;
    if at + 8 <= |data| {
      ReadTwo(data, at + 2);
      ReadFour(data, at + 4);
    }
    hide GetU16, GetU32;
  }

  lemma ReadTwo(s: seq<byte>, at: nat)
    requires at + 2 <= |s|
    ensures GetU16(s, at) == Two(s, at)
  {
  }

  lemma ReadFour(s: seq<byte>, at: nat)
    requires at + 4 <= |s|
    ensures GetU32(s, at) == Four(s, at)
  {
  }

  /** An OTA stream record: type 1, then the transfer, the offset, the size of the data, zero flags, and
      the data. */
  lemma StreamLayout(c: OtaStream.Chunk)
    ensures var s := OtaStream.Written(c);
            && |s| == 24 + |c.data| && s[24..] == c.data
            && s[0] == 1 && s[1] == 0 && s[2] == 8 && s[3] == 0 && Four(s, 4) == 16 + |c.data|
            && Four(s, 8) == c.transfer && Four(s, 12) + 0x1_0000_0000 * Four(s, 16) == c.offset
            && Two(s, 20) == |c.data| && s[22] == 0 && s[23] == 0
  {
    Large(16 + |c.data|);
    Large(c.transfer);
    Large(c.offset % 0x1_0000_0000);
    Large(c.offset / 0x1_0000_0000);
    Small(|c.data|);
    assert PutU16(0) == [0, 0];
    hide PutU32, PutU16;
  }

  /** A stream payload is read exactly when it is one record of type 1 and nothing else, with room for the
      sub-header, whose data has the size it declares; the chunk is then its fields and its data. */
  lemma StreamReadExactly(s: seq<byte>)
    ensures var read := OtaStream.Read(s);
            var one := |s| >= 8 && s[0] == 1 && Two(s, 2) >= 8 && Four(s, 4) >= 16 && Two(s, 2) + Four(s, 4) == |s|;
            && (read.Some? <==> one && Two(s, Two(s, 2) + 12) == Four(s, 4) - 16)
            && (read.Some? ==>
                  var at := Two(s, 2);
                  && read.value.transfer == Four(s, at)
                  && read.value.offset == Four(s, at + 4) + 0x1_0000_0000 * Four(s, at + 8)
                  && read.value.data == s[at + 16..])
  {
    var step := RawRecord.Next(s, 0);
    RecordReadExactly(s, 0);
    if step.View? && step.size >= 16 {
      RecordReadExactly(s, step.at + step.size);
      var record := s[step.at..step.at + step.size];
      StreamFields(s, step.at, step.size, record);
      ReadTwo(record, 12);
      ReadFour(record, 0);
      ReadFour(record, 4);
      ReadFour(record, 8);
    }
    hide RawRecord.Next, Two, Four, GetU16, GetU32;
  }

  lemma StreamFields(s: seq<byte>, at: nat, size: nat, record: seq<byte>)
    requires at + size <= |s| && size >= 16 && record == s[at..at + size]
    ensures Two(record, 12) == Two(s, at + 12) && Four(record, 0) == Four(s, at)
    ensures Four(record, 4) == Four(s, at + 4) && Four(record, 8) == Four(s, at + 8)
    ensures record[16..] == s[at + 16..at + size]
  {
  }

  // ---------------------------------------------------------------------------------------
  // Refusals
  // ---------------------------------------------------------------------------------------

  /** The first thing wrong with a header. */
  function HeaderFault(magic: nat, major: byte, size: byte, flags: byte): Option<WireError> {
    if magic != 0x4c57 then Some(InvalidMagic)
    else if major != 1 then Some(UnsupportedVersion)
    else if size != 24 then Some(InvalidHeaderSize)
    else if flags >= 4 then Some(InvalidFlags)
    else None
  }

  /** Why a sender refuses a header or a payload. */
  lemma FrameNotSent(h: F.FrameHeader, payload: seq<byte>)
    ensures var fault := HeaderFault(h.magic, h.major, h.headerSize, h.flags);
            && (fault.Some? ==> F.Encode(h, payload) == Err(fault.value))
            && (fault.None? && |payload| > 65535 ==> F.Encode(h, payload) == Err(InvalidLength))
  {
    hide F.HeaderBytes, F.FrameChecksum;
  }

  /** Why a receiver with a limit refuses a frame, first cause first: too short for a header, beyond the
      limit, a fault of its header, cut short, followed by more, or a checksum that does not match. */
  lemma FrameRefused(f: seq<byte>, max: nat)
    ensures var r := F.Decode(f, max);
            if max < 24 || max > 65559 then r == Err(InvalidArgument)
            else if |f| < 24 then r == Err(Truncated)
            else if |f| > max then r == Err(InvalidLength)
            else
              var fault := HeaderFault(Two(f, 0), f[2], f[3], f[5]);
              var whole := 24 + Two(f, 6);
              if fault.Some? then r == Err(fault.value)
              else if whole > max || whole < |f| then r == Err(InvalidLength)
              else if whole > |f| then r == Err(Truncated)
              else r.Err? ==> r == Err(ChecksumMismatch)
  {
    hide F.HeaderBytes, F.FrameChecksum, Two, Four;
    if |f| >= 24 {
      ReadTwo(f, 0);
      ReadTwo(f, 6);
    }
    hide GetU16, GetU32;
  }

  /** Why a receiver refuses an RPC message: too short for an envelope, a fault of the envelope, a
      payload beyond its limit, cut short, or followed by more. */
  lemma MessageRefused(f: seq<byte>, max: nat)
    ensures var r := R.Decode(f, max);
            if max > 65535 then r == Err(InvalidArgument)
            else if |f| < 16 then r == Err(Truncated)
            else
              var fault := R.Validate(R.EnvelopeAt(f));
              var whole := 16 + Two(f, 10);
              if fault.Some? then r == Err(fault.value)
              else if Two(f, 10) > max || whole < |f| then r == Err(InvalidLength)
              else if whole > |f| then r == Err(Truncated)
              else r.Ok?
  {
    hide R.Validate, Two;
    if |f| >= 16 {
      ReadTwo(f, 10);
    }
    hide GetU16, GetU32;
  }

  /** The first thing wrong with an envelope: reserved flags are told apart, everything else is an
      invalid RPC. */
  lemma EnvelopeFault(e: R.Envelope)
    ensures var named := e.service != 0 && e.operation != 0 && (e.kind == 1 || e.kind == 2 || e.kind == 3);
            && (R.Validate(e) == Some(InvalidFlags) <==> named && e.flags >= 4)
            && (R.Validate(e) == Some(InvalidRpc) <==>
                || !named
                || (e.flags < 4 && e.kind != 3 && e.request == 0)
                || (e.flags < 4 && e.kind == 1 && (e.statusDomain != 0 || e.statusCode != 0))
                || (e.flags < 4 && e.kind != 1 && (e.statusDomain == 0) != (e.statusCode == 0)))
            && (R.Validate(e).Some? ==> R.Validate(e).value.InvalidFlags? || R.Validate(e).value.InvalidRpc?)
  {
  }

  // ---------------------------------------------------------------------------------------
  // Examples
  // ---------------------------------------------------------------------------------------

  lemma WordIs(s: seq<byte>, i: nat)
    requires i + 4 <= |s|
    ensures Checksum.Word(s[i..i + 4]) == Four(s, i)
  {
    var w := s[i..i + 4];
    assert w[0] == s[i] && w[1] == s[i + 1] && w[2] == s[i + 2] && w[3] == s[i + 3];
  }

  lemma LastWord(s: seq<byte>, i: nat)
    requires i + 4 == |s|
    ensures Checksum.SumFrom(s, i) == Four(s, i)
  {
    assert s[i..] == s[i..i + 4];
    WordIs(s, i);
  }

  lemma NextWord(s: seq<byte>, i: nat)
    requires i + 4 <= |s|
    ensures Checksum.SumFrom(s, i) == Wrap32(Four(s, i) + Checksum.SumFrom(s, i + 4))
  {
    WordIs(s, i);
    Checksum.SumNext(s, i);
  }

  lemma SumOfHeader(s: seq<byte>)
    requires |s| == 24
    ensures Checksum.Sum32(s) == Wrap32(Four(s, 0) + Four(s, 4) + Four(s, 8) + Four(s, 12) + Four(s, 16) + Four(s, 20))
  {
    hide Four, Checksum.SumFrom;
    LastWord(s, 20);
    NextWord(s, 16);
    NextWord(s, 12);
    NextWord(s, 8);
    NextWord(s, 4);
    NextWord(s, 0);
  }

  function Example(): F.FrameHeader {
    F.FrameHeader(0x4c57, 1, 24, 1, 0, 0, 0x1122_3344, 0x5566_7788, 0, 0)
  }

  lemma Bytes32(s: seq<byte>, at: nat, a: byte, b: byte, c: byte, d: byte)
    requires at + 4 <= |s|
    requires Four(s, at) == a as int + 256 * b as int + 65536 * c as int + 16777216 * d as int
    ensures s[at] == a && s[at + 1] == b && s[at + 2] == c && s[at + 3] == d
  {
    Digits32(Four(s, at), s[at], s[at + 1], s[at + 2], s[at + 3]);
    Digits32(Four(s, at), a, b, c, d);
    hide PutU32;
  }

  lemma PayloadSum(s: seq<byte>)
    requires |s| == 4
    ensures Checksum.Sum32(s) == Four(s, 0)
  {
    LastWord(s, 0);
  }

  /** The fields of the example, up to the header's checksum. */
  lemma SumFields(f: seq<byte>, payload: seq<byte>)
    requires payload == [0xde, 0xad, 0xbe, 0xef] && F.Encode(Example(), payload) == Ok(f)
    ensures |f| == 28 && f[0] == 0x57 && f[1] == 0x4c && f[2] == 1 && f[3] == 24 && f[4] == 1 && f[5] == 0
    ensures f[6] == 4 && f[7] == 0 && Four(f, 8) == 0x1122_3344 && Four(f, 12) == 0x5566_7788
    ensures Four(f, 20) == 0xefbe_adde && f[24..] == payload
    ensures Four(f, 16) == Checksum.Sum32(f[..16] + [0, 0, 0, 0] + f[20..24])
  {
    FrameLayout(Example(), payload);
    PayloadSum(payload);
    assert Four(payload, 0) == 0xefbe_adde;
    hide F.Encode, Checksum.Sum32, Checksum.Crc32c, Four;
    Bytes16(f, 6, 0x04, 0x00);
  }

  lemma SumValue(s: seq<byte>)
    requires |s| == 24 && Four(s, 0) == 0x1801_4c57 && Four(s, 4) == 0x4_0001 && Four(s, 8) == 0x1122_3344
    requires Four(s, 12) == 0x5566_7788 && Four(s, 16) == 0 && Four(s, 20) == 0xefbe_adde
    ensures Checksum.Sum32(s) == 0x6e4c_a502
  {
    hide Checksum.Sum32, Four;
    SumOfHeader(s);
  }

  lemma SumField(f: seq<byte>)
    requires |f| == 28 && f[0] == 0x57 && f[1] == 0x4c && f[2] == 1 && f[3] == 24 && f[4] == 1 && f[5] == 0
    requires f[6] == 4 && f[7] == 0 && Four(f, 8) == 0x1122_3344 && Four(f, 12) == 0x5566_7788
    requires Four(f, 20) == 0xefbe_adde
    requires Four(f, 16) == Checksum.Sum32(f[..16] + [0, 0, 0, 0] + f[20..24])
    ensures Four(f, 16) == 0x6e4c_a502
  {
    var s := f[..16] + [0, 0, 0, 0] + f[20..24];
    assert Four(s, 0) == 0x1801_4c57 && Four(s, 4) == 0x4_0001;
    assert Four(s, 8) == Four(f, 8) && Four(s, 12) == Four(f, 12) && Four(s, 20) == Four(f, 20);
    hide Checksum.Sum32;
    SumValue(s);
  }

  lemma InFive(f: seq<byte>)
    requires |f| == 28
    ensures f == f[..8] + f[8..16] + f[16..20] + f[20..24] + f[24..]
  {
  }

  /** The SUM32 frame of the published examples. */
  lemma SumExample()
    ensures F.Encode(Example(), [0xde, 0xad, 0xbe, 0xef]) ==
            Ok([0x57, 0x4c, 0x01, 0x18, 0x01, 0x00, 0x04, 0x00] +
               [0x44, 0x33, 0x22, 0x11, 0x88, 0x77, 0x66, 0x55] +
               [0x02, 0xa5, 0x4c, 0x6e] + [0xde, 0xad, 0xbe, 0xef] + [0xde, 0xad, 0xbe, 0xef])
  {
    var payload: seq<byte> := [0xde, 0xad, 0xbe, 0xef];
    FrameSentExactly(Example(), payload);
    hide F.Encode, Checksum.Sum32, Example;
    var f := F.Encode(Example(), payload).value;
    SumFields(f, payload);
    SumField(f);
    Bytes32(f, 8, 0x44, 0x33, 0x22, 0x11);
    Bytes32(f, 12, 0x88, 0x77, 0x66, 0x55);
    Bytes32(f, 16, 0x02, 0xa5, 0x4c, 0x6e);
    Bytes32(f, 20, 0xde, 0xad, 0xbe, 0xef);
    hide Four;
    assert f[..8] == [0x57, 0x4c, 0x01, 0x18, 0x01, 0x00, 0x04, 0x00];
    assert f[8..16] == [0x44, 0x33, 0x22, 0x11, 0x88, 0x77, 0x66, 0x55];
    assert f[16..20] == [0x02, 0xa5, 0x4c, 0x6e] && f[20..24] == payload;
    InFive(f);
  }

  /** The RPC message of the published examples. */
  lemma RpcExample()
    ensures R.Encode(R.Envelope(2, 5, 0x1234_5678, 1, 2, 0, 0, 0), [0xaa, 0xbb]) ==
            Ok([0x02, 0x00, 0x05, 0x00] + [0x78, 0x56, 0x34, 0x12] +
               [0x01, 0x02, 0x02, 0x00] + [0x00, 0x00, 0x00, 0x00] + [0xaa, 0xbb])
  {
    var e := R.Envelope(2, 5, 0x1234_5678, 1, 2, 0, 0, 0);
    var payload: seq<byte> := [0xaa, 0xbb];
    EnvelopeSentExactly(e, payload);
    EnvelopeLayout(e, payload);
    hide R.Encode;
    var f := R.Encode(e, payload).value;
    Bytes16(f, 0, 2, 0);
    Bytes16(f, 2, 5, 0);
    Bytes32(f, 4, 0x78, 0x56, 0x34, 0x12);
    Bytes16(f, 10, 2, 0);
    Bytes16(f, 12, 0, 0);
    Bytes16(f, 14, 0, 0);
    assert f[..4] == [0x02, 0x00, 0x05, 0x00] && f[4..8] == [0x78, 0x56, 0x34, 0x12];
    assert f[8..12] == [0x01, 0x02, 0x02, 0x00] && f[12..16] == [0x00, 0x00, 0x00, 0x00];
    assert f == f[..4] + f[4..8] + f[8..12] + f[12..16] + f[16..];
  }
}
