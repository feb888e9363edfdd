/** The 24-byte frame header, its two checksums, and the frame encoder and decoder
    (protocol/src/wire.c). */
module FrameCodec {
  import opened Bytes
  import opened Checksum

  const MAGIC: uint16 := 0x4c57
  const MAJOR: byte := 1
  const HEADER_SIZE: nat := 24
  const MAX_PAYLOAD: nat := 0xffff
  const MAX_SIZE: nat := HEADER_SIZE + MAX_PAYLOAD
  const CRC32C_FLAG: byte := 1
  const FLAGS_MASK: byte := 3

  datatype FrameHeader = FrameHeader(
    magic: uint16,
    major: byte,
    headerSize: byte,
    channel: byte,
    flags: byte,
    payloadSize: uint16,
    session: uint32,
    sequence: uint32,
    headerChecksum: uint32,
    payloadChecksum: uint32)

  /** `wlh_frame_header_init` with the fields the senders set. */
  function NewHeader(channel: byte, session: uint32, sequence: uint32): FrameHeader {
    FrameHeader(MAGIC, MAJOR, HEADER_SIZE, channel, 0, 0, session, sequence, 0, 0)
  }

  function Validate(h: FrameHeader): Option<WireError> {
    if h.magic != MAGIC then Some(InvalidMagic)
    else if h.major != MAJOR then Some(UnsupportedVersion)
    else if h.headerSize != HEADER_SIZE then Some(InvalidHeaderSize)
    else if h.flags > FLAGS_MASK then Some(InvalidFlags)
    else None
  }

  function FrameChecksum(s: seq<byte>, flags: byte): uint32 {
    if flags % 2 == CRC32C_FLAG then Crc32c(s) else Sum32(s)
  }

  method ComputeFrameChecksum(a: array<byte>, from: nat, size: nat, flags: byte) returns (sum: uint32)
    requires from + size <= a.Length
    ensures sum == FrameChecksum(a[from..from + size], flags)
  {
    if flags % 2 == CRC32C_FLAG {
      sum := ComputeCrc32c(a, from, size);
    } else {
      sum := ComputeSum32(a, from, size);
    }
  }

  /** The layout of the header, byte by byte. */
  function HeaderByte(h: FrameHeader, k: nat): byte
    requires k < HEADER_SIZE
  {
    if k < 2 then PutU16(h.magic)[k]
    else if k == 2 then h.major
    else if k == 3 then h.headerSize
    else if k == 4 then h.channel
    else if k == 5 then h.flags
    else if k < 8 then PutU16(h.payloadSize)[k - 6]
    else if k < 12 then PutU32(h.session)[k - 8]
    else if k < 16 then PutU32(h.sequence)[k - 12]
    else if k < 20 then PutU32(h.headerChecksum)[k - 16]
    else PutU32(h.payloadChecksum)[k - 20]
  }

  function HeaderBytes(h: FrameHeader): (s: seq<byte>)
    ensures |s| == HEADER_SIZE
  {
    seq(HEADER_SIZE, k requires 0 <= k < HEADER_SIZE => HeaderByte(h, k))
  }

  function HeaderAt(s: seq<byte>): FrameHeader
    requires |s| >= HEADER_SIZE
  {
    FrameHeader(GetU16(s, 0), s[2], s[3], s[4], s[5], GetU16(s, 6), GetU32(s, 8), GetU32(s, 12),
                GetU32(s, 16), GetU32(s, 20))
  }

  /** The header as the encoder completes it: payload size, payload checksum, and a header
      checksum taken with its own field zero. */
  function Sealed(h: FrameHeader, payload: seq<byte>): FrameHeader
    requires |payload| <= MAX_PAYLOAD
  {
    var open := h.(payloadSize := |payload|, headerChecksum := 0,
                   payloadChecksum := FrameChecksum(payload, h.flags));
    open.(headerChecksum := FrameChecksum(HeaderBytes(open), h.flags))
  }

  function Encode(h: FrameHeader, payload: seq<byte>): Result<seq<byte>> {
    match Validate(h)
    case Some(error) => Err(error)
    case None =>
      if |payload| > MAX_PAYLOAD then Err(InvalidLength)
      else Ok(HeaderBytes(Sealed(h, payload)) + payload)
  }

  function Decode(frame: seq<byte>, max: nat): Result<(FrameHeader, seq<byte>)> {
    if max < HEADER_SIZE || max > MAX_SIZE then Err(InvalidArgument)
    else if |frame| < HEADER_SIZE then Err(Truncated)
    else if |frame| > max then Err(InvalidLength)
    else
      var h := HeaderAt(frame);
      var payload := frame[HEADER_SIZE..];
      match Validate(h)
      case Some(error) => Err(error)
      case None =>
        if HEADER_SIZE + h.payloadSize > max then Err(InvalidLength)
        else if |frame| < HEADER_SIZE + h.payloadSize then Err(Truncated)
        else if |frame| != HEADER_SIZE + h.payloadSize then Err(InvalidLength)
        else if h.headerChecksum != FrameChecksum(HeaderBytes(h.(headerChecksum := 0)), h.flags)
        then Err(ChecksumMismatch)
        else if h.payloadChecksum != FrameChecksum(payload, h.flags) then Err(ChecksumMismatch)
        else Ok((h, payload))
  }

  // ---------------------------------------------------------------------------------------
  // The decoder and the encoder are inverse
  // ---------------------------------------------------------------------------------------

  lemma HeaderByteHeld(s: seq<byte>, h: FrameHeader, k: nat)
    requires |s| >= HEADER_SIZE && k < HEADER_SIZE
    requires Holds(s, 0, PutU16(h.magic)) && Holds(s, 6, PutU16(h.payloadSize))
    requires Holds(s, 8, PutU32(h.session)) && Holds(s, 12, PutU32(h.sequence))
    requires Holds(s, 16, PutU32(h.headerChecksum)) && Holds(s, 20, PutU32(h.payloadChecksum))
    requires s[2..6] == [h.major, h.headerSize, h.channel, h.flags]
    ensures s[k] == HeaderByte(h, k)
  {
    hide PutU16, PutU32;
    if 2 <= k < 6 {
      assert s[k] == s[2..6][k - 2];
    } else {
      assert k < 6 || s[k] == s[6 + (k - 6)];
      assert k < 8 || s[k] == s[8 + (k - 8)];
      assert k < 12 || s[k] == s[12 + (k - 12)];
      assert k < 16 || s[k] == s[16 + (k - 16)];
      assert k < 20 || s[k] == s[20 + (k - 20)];
      assert s[k] == s[0 + k];
    }
  }

  lemma HeaderFields(s: seq<byte>, h: FrameHeader)
    requires |s| >= HEADER_SIZE
    ensures HeaderAt(s) == h <==> s[..HEADER_SIZE] == HeaderBytes(h)
  {
    hide PutU16, PutU32, GetU16, GetU32;
    U16Exact(s, 0, h.magic);
    U16Exact(s, 6, h.payloadSize);
    U32Exact(s, 8, h.session);
    U32Exact(s, 12, h.sequence);
    U32Exact(s, 16, h.headerChecksum);
    U32Exact(s, 20, h.payloadChecksum);
    if HeaderAt(s) == h {
      forall k | 0 <= k < HEADER_SIZE
        ensures s[k] == HeaderByte(h, k)
      {
        HeaderByteHeld(s, h, k);
      }
    }
    if s[..HEADER_SIZE] == HeaderBytes(h) {
      assert forall k :: 0 <= k < HEADER_SIZE ==> s[k] == s[..HEADER_SIZE][k] == HeaderByte(h, k);
      assert Holds(s, 0, PutU16(h.magic)) && Holds(s, 6, PutU16(h.payloadSize));
      assert Holds(s, 8, PutU32(h.session)) && Holds(s, 12, PutU32(h.sequence));
      assert Holds(s, 16, PutU32(h.headerChecksum)) && Holds(s, 20, PutU32(h.payloadChecksum));
    }
  }

  /** Every valid header and payload that fit the limit survive the trip. */
  lemma DecodeOfEncode(h: FrameHeader, payload: seq<byte>, max: nat)
    requires Validate(h) == None && HEADER_SIZE + |payload| <= max <= MAX_SIZE
    ensures Encode(h, payload).Ok?
    ensures Decode(Encode(h, payload).value, max) == Ok((Sealed(h, payload), payload))
  {
    hide HeaderBytes, HeaderAt, FrameChecksum;
    var frame := Encode(h, payload).value;
    var full := Sealed(h, payload);
    assert frame[..HEADER_SIZE] == HeaderBytes(full);
    HeaderFields(frame, full);
    assert frame[HEADER_SIZE..] == payload;
  }

  /** Encoding again whatever the decoder accepted gives the same bytes. */
  lemma EncodeOfDecode(frame: seq<byte>, max: nat)
    requires Decode(frame, max).Ok?
    ensures var (h, payload) := Decode(frame, max).value;
            && Sealed(h, payload) == h
            && Encode(h, payload) == Ok(frame)
  {
    hide HeaderBytes, HeaderAt, FrameChecksum;
    var h := HeaderAt(frame);
    HeaderFields(frame, h);
    assert frame == frame[..HEADER_SIZE] + frame[HEADER_SIZE..];
  }

  /** The decoder accepts exactly the encoder's images within the limit. */
  lemma AcceptedExactly(frame: seq<byte>, max: nat)
    requires HEADER_SIZE <= max <= MAX_SIZE
    ensures Decode(frame, max).Ok? <==>
            |frame| <= max && exists h, payload :: Encode(h, payload) == Ok(frame)
  {
    hide HeaderBytes, HeaderAt, FrameChecksum, Sealed;
    if Decode(frame, max).Ok? {
      EncodeOfDecode(frame, max);
      var (h, payload) := Decode(frame, max).value;
      assert Encode(h, payload) == Ok(frame);
    }
    if |frame| <= max {
      forall h, payload | Encode(h, payload) == Ok(frame)
        ensures Decode(frame, max).Ok?
      {
        DecodeOfEncode(h, payload, max);
      }
    }
  }

  // ---------------------------------------------------------------------------------------
  // The buffer routines
  // ---------------------------------------------------------------------------------------

  /** Overwriting the four checksum bytes is replacing that field. */
  lemma HeaderWithChecksum(before: seq<byte>, after: seq<byte>, h: FrameHeader, checksum: uint32)
    requires |after| == HEADER_SIZE && before == HeaderBytes(h)
    requires forall k :: 0 <= k < HEADER_SIZE ==>
                         after[k] == if 16 <= k < 20 then PutU32(checksum)[k - 16] else before[k]
    ensures after == HeaderBytes(h.(headerChecksum := checksum))
  {
    hide PutU16, PutU32;
  }

  method WriteHeader(a: array<byte>, o: nat, h: FrameHeader)
    requires o + HEADER_SIZE <= a.Length
    modifies a
    ensures a[o..o + HEADER_SIZE] == HeaderBytes(h)
    ensures forall k :: 0 <= k < a.Length && !(o <= k < o + HEADER_SIZE) ==> a[k] == old(a[k])
  {
    hide PutU16, PutU32;
    WriteU16(a, o, h.magic);
    a[o + 2] := h.major;
    a[o + 3] := h.headerSize;
    a[o + 4] := h.channel;
    a[o + 5] := h.flags;
    WriteU16(a, o + 6, h.payloadSize);
    WriteU32(a, o + 8, h.session);
    WriteU32(a, o + 12, h.sequence);
    WriteU32(a, o + 16, h.headerChecksum);
    WriteU32(a, o + 20, h.payloadChecksum);
  }

  /** `wlh_frame_encode`: the payload may lie anywhere, inside the output buffer included. */
  method EncodeInto(output: array<byte>, o: nat, capacity: nat, h: FrameHeader,
                    source: array<byte>, p: nat, n: nat)
    returns (r: Result<nat>)
    requires o + capacity <= output.Length && p + n <= source.Length
    modifies output
    ensures var whole := Encode(h, old(source[p..p + n]));
            r == if whole.Err? then Err(whole.error)
                 else if capacity < HEADER_SIZE + n then Err(BufferTooSmall)
                 else Ok(HEADER_SIZE + n)
    ensures r.Err? ==> output[..] == old(output[..])
    ensures r.Ok? ==> Encode(h, old(source[p..p + n])) == Ok(output[o..o + HEADER_SIZE + n])
    ensures r.Ok? ==> forall k :: 0 <= k < output.Length && !(o <= k < o + HEADER_SIZE + n) ==>
                                  output[k] == old(output[k])
  {
    hide HeaderBytes, FrameChecksum, PutU32;
    var invalid := Validate(h);
    if invalid.Some? {
      return Err(invalid.value);
    }
    if n > MAX_PAYLOAD {
      return Err(InvalidLength);
    }
    if capacity < HEADER_SIZE + n {
      return Err(BufferTooSmall);
    }
    ghost var payload := source[p..p + n];
    var payloadChecksum := ComputeFrameChecksum(source, p, n, h.flags);
    MoveBytes(output, o + HEADER_SIZE, source, p, n);
    var open := h.(payloadSize := n, headerChecksum := 0, payloadChecksum := payloadChecksum);
    WriteHeader(output, o, open);
    label unsealed:
    var headerChecksum := ComputeFrameChecksum(output, o, HEADER_SIZE, h.flags);
    WriteU32(output, o + 16, headerChecksum);
    HeaderWithChecksum(old@unsealed(output[o..o + HEADER_SIZE]), output[o..o + HEADER_SIZE], open, headerChecksum);
    assert output[o + HEADER_SIZE..o + HEADER_SIZE + n] == payload;
    assert output[o..o + HEADER_SIZE + n] ==
      output[o..o + HEADER_SIZE] + output[o + HEADER_SIZE..o + HEADER_SIZE + n];
    r := Ok(HEADER_SIZE + n);
  }

  /** `wlh_frame_decode`: the payload is the part of the frame after its header. */
  method DecodeFrom(frame: array<byte>, o: nat, size: nat, max: nat)
    returns (r: Result<FrameHeader>)
    requires o + size <= frame.Length
    ensures var whole := Decode(frame[o..o + size], max);
            r == if whole.Err? then Err(whole.error) else Ok(whole.value.0)
  {
    hide HeaderBytes, HeaderAt, FrameChecksum, PutU32;
    if max < HEADER_SIZE || max > MAX_SIZE {
      return Err(InvalidArgument);
    }
    if size < HEADER_SIZE {
      return Err(Truncated);
    }
    if size > max {
      return Err(InvalidLength);
    }
    var h := HeaderAt(frame[o..o + size]);
    var invalid := Validate(h);
    if invalid.Some? {
      return Err(invalid.value);
    }
    if HEADER_SIZE + h.payloadSize > max {
      return Err(InvalidLength);
    }
    if size < HEADER_SIZE + h.payloadSize {
      return Err(Truncated);
    }
    if size != HEADER_SIZE + h.payloadSize {
      return Err(InvalidLength);
    }
    var checked := new byte[HEADER_SIZE](_ => 0);
    MoveBytes(checked, 0, frame, o, HEADER_SIZE);
    ghost var copied := checked[..];
    assert checked[..] == checked[0..HEADER_SIZE];
    assert frame[o..o + HEADER_SIZE] == frame[o..o + size][..HEADER_SIZE];
    HeaderFields(frame[o..o + size], h);
    WriteU32(checked, 16, 0);
    HeaderWithChecksum(copied, checked[..], h, 0);
    assert checked[0..HEADER_SIZE] == checked[..];
    var expected := ComputeFrameChecksum(checked, 0, HEADER_SIZE, h.flags);
    if h.headerChecksum != expected {
      return Err(ChecksumMismatch);
    }
    assert frame[o + HEADER_SIZE..o + HEADER_SIZE + h.payloadSize] == frame[o..o + size][HEADER_SIZE..];
    expected := ComputeFrameChecksum(frame, o + HEADER_SIZE, h.payloadSize, h.flags);
    if h.payloadChecksum != expected {
      return Err(ChecksumMismatch);
    }
    r := Ok(h);
  }
}
