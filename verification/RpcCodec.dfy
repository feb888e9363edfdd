/** The 16-byte RPC envelope with its encoder and decoder (protocol/src/wire.c). */
module RpcCodec {
  import opened Bytes

  const ENVELOPE_SIZE: nat := 16
  const MAX_PAYLOAD: nat := 0xffff
  const FLAGS_MASK: byte := 3
  const REQUEST: byte := 1
  const EVENT: byte := 3

  datatype Envelope = Envelope(
    service: uint16,
    operation: uint16,
    request: uint32,
    kind: byte,
    flags: byte,
    payloadSize: uint16,
    statusDomain: uint16,
    statusCode: int16)

  function Validate(e: Envelope): Option<WireError> {
    if e.service == 0 || e.operation == 0 then Some(InvalidRpc)
    else if e.kind < REQUEST || e.kind > EVENT then Some(InvalidRpc)
    else if e.flags > FLAGS_MASK then Some(InvalidFlags)
    else if e.kind != EVENT && e.request == 0 then Some(InvalidRpc)
    else if e.kind == REQUEST then
      if e.statusDomain != 0 || e.statusCode != 0 then Some(InvalidRpc) else None
    else if (e.statusCode == 0) != (e.statusDomain == 0) then Some(InvalidRpc)
    else None
  }

  /** The layout of the envelope, byte by byte. */
  function EnvelopeByte(e: Envelope, k: nat): byte
    requires k < ENVELOPE_SIZE
  {
    if k < 2 then PutU16(e.service)[k]
    else if k < 4 then PutU16(e.operation)[k - 2]
    else if k < 8 then PutU32(e.request)[k - 4]
    else if k == 8 then e.kind
    else if k == 9 then e.flags
    else if k < 12 then PutU16(e.payloadSize)[k - 10]
    else if k < 14 then PutU16(e.statusDomain)[k - 12]
    else PutU16(ToUnsigned(e.statusCode))[k - 14]
  }

  function EnvelopeBytes(e: Envelope): (s: seq<byte>)
    ensures |s| == ENVELOPE_SIZE
  {
    seq(ENVELOPE_SIZE, k requires 0 <= k < ENVELOPE_SIZE => EnvelopeByte(e, k))
  }

  function EnvelopeAt(s: seq<byte>): Envelope
    requires |s| >= ENVELOPE_SIZE
  {
    Envelope(GetU16(s, 0), GetU16(s, 2), GetU32(s, 4), s[8], s[9], GetU16(s, 10), GetU16(s, 12),
             ToSigned(GetU16(s, 14)))
  }

  function Encode(e: Envelope, payload: seq<byte>): Result<seq<byte>> {
    match Validate(e)
    case Some(error) => Err(error)
    case None =>
      if |payload| > MAX_PAYLOAD then Err(InvalidLength)
      else Ok(EnvelopeBytes(e.(payloadSize := |payload|)) + payload)
  }

  function Decode(rpc: seq<byte>, maxPayload: nat): Result<(Envelope, seq<byte>)> {
    if maxPayload > MAX_PAYLOAD then Err(InvalidArgument)
    else if |rpc| < ENVELOPE_SIZE then Err(Truncated)
    else
      var e := EnvelopeAt(rpc);
      match Validate(e)
      case Some(error) => Err(error)
      case None =>
        if e.payloadSize > maxPayload then Err(InvalidLength)
        else if |rpc| < ENVELOPE_SIZE + e.payloadSize then Err(Truncated)
        else if |rpc| != ENVELOPE_SIZE + e.payloadSize then Err(InvalidLength)
        else Ok((e, rpc[ENVELOPE_SIZE..]))
  }

  lemma EnvelopeByteHeld(s: seq<byte>, e: Envelope, k: nat)
    requires |s| >= ENVELOPE_SIZE && k < ENVELOPE_SIZE
    requires Holds(s, 0, PutU16(e.service)) && Holds(s, 2, PutU16(e.operation))
    requires Holds(s, 4, PutU32(e.request)) && s[8] == e.kind && s[9] == e.flags
    requires Holds(s, 10, PutU16(e.payloadSize)) && Holds(s, 12, PutU16(e.statusDomain))
    requires Holds(s, 14, PutU16(ToUnsigned(e.statusCode)))
    ensures s[k] == EnvelopeByte(e, k)
  {
    hide PutU16, PutU32;
    assert s[k] == s[0 + k];
    assert k < 2 || s[k] == s[2 + (k - 2)];
    assert k < 4 || s[k] == s[4 + (k - 4)];
    assert k < 10 || s[k] == s[10 + (k - 10)];
    assert k < 12 || s[k] == s[12 + (k - 12)];
    assert k < 14 || s[k] == s[14 + (k - 14)];
  }

  lemma EnvelopeFields(s: seq<byte>, e: Envelope)
    requires |s| >= ENVELOPE_SIZE
    ensures EnvelopeAt(s) == e <==> s[..ENVELOPE_SIZE] == EnvelopeBytes(e)
  {
    hide PutU16, PutU32, GetU16, GetU32;
    U16Exact(s, 0, e.service);
    U16Exact(s, 2, e.operation);
    U32Exact(s, 4, e.request);
    U16Exact(s, 10, e.payloadSize);
    U16Exact(s, 12, e.statusDomain);
    U16Exact(s, 14, ToUnsigned(e.statusCode));
    if EnvelopeAt(s) == e {
      forall k | 0 <= k < ENVELOPE_SIZE
        ensures s[k] == EnvelopeByte(e, k)
      {
        EnvelopeByteHeld(s, e, k);
      }
    }
    if s[..ENVELOPE_SIZE] == EnvelopeBytes(e) {
      assert forall k :: 0 <= k < ENVELOPE_SIZE ==> s[k] == s[..ENVELOPE_SIZE][k] == EnvelopeByte(e, k);
      assert Holds(s, 0, PutU16(e.service)) && Holds(s, 2, PutU16(e.operation));
      assert Holds(s, 4, PutU32(e.request)) && Holds(s, 10, PutU16(e.payloadSize));
      assert Holds(s, 12, PutU16(e.statusDomain)) && Holds(s, 14, PutU16(ToUnsigned(e.statusCode)));
    }
  }

  /** Every valid envelope and payload within the limit survive the trip. */
  lemma DecodeOfEncode(e: Envelope, payload: seq<byte>, maxPayload: nat)
    requires Validate(e) == None && |payload| <= maxPayload <= MAX_PAYLOAD
    ensures Encode(e, payload).Ok?
    ensures Decode(Encode(e, payload).value, maxPayload) ==
            Ok((e.(payloadSize := |payload|), payload))
  {
    hide EnvelopeBytes, EnvelopeAt;
    var rpc := Encode(e, payload).value;
    var full := e.(payloadSize := |payload|);
    assert rpc[..ENVELOPE_SIZE] == EnvelopeBytes(full);
    EnvelopeFields(rpc, full);
    assert rpc[ENVELOPE_SIZE..] == payload;
  }

  /** Encoding again whatever the decoder accepted gives the same bytes. */
  lemma EncodeOfDecode(rpc: seq<byte>, maxPayload: nat)
    requires Decode(rpc, maxPayload).Ok?
    ensures var (e, payload) := Decode(rpc, maxPayload).value;
            |payload| <= maxPayload && Encode(e, payload) == Ok(rpc)
  {
    hide EnvelopeBytes, EnvelopeAt;
    var e := EnvelopeAt(rpc);
    EnvelopeFields(rpc, e);
    assert rpc == rpc[..ENVELOPE_SIZE] + rpc[ENVELOPE_SIZE..];
  }

  /** `wlh_rpc_encode`: the payload may lie anywhere, inside the output buffer included. */
  method EncodeInto(output: array<byte>, o: nat, capacity: nat, e: Envelope,
                    source: array<byte>, p: nat, n: nat)
    returns (r: Result<nat>)
    requires o + capacity <= output.Length && p + n <= source.Length
    modifies output
    ensures var whole := Encode(e, old(source[p..p + n]));
            r == if whole.Err? then Err(whole.error)
                 else if capacity < ENVELOPE_SIZE + n then Err(BufferTooSmall)
                 else Ok(ENVELOPE_SIZE + n)
    ensures r.Err? ==> output[..] == old(output[..])
    ensures r.Ok? ==> Encode(e, old(source[p..p + n])) == Ok(output[o..o + ENVELOPE_SIZE + n])
    ensures r.Ok? ==> forall k :: 0 <= k < output.Length && !(o <= k < o + ENVELOPE_SIZE + n) ==>
                                  output[k] == old(output[k])
  {
    hide PutU16, PutU32;
    var invalid := Validate(e);
    if invalid.Some? {
      return Err(invalid.value);
    }
    if n > MAX_PAYLOAD {
      return Err(InvalidLength);
    }
    if capacity < ENVELOPE_SIZE + n {
      return Err(BufferTooSmall);
    }
    ghost var payload := source[p..p + n];
    MoveBytes(output, o + ENVELOPE_SIZE, source, p, n);
    assert output[o + ENVELOPE_SIZE..o + ENVELOPE_SIZE + n] == payload;
    WriteEnvelope(output, o, e.(payloadSize := n));
    assert output[o + ENVELOPE_SIZE..o + ENVELOPE_SIZE + n] == payload;
    assert output[o..o + ENVELOPE_SIZE + n] ==
      output[o..o + ENVELOPE_SIZE] + output[o + ENVELOPE_SIZE..o + ENVELOPE_SIZE + n];
    r := Ok(ENVELOPE_SIZE + n);
  }

  method WriteEnvelope(a: array<byte>, o: nat, e: Envelope)
    requires o + ENVELOPE_SIZE <= a.Length
    modifies a
    ensures a[o..o + ENVELOPE_SIZE] == EnvelopeBytes(e)
    ensures forall k :: 0 <= k < a.Length && !(o <= k < o + ENVELOPE_SIZE) ==> a[k] == old(a[k])
  {
    hide PutU16, PutU32;
    WriteU16(a, o, e.service);
    WriteU16(a, o + 2, e.operation);
    WriteU32(a, o + 4, e.request);
    a[o + 8] := e.kind;
    a[o + 9] := e.flags;
    WriteU16(a, o + 10, e.payloadSize);
    WriteU16(a, o + 12, e.statusDomain);
    WriteU16(a, o + 14, ToUnsigned(e.statusCode));
  }

  /** `wlh_rpc_decode`: the payload is the part of the message after its envelope. */
  method DecodeFrom(rpc: array<byte>, o: nat, size: nat, maxPayload: nat) returns (r: Result<Envelope>)
    requires o + size <= rpc.Length
    ensures var whole := Decode(rpc[o..o + size], maxPayload);
            r == if whole.Err? then Err(whole.error) else Ok(whole.value.0)
  {
    hide EnvelopeAt;
    if maxPayload > MAX_PAYLOAD {
      return Err(InvalidArgument);
    }
    if size < ENVELOPE_SIZE {
      return Err(Truncated);
    }
    var e := EnvelopeAt(rpc[o..o + size]);
    var invalid := Validate(e);
    if invalid.Some? {
      return Err(invalid.value);
    }
    if e.payloadSize > maxPayload {
      return Err(InvalidLength);
    }
    if size < ENVELOPE_SIZE + e.payloadSize {
      return Err(Truncated);
    }
    if size != ENVELOPE_SIZE + e.payloadSize {
      return Err(InvalidLength);
    }
    r := Ok(e);
  }
}
