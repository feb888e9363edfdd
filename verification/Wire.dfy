/** Measures over a wire: the units, CreditUpdates and lost places it carries for one channel, and
    the sequence numbers its frames bear. */
module Wire {
  import opened Bytes
  import opened Aggregation
  import opened LinkState
  import FrameCodec

  /** What is weighed. */
  datatype Measure = Units(channel: byte) | Credits(channel: byte) | Losses(channel: byte)

  /** What a frame holds for a receiver whose size limit it meets. */
  function Contents(frame: seq<byte>): Option<(FrameCodec.FrameHeader, seq<byte>)> {
    match FrameCodec.Decode(frame, FrameCodec.MAX_SIZE)
    case Ok(found) => Some(found)
    case Err(_) => None
  }

  function ChannelOf(frame: seq<byte>): Option<byte> {
    match Contents(frame)
    case None => None
    case Some((header, _)) => Some(header.channel)
  }

  function SequenceOf(frame: seq<byte>): uint32 {
    match Contents(frame)
    case None => 0
    case Some((header, _)) => header.sequence
  }

  function UnitsOf(frame: seq<byte>): nat {
    match Contents(frame)
    case None => 0
    case Some((_, payload)) => PayloadUnits(payload)
  }

  function Weigh(m: Measure, slot: Slot): nat {
    match (m, slot)
    case (Units(channel), Data(frame)) =>
      if ChannelOf(frame) == Some(channel) then UnitsOf(frame) else 0
    case (Credits(channel), Credit(_, of, units)) => if of == channel then units else 0
    case (Losses(channel), Lost(of)) => if of == channel then 1 else 0
    case _ => 0
  }

  function Sum(w: seq<Slot>, m: Measure): nat {
    if |w| == 0 then 0 else Weigh(m, w[0]) + Sum(w[1..], m)
  }

  lemma {:induction false} SumConcat(a: seq<Slot>, b: seq<Slot>, m: Measure)
    ensures Sum(a + b, m) == Sum(a, m) + Sum(b, m)
    decreases |a|
  {
    hide Weigh;
    if |a| == 0 {
      assert a + b == b;
    } else {
      assert (a + b)[1..] == a[1..] + b;
      SumConcat(a[1..], b, m);
    }
  }

  lemma SumOne(slot: Slot, m: Measure)
    ensures Sum([slot], m) == Weigh(m, slot)
  {
    hide Weigh;
    assert [slot][1..] == [];
  }

  /** Replacing one place changes the sum by the difference of the two weights. */
  lemma {:induction false} SumReplace(w: seq<Slot>, k: nat, slot: Slot, m: Measure)
    requires k < |w|
    ensures Sum(w[k := slot], m) + Weigh(m, w[k]) == Sum(w, m) + Weigh(m, slot)
    decreases |w|
  {
    hide Weigh;
    if k == 0 {
      assert w[0 := slot][1..] == w[1..];
    } else {
      assert w[k := slot][1..] == w[1..][k - 1 := slot];
      SumReplace(w[1..], k - 1, slot, m);
    }
  }

  lemma {:induction false} SumRemove(w: seq<Slot>, k: nat, m: Measure)
    requires k < |w|
    ensures Sum(w[..k] + w[k + 1..], m) + Weigh(m, w[k]) == Sum(w, m)
  {
    hide Weigh;
    SumConcat(w[..k], w[k + 1..], m);
    SumConcat(w[..k], w[k..], m);
    assert w[..k] + w[k..] == w;
    assert w[k..][1..] == w[k + 1..];
  }

  // ---------------------------------------------------------------------------------------
  // Sequence numbers
  // ---------------------------------------------------------------------------------------

  /** One place of the channel, whether its frame is still there or not. */
  predicate Occupies(slot: Slot, channel: byte) {
    match slot
    case Data(frame) => ChannelOf(frame) == Some(channel)
    case Lost(of) => of == channel
    case Credit(_, _, _) => false
  }

  function Places(w: seq<Slot>, channel: byte): nat {
    if |w| == 0 then 0
    else (if Occupies(w[0], channel) then 1 else 0) + Places(w[1..], channel)
  }

  /** The places of the channel bear consecutive numbers from the true index `next` on; the frames
      carry them modulo 2^32. */
  ghost predicate InSequence(w: seq<Slot>, channel: byte, next: nat)
    decreases |w|
  {
    |w| > 0 ==>
      && (w[0].Data? && Occupies(w[0], channel) ==> SequenceOf(w[0].frame) == Wrap32(next))
      && InSequence(w[1..], channel, next + if Occupies(w[0], channel) then 1 else 0)
  }

  lemma {:induction false} PlacesConcat(a: seq<Slot>, b: seq<Slot>, channel: byte)
    ensures Places(a + b, channel) == Places(a, channel) + Places(b, channel)
    decreases |a|
  {
    hide Occupies;
    if |a| == 0 {
      assert a + b == b;
    } else {
      assert (a + b)[1..] == a[1..] + b;
      PlacesConcat(a[1..], b, channel);
    }
  }

  lemma {:induction false} InSequenceConcat(a: seq<Slot>, b: seq<Slot>, channel: byte, next: nat)
    ensures InSequence(a + b, channel, next) <==>
            InSequence(a, channel, next) && InSequence(b, channel, next + Places(a, channel))
    decreases |a|
  {
    hide Occupies, SequenceOf;
    if |a| == 0 {
      assert a + b == b;
    } else {
      assert (a + b)[1..] == a[1..] + b;
      InSequenceConcat(a[1..], b, channel, next + if Occupies(a[0], channel) then 1 else 0);
    }
  }

  /** Losing a frame keeps its place. */
  lemma {:induction false} InSequenceLose(w: seq<Slot>, k: nat, lost: Slot, channel: byte, next: nat)
    requires k < |w| && lost.Lost? && InSequence(w, channel, next)
    requires Occupies(lost, channel) <==> Occupies(w[k], channel)
    ensures InSequence(w[k := lost], channel, next)
    ensures Places(w[k := lost], channel) == Places(w, channel)
    decreases |w|
  {
    hide Occupies, SequenceOf;
    var w' := w[k := lost];
    if k == 0 {
      assert w'[1..] == w[1..];
    } else {
      assert w'[1..] == w[1..][k - 1 := lost];
      InSequenceLose(w[1..], k - 1, lost, channel, next + if Occupies(w[0], channel) then 1 else 0);
    }
  }

  // ---------------------------------------------------------------------------------------
  // Slots a session puts on the wire
  // ---------------------------------------------------------------------------------------

  ghost predicate FrameOk(frame: seq<byte>, session: uint32) {
    match Contents(frame)
    case None => false
    case Some((header, payload)) =>
      && header.session == session && IsEthernet(header.channel)
      && Canonical(payload) && |Records(payload)| >= 1
  }

  ghost predicate SlotOk(slot: Slot, session: uint32) {
    match slot
    case Data(frame) => FrameOk(frame, session)
    case Credit(of, channel, _) => of == session && IsEthernet(channel)
    case Lost(channel) => IsEthernet(channel)
  }

  ghost predicate WireOk(w: seq<Slot>, session: uint32) {
    forall k :: 0 <= k < |w| ==> SlotOk(w[k], session)
  }

  /** Records parsed out of a canonical, nonempty payload are what the receiver counts. */
  lemma CanonicalUnits(payload: seq<byte>)
    requires Canonical(payload) && |Records(payload)| >= 1
    ensures PayloadUnits(payload) == |Records(payload)|
  {
    if |payload| == 0 {
      EmptyRecords();
    }
  }

  /** What a sender encodes is what the receiver finds: channel, session, sequence number, and one
      unit for each record laid into the payload. */
  lemma EncodedFrame(channel: byte, session: uint32, sequence: uint32, payload: seq<byte>)
    requires |payload| <= FrameCodec.MAX_PAYLOAD
    requires IsEthernet(channel) && Canonical(payload) && |Records(payload)| >= 1
    ensures var encoded := FrameCodec.Encode(FrameCodec.NewHeader(channel, session, sequence), payload);
            && encoded.Ok?
            && |encoded.value| == FrameCodec.HEADER_SIZE + |payload|
            && FrameOk(encoded.value, session)
            && ChannelOf(encoded.value) == Some(channel)
            && SequenceOf(encoded.value) == sequence
            && UnitsOf(encoded.value) == |Records(payload)|
            && Contents(encoded.value).Some? && Contents(encoded.value).value.1 == payload
  {
    hide FrameCodec.HeaderBytes, FrameCodec.FrameChecksum, Canonical, Records, PayloadUnits, FrameCodec.Decode;
    FrameCodec.DecodeOfEncode(FrameCodec.NewHeader(channel, session, sequence), payload, FrameCodec.MAX_SIZE);
    CanonicalUnits(payload);
  }

  /** The byte by which a completed frame is told is its channel. */
  lemma ChannelByte(frame: seq<byte>)
    requires ChannelOf(frame).Some?
    ensures |frame| >= FrameCodec.HEADER_SIZE && frame[4] == ChannelOf(frame).value
  {
    hide FrameCodec.HeaderBytes, FrameCodec.FrameChecksum;
  }

  /** A receiver's own size limit is the only difference between receivers. */
  lemma DecodeWithin(frame: seq<byte>, limit: nat)
    requires FrameCodec.HEADER_SIZE <= limit <= FrameCodec.MAX_SIZE
    ensures FrameCodec.Decode(frame, limit).Ok? <==> Contents(frame).Some? && |frame| <= limit
    ensures FrameCodec.Decode(frame, limit).Ok? ==> FrameCodec.Decode(frame, limit).value == Contents(frame).value
  {
    hide FrameCodec.HeaderBytes, FrameCodec.FrameChecksum, FrameCodec.HeaderAt;
  }
}
