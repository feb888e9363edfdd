/** The Ethernet data path of the two endpoints: the fields the credit protocol lives in, and what
    each operation does to them. The classes in Sender and Receiver are proved to perform exactly
    these steps; CreditProtocol composes them into runs. */
module LinkState {
  import opened Bytes
  import opened Aggregation
  import FrameCodec
  import RawRecord

  const STA: byte := 2
  const AP: byte := 3
  const ETH: byte := 10
  const CHANNELS: nat := 256

  /** Tables over the 256 channel numbers and over the three Ethernet interfaces. */
  type PerChannel = s: seq<uint32> | |s| == CHANNELS witness seq(CHANNELS, _ => 0)
  type ChannelFlags = s: seq<bool> | |s| == CHANNELS witness seq(CHANNELS, _ => false)
  type PerInterface = s: seq<uint32> | |s| == 3 witness [0, 0, 0]
  type InterfaceFlags = s: seq<bool> | |s| == 3 witness [false, false, false]

  /** The configured frame sizes that initialization accepts. */
  type FrameLimit = n: nat | FrameCodec.HEADER_SIZE <= n <= FrameCodec.MAX_SIZE witness FrameCodec.HEADER_SIZE

  predicate IsEthernet(channel: byte) {
    channel == STA || channel == AP || channel == ETH
  }

  /** Interface index of the per-interface counters. */
  function Index(channel: byte): (i: nat)
    ensures i < 3
  {
    if channel == AP then 1 else if channel == ETH then 2 else 0
  }

  function ChannelAt(i: nat): byte {
    if i == 0 then STA else if i == 1 then AP else ETH
  }

  /** One place on a wire. `Data` holds the bytes of a data frame. A CreditUpdate rides the
      credit-free link channel and is kept decoded, with the session of its frame. `Lost` marks
      the place of a data frame the transport dropped; the receiver never sees it. */
  datatype Slot =
    | Data(frame: seq<byte>)
    | Credit(session: uint32, channel: byte, units: uint32)
    | Lost(channel: byte)

  /** Outcome of the allocator and of the transport for one send. */
  datatype Send = Send(alloc: bool, submit: bool)

  datatype Outcome =
    | Done
    | BadArgument
    | NoSlot
    | NoMemory
    | NoCredit
    | Malformed
    | Refused
    | BadState

  // ---------------------------------------------------------------------------------------
  // What the two endpoints share
  // ---------------------------------------------------------------------------------------

  datatype Config = Config(
    side: Side,
    maxFrame: FrameLimit,
    mergeLimit: nat,
    queueDepth: nat,
    slotDepth: nat)

  /** The transmit half: per-channel credit and sequence, the worker queue with its deferred slot,
      the free Ethernet slots, and the queued-job counters that only the Host keeps. */
  datatype Tx = Tx(
    session: uint32,
    credit: PerChannel,
    sequence: PerChannel,
    queued: PerInterface,
    slots: nat,
    queue: seq<Job>,
    deferred: Option<Job>,
    congested: bool)

  /** `send_payload_frame_units` and `send_payload_units`. */
  function SendFrame(c: Config, t: Tx, channel: byte, payload: seq<byte>, reserved: bool, units: nat, env: Send)
    : (Tx, Outcome, seq<Slot>)
  {
    if FrameCodec.HEADER_SIZE + |payload| > c.maxFrame || |payload| > FrameCodec.MAX_PAYLOAD || units == 0
    then (t, BadArgument, [])
    else if !reserved && t.credit[channel] < units then (t.(congested := true), NoCredit, [])
    else if !env.alloc then (t, NoMemory, [])
    else
      match FrameCodec.Encode(FrameCodec.NewHeader(channel, t.session, t.sequence[channel]), payload)
      case Err(_) => (t, Malformed, [])
      case Ok(frame) =>
        if !env.submit then (t, Refused, [])
        else
          var left: int := t.credit[channel] as int - (if reserved then 0 else units);
          (t.(sequence := t.sequence[channel := Wrap32(t.sequence[channel] as int + 1)],
              credit := t.credit[channel := left]),
           Done, [Data(frame)])
  }

  /** The sizes the two senders admit. */
  predicate Admissible(side: Side, size: nat) {
    match side
    case HostSide => 0 < size <= 1600
    case CoprocSide => size + RawRecord.HEADER_SIZE <= 4096 - FrameCodec.HEADER_SIZE
  }

  /** The admission of one Ethernet record: on the Host against credit and queue, on the
      Coprocessor against the queue alone. `locked` is the outcome of the Host's bounded wait for
      the state mutex. */
  function AdmitRecord(c: Config, t: Tx, channel: byte, payload: seq<byte>, alloc: bool, locked: bool)
    : (Tx, Outcome)
  {
    if !Admissible(c.side, |payload|) then (t, BadArgument)
    else if t.slots == 0 then (t, NoSlot)
    else if !alloc then (t, NoMemory)
    else if c.side.HostSide? && !locked then (t, NoSlot)
    else if c.side.HostSide? && t.credit[channel] <= t.queued[Index(channel)] then (t, NoCredit)
    else if |t.queue| >= c.queueDepth then (t, if c.side.HostSide? then NoCredit else NoMemory)
    else
      var job := EthernetTx(channel, RawRecord.Header(1, 0, |payload|) + payload);
      var counted := if c.side.HostSide?
                     then t.queued[Index(channel) := Wrap32(t.queued[Index(channel)] + 1)]
                     else t.queued;
      (t.(slots := t.slots - 1, queue := t.queue + [job], queued := counted), Done)
  }

  function Less(a: uint32, n: nat): uint32 {
    if n >= a then 0 else a - n
  }

  function Backlog(t: Tx): seq<Job> {
    Deferred(t.deferred) + t.queue
  }

  function MergeOf(c: Config, canExpand: bool): Merge
  {
    Merge(c.side, c.mergeLimit, c.maxFrame - FrameCodec.HEADER_SIZE, canExpand)
  }

  /** The merging part of an iteration: every merged follower gives its slot back, and on the Host
      all jobs of the batch leave the queued counter. */
  function TakeBatch(c: Config, t: Tx, canExpand: bool): (Tx, Batch)
    requires |Backlog(t)| > 0 && Backlog(t)[0].EthernetTx?
  {
    var i := Index(Backlog(t)[0].channel);
    var b := Aggregate(MergeOf(c, canExpand), Backlog(t)[0], Backlog(t)[1..]);
    (t.(queue := b.queue, deferred := b.deferred, slots := t.slots + (b.units - 1),
        queued := if c.side.HostSide? then t.queued[i := Less(t.queued[i], b.units)] else t.queued),
     b)
  }

  /** One worker iteration on the transmit queue: the deferred job or the queue head is taken; an
      Ethernet job is merged with its followers and sent, and its slot stays with the transport
      only if the send succeeds. */
  function Work(c: Config, t: Tx, canExpand: bool, env: Send): (Tx, Outcome, seq<Slot>)
  {
    if |Backlog(t)| == 0 then (t, Done, [])
    else
      match Backlog(t)[0]
      case Other(_) => (t.(queue := Backlog(t)[1..], deferred := None), Done, [])
      case EthernetTx(channel, _) =>
        var (merged, b) := TakeBatch(c, t, canExpand);
        var (t', outcome, out) := SendFrame(c, merged, channel, b.payload, false, b.units, env);
        (if outcome.Done? then t' else t'.(slots := t'.slots + 1), outcome, out)
  }

  const TX_CANCELLED: int := 1
  const TRANSPORT_FAILED: nat := 1

  /** The transport is done with a frame: an Ethernet frame, told by its channel byte, gives its slot
      back, and a failure queues a job if there is room. The Coprocessor does not count a cancelled
      frame as a failure. */
  function SendDone(c: Config, t: Tx, frame: seq<byte>, status: int): Tx {
    var ethernet := |frame| >= FrameCodec.HEADER_SIZE && IsEthernet(frame[4]);
    var failed := status != 0 && (c.side.HostSide? || status != TX_CANCELLED);
    t.(slots := t.slots + (if ethernet then 1 else 0),
       queue := if failed && |t.queue| < c.queueDepth then t.queue + [Other(TRANSPORT_FAILED)] else t.queue)
  }

  /** A CreditUpdate either goes out or is refused synchronously; zero units send nothing. */
  function SendCredit(session: uint32, channel: byte, units: uint32, accepted: bool): seq<Slot> {
    if units == 0 || !accepted then [] else [Credit(session, channel, units)]
  }

  /** The units one received payload is worth: one per record, or one if it does not parse. */
  function PayloadUnits(payload: seq<byte>): nat {
    if |payload| == 0 then 1
    else
      match RawRecord.Parse(payload)
      case None => 1
      case Some(rs) => |rs|
  }

  // ---------------------------------------------------------------------------------------
  // The Host's receive half
  // ---------------------------------------------------------------------------------------

  const HOST_BATCH: nat := 8
  const HOST_DELAY_MS: nat := 1

  /** Credit the Host owes the peer per interface, and when it must be paid (0: nothing owed). */
  datatype HostRx = HostRx(pending: PerInterface, due: nat)

  function Accumulate(rx: HostRx, channel: byte, units: nat, now: nat): HostRx
  {
    var i := Index(channel);
    HostRx(rx.pending[i := SaturatingAdd(rx.pending[i], if units > UINT32_MAX then UINT32_MAX else units)],
           if rx.due == 0 then now + HOST_DELAY_MS else rx.due)
  }

  /** The Host takes the head of its incoming wire. A frame of another session ends the session. */
  function HostReceive(c: Config, t: Tx, rx: HostRx, slot: Slot, now: nat): (Tx, HostRx)
  {
    match slot
    case Lost(_) => (t, rx)
    case Data(frame) =>
      (match FrameCodec.Decode(frame, c.maxFrame)
       case Err(_) => (t, rx)
       case Ok((header, payload)) =>
         if t.session != 0 && header.session != t.session then (t.(session := 0), rx)
         else if IsEthernet(header.channel)
         then (t, Accumulate(rx, header.channel, PayloadUnits(payload), now))
         else (t, rx))
    case Credit(session, channel, units) =>
      if t.session != 0 && session != t.session then (t.(session := 0), rx)
      else (t.(credit := t.credit[channel := SaturatingAdd(t.credit[channel], units)], congested := false), rx)
  }

  predicate HostDue(rx: HostRx, now: nat) {
    rx.due != 0 && now >= rx.due
  }

  predicate HostPays(units: uint32, due: bool) {
    units != 0 && (units >= HOST_BATCH || due)
  }

  /** The flush sends the interfaces in order; a refused CreditUpdate keeps its units. */
  function HostPaid(session: uint32, pending: PerInterface, due: bool, accepted: InterfaceFlags, i: nat): seq<Slot>
    requires i <= 3
  {
    if i == 0 then []
    else HostPaid(session, pending, due, accepted, i - 1) +
         if HostPays(pending[i - 1], due)
         then SendCredit(session, ChannelAt(i - 1), pending[i - 1], accepted[i - 1]) else []
  }

  function HostUnpaid(pending: PerInterface, due: bool, accepted: InterfaceFlags): PerInterface
  {
    seq(3, i requires 0 <= i < 3 => if HostPays(pending[i], due) && accepted[i] then 0 else pending[i])
  }

  function HostFlush(t: Tx, rx: HostRx, accepted: InterfaceFlags, now: nat): (HostRx, bool, seq<Slot>)
  {
    var due := HostDue(rx, now);
    var left := HostUnpaid(rx.pending, due, accepted);
    (HostRx(left, if left == [0, 0, 0] then 0 else now + HOST_DELAY_MS),
     exists i :: 0 <= i < 3 && HostPays(rx.pending[i], due) && !accepted[i],
     HostPaid(t.session, rx.pending, due, accepted, 3))
  }

  // ---------------------------------------------------------------------------------------
  // The Coprocessor's receive half
  // ---------------------------------------------------------------------------------------

  const COPROC_BATCH: nat := 32

  datatype CoprocRx = CoprocRx(
    sequence: PerChannel,
    valid: ChannelFlags,
    pending: PerInterface,
    failures: uint32,
    wakeQueued: bool)

  datatype Verdict = Complete | Pending | Rejected

  /** What the environment decides during one arrival: the verdict of the backend on each record
      (if there is a backend), and whether the two CreditUpdates are accepted. */
  datatype Arrival = Arrival(backend: bool, verdicts: seq<Verdict>, gapAccepted: bool, refundAccepted: bool)

  predicate KeptByBackend(r: RawRecord.Record, a: Arrival, k: nat) {
    r.kind == 1 && a.backend && k < |a.verdicts| && a.verdicts[k] == Pending
  }

  function KeptCount(rs: seq<RawRecord.Record>, a: Arrival, n: nat): (kept: nat)
    requires n <= |rs|
    ensures kept <= n
  {
    if n == 0 then 0 else KeptCount(rs, a, n - 1) + (if KeptByBackend(rs[n - 1], a, n - 1) then 1 else 0)
  }

  function KeptUnits(payload: seq<byte>, a: Arrival): (kept: nat)
    ensures kept <= PayloadUnits(payload)
  {
    if |payload| == 0 then 0
    else
      match RawRecord.Parse(payload)
      case None => 0
      case Some(rs) => KeptCount(rs, a, |rs|)
  }

  /** Frames of a channel skipped by the arriving sequence number; a backward step counts as none. */
  function Skipped(rx: CoprocRx, channel: byte, sequence: uint32): uint32
  {
    if rx.valid[channel] && sequence != rx.sequence[channel]
    then var skipped := Wrap32(sequence - rx.sequence[channel]);
         if skipped < 0x8000_0000 then skipped else 0
    else 0
  }

  function Tracked(rx: CoprocRx, channel: byte, sequence: uint32): CoprocRx
  {
    rx.(sequence := rx.sequence[channel := Wrap32(sequence + 1)], valid := rx.valid[channel := true])
  }

  /** The Coprocessor takes the head of its incoming wire. The Ethernet branch does not look at
      the session of the frame. */
  function CoprocReceive(c: Config, t: Tx, rx: CoprocRx, slot: Slot, a: Arrival): (Tx, CoprocRx, nat, seq<Slot>)
  {
    match slot
    case Lost(_) => (t, rx, 0, [])
    case Data(frame) =>
      (match FrameCodec.Decode(frame, c.maxFrame)
       case Err(_) => (t, rx, 0, [])
       case Ok((header, payload)) =>
         var channel := header.channel;
         var tracked := Tracked(rx, channel, header.sequence);
         if !IsEthernet(channel) then (t, tracked, 0, [])
         else
           var kept := KeptUnits(payload, a);
           var back := PayloadUnits(payload) - kept;
           (t, tracked, kept,
            SendCredit(t.session, channel, Skipped(rx, channel, header.sequence), a.gapAccepted) +
            SendCredit(t.session, channel, if back > UINT32_MAX then UINT32_MAX else back, a.refundAccepted)))
    case Credit(session, channel, units) =>
      if session != t.session || UINT32_MAX - t.credit[channel] < units then (t, rx, 0, [])
      else (t.(credit := t.credit[channel := t.credit[channel] + units], congested := false), rx, 0, [])
  }

  function BatchUnits(initialCredit: uint32): nat {
    if initialCredit == 0 || initialCredit > COPROC_BATCH then COPROC_BATCH else initialCredit
  }

  /** `wlh_coproc_ethernet_rx_complete`: the last result says whether a wake job must be queued. */
  function RxComplete(t: Tx, rx: CoprocRx, session: uint32, channel: byte, units: uint32, failed: bool,
                     initialCredit: uint32): (CoprocRx, Outcome, bool)
  {
    if units == 0 || !IsEthernet(channel) then (rx, BadArgument, false)
    else if t.session == 0 || session != t.session then (rx, BadState, false)
    else
      var i := Index(channel);
      var sum := SaturatingAdd(rx.pending[i], units);
      var wake := !rx.wakeQueued && sum >= BatchUnits(initialCredit);
      (rx.(pending := rx.pending[i := sum],
           failures := if failed then SaturatingAdd(rx.failures, 1) else rx.failures,
           wakeQueued := rx.wakeQueued || wake),
       Done, wake)
  }

  function CoprocPaid(session: uint32, pending: PerInterface, accepted: InterfaceFlags, i: nat): seq<Slot>
    requires i <= 3
  {
    if i == 0 || session == 0 then []
    else CoprocPaid(session, pending, accepted, i - 1) +
         SendCredit(session, ChannelAt(i - 1), pending[i - 1], accepted[i - 1])
  }

  function CoprocUnpaid(session: uint32, pending: PerInterface, accepted: InterfaceFlags): PerInterface {
    seq(3, i requires 0 <= i < 3 => if session != 0 && accepted[i] then 0 else pending[i])
  }

  predicate CoprocKeeps(session: uint32, pending: PerInterface, accepted: InterfaceFlags, i: nat)
    requires i < 3
  {
    pending[i] != 0 && !(session != 0 && accepted[i])
  }

  /** The flush pays every interface, keeps what was refused, and asks for a retry if anything was. */
  function CoprocFlush(t: Tx, rx: CoprocRx, accepted: InterfaceFlags): (CoprocRx, bool, seq<Slot>) {
    (rx.(wakeQueued := false, failures := 0, pending := CoprocUnpaid(t.session, rx.pending, accepted)),
     exists i :: 0 <= i < 3 && CoprocKeeps(t.session, rx.pending, accepted, i),
     CoprocPaid(t.session, rx.pending, accepted, 3))
  }
}
