/** The credit protocol of one negotiated session: two endpoints, two FIFO wires, the records the
    Coprocessor's backend holds, and a book of what the transport and refused sends took away. */
module CreditProtocol {
  import opened Bytes
  import opened Aggregation
  import opened LinkState
  import opened Wire

  /** What is fixed for the session. `grants` are the Hello credits of the three interfaces. */
  datatype Link = Link(
    host: Config,
    coproc: Config,
    session: uint32,
    grants: PerInterface,
    initialCredit: uint32)

  ghost predicate LinkOk(link: Link) {
    link.session != 0 && link.host.side.HostSide? && link.coproc.side.CoprocSide?
  }

  /** The history of one interface. `gone` counts the places that left the wire to the Coprocessor;
      `missed` of them were lost since the last frame received; `held` records are with the
      backend. The rest is credit that no longer circulates: places lost before the first frame of
      the session was received, units of a lost frame beyond its first record, CreditUpdates
      refused or lost, and gaps the receiver's 31-bit test took for reordering. `down` is what the
      other direction lost. */
  datatype Book = Book(
    gone: nat,
    missed: nat,
    held: nat,
    early: nat,
    extra: nat,
    refused: nat,
    wrapped: int,
    down: nat)

  type Books = s: seq<Book> | |s| == 3
    witness [Book(0, 0, 0, 0, 0, 0, 0, 0), Book(0, 0, 0, 0, 0, 0, 0, 0), Book(0, 0, 0, 0, 0, 0, 0, 0)]

  /** `hostOwned` and `coprocOwned` are the data frames the transport has taken and not completed. */
  datatype Sys = Sys(
    host: Tx,
    hostRx: HostRx,
    hostOwned: seq<seq<byte>>,
    coproc: Tx,
    coprocRx: CoprocRx,
    coprocOwned: seq<seq<byte>>,
    up: seq<Slot>,
    down: seq<Slot>,
    books: Books)

  datatype Move =
    | HostAdmits(interface: nat, payload: seq<byte>, alloc: bool, locked: bool)
    | HostQueues(id: nat)
    | HostWorks(canExpand: bool, send: Send)
    | HostTakes(now: nat)
    | HostFlushes(accepted: InterfaceFlags, now: nat)
    | HostSendsDone(at: nat, status: int)
    | CoprocAdmits(interface: nat, payload: seq<byte>, alloc: bool)
    | CoprocQueues(id: nat)
    | CoprocWorks(canExpand: bool, send: Send)
    | CoprocTakes(arrival: Arrival)
    | CoprocFlushes(accepted: InterfaceFlags)
    | CoprocSendsDone(at: nat, status: int)
    | BackendCompletes(interface: nat, units: uint32, failed: bool)
    | UpDrops(at: nat)
    | DownDrops(at: nat)

  // ---------------------------------------------------------------------------------------
  // Transmit steps
  // ---------------------------------------------------------------------------------------

  function Admit(c: Config, t: Tx, interface: nat, payload: seq<byte>, alloc: bool, locked: bool): Tx {
    AdmitRecord(c, t, ChannelAt(interface), payload, alloc, locked).0
  }

  /** Any other job: control traffic, completions, wakes. */
  function Queue(c: Config, t: Tx, id: nat): Tx {
    if |t.queue| >= c.queueDepth then t else t.(queue := t.queue + [Other(id)])
  }

  function FramesOf(out: seq<Slot>): (frames: seq<seq<byte>>)
    ensures |frames| <= |out|
  {
    if |out| == 0 then [] else (if out[0].Data? then [out[0].frame] else []) + FramesOf(out[1..])
  }

  function HostWork(link: Link, s: Sys, canExpand: bool, send: Send): Sys {
    var (t, _, out) := Work(link.host, s.host, canExpand, send);
    s.(host := t, up := s.up + out, hostOwned := s.hostOwned + FramesOf(out))
  }

  function CoprocWork(link: Link, s: Sys, canExpand: bool, send: Send): Sys {
    var (t, _, out) := Work(link.coproc, s.coproc, canExpand, send);
    s.(coproc := t, down := s.down + out, coprocOwned := s.coprocOwned + FramesOf(out))
  }

  // ---------------------------------------------------------------------------------------
  // Receive steps
  // ---------------------------------------------------------------------------------------

  predicate WithinLimit(slot: Slot, limit: nat) {
    slot.Data? ==> |slot.frame| <= limit
  }

  /** The interface whose place a slot takes, and the records it carries. */
  function PlaceOf(slot: Slot): (i: nat)
    ensures i < 3
  {
    match slot
    case Data(frame) => (match ChannelOf(frame) case Some(channel) => Index(channel) case None => 0)
    case Lost(channel) => Index(channel)
    case Credit(_, channel, _) => Index(channel)
  }

  function RecordsIn(slot: Slot): nat {
    if slot.Data? then UnitsOf(slot.frame) else 1
  }

  /** A place that leaves the wire without being received. */
  function Missed(b: Book, valid: bool, records: nat): Book {
    var lost := b.(gone := b.gone + 1, extra := b.extra + (if records == 0 then 0 else records - 1));
    if valid then lost.(missed := b.missed + 1) else lost.(early := b.early + 1)
  }

  /** A frame received: the gap before it is refunded by `skipped` units, and the records the
      backend did not keep by `back` units, if the two CreditUpdates are accepted. */
  function Received(b: Book, skipped: nat, kept: nat, back: nat, a: Arrival): Book {
    b.(gone := b.gone + 1, missed := 0, held := b.held + kept,
       wrapped := b.wrapped + b.missed - skipped,
       refused := b.refused + (if a.gapAccepted then 0 else skipped) + (if a.refundAccepted then 0 else back))
  }

  function CoprocTakesFrame(link: Link, s: Sys, a: Arrival): Books
    requires |s.up| > 0
  {
    if !s.up[0].Data? then s.books
    else
      match Contents(s.up[0].frame)
      case None => s.books
      case Some((header, payload)) =>
        if !IsEthernet(header.channel) then s.books
        else
          var i := Index(header.channel);
          var kept := KeptUnits(payload, a);
          s.books[i := Received(s.books[i], Skipped(s.coprocRx, header.channel, header.sequence), kept,
                                PayloadUnits(payload) - kept, a)]
  }

  function CoprocTake(link: Link, s: Sys, a: Arrival): Sys {
    if |s.up| == 0 then s
    else if s.up[0].Lost? || !WithinLimit(s.up[0], link.coproc.maxFrame) then
      var i := PlaceOf(s.up[0]);
      s.(up := s.up[1..],
         books := s.books[i := Missed(s.books[i], s.coprocRx.valid[ChannelAt(i)], RecordsIn(s.up[0]))])
    else
      var (t, rx, _, out) := CoprocReceive(link.coproc, s.coproc, s.coprocRx, s.up[0], a);
      s.(coproc := t, coprocRx := rx, up := s.up[1..], down := s.down + out, books := CoprocTakesFrame(link, s, a))
  }

  function HostTake(link: Link, s: Sys, now: nat): Sys {
    if |s.down| == 0 then s
    else if !WithinLimit(s.down[0], link.host.maxFrame) then
      var i := PlaceOf(s.down[0]);
      s.(down := s.down[1..], books := s.books[i := s.books[i].(down := s.books[i].down + RecordsIn(s.down[0]))])
    else
      var (t, rx) := HostReceive(link.host, s.host, s.hostRx, s.down[0], now);
      s.(host := t, hostRx := rx, down := s.down[1..])
  }

  // ---------------------------------------------------------------------------------------
  // Refunds, completions, losses
  // ---------------------------------------------------------------------------------------

  function HostPay(s: Sys, accepted: InterfaceFlags, now: nat): Sys {
    var (rx, _, out) := HostFlush(s.host, s.hostRx, accepted, now);
    s.(hostRx := rx, up := s.up + out)
  }

  function CoprocPay(s: Sys, accepted: InterfaceFlags): Sys {
    var (rx, _, out) := CoprocFlush(s.coproc, s.coprocRx, accepted);
    s.(coprocRx := rx, down := s.down + out)
  }

  /** The backend completes records it holds, and never more. A wake that falls due is queued by a
      step of its own, after the mutex has been released. */
  function Completion(link: Link, s: Sys, interface: nat, units: uint32, failed: bool): Sys {
    var i := Index(ChannelAt(interface));
    if s.books[i].held < units then s
    else
      var (rx, outcome, _) :=
        RxComplete(s.coproc, s.coprocRx, link.session, ChannelAt(i), units, failed, link.initialCredit);
      if !outcome.Done? then s
      else s.(coprocRx := rx, books := s.books[i := s.books[i].(held := s.books[i].held - units)])
  }

  function UpDrop(s: Sys, k: nat): Sys {
    if k >= |s.up| then s
    else
      var i := PlaceOf(s.up[k]);
      match s.up[k]
      case Lost(_) => s
      case Data(_) =>
        var records := RecordsIn(s.up[k]);
        s.(up := s.up[k := Lost(ChannelAt(i))],
           books := s.books[i := s.books[i].(extra := s.books[i].extra + if records == 0 then 0 else records - 1)])
      case Credit(_, _, units) =>
        s.(up := s.up[..k] + s.up[k + 1..], books := s.books[i := s.books[i].(down := s.books[i].down + units)])
  }

  function DownDrop(s: Sys, k: nat): Sys {
    if k >= |s.down| then s
    else
      var i := PlaceOf(s.down[k]);
      var rest := s.down[..k] + s.down[k + 1..];
      match s.down[k]
      case Lost(_) => s
      case Data(_) =>
        s.(down := rest, books := s.books[i := s.books[i].(down := s.books[i].down + RecordsIn(s.down[k]))])
      case Credit(_, _, units) =>
        s.(down := rest, books := s.books[i := s.books[i].(refused := s.books[i].refused + units)])
  }

  function After(link: Link, s: Sys, m: Move): Sys {
    match m
    case HostAdmits(i, payload, alloc, locked) => s.(host := Admit(link.host, s.host, i, payload, alloc, locked))
    case HostQueues(id) => s.(host := Queue(link.host, s.host, id))
    case HostWorks(canExpand, send) => HostWork(link, s, canExpand, send)
    case HostTakes(now) => HostTake(link, s, now)
    case HostFlushes(accepted, now) => HostPay(s, accepted, now)
    case HostSendsDone(k, status) =>
      if k >= |s.hostOwned| then s
      else
        s.(hostOwned := s.hostOwned[..k] + s.hostOwned[k + 1..],
           host := SendDone(link.host, s.host, s.hostOwned[k], status))
    case CoprocAdmits(i, payload, alloc) => s.(coproc := Admit(link.coproc, s.coproc, i, payload, alloc, true))
    case CoprocQueues(id) => s.(coproc := Queue(link.coproc, s.coproc, id))
    case CoprocWorks(canExpand, send) => CoprocWork(link, s, canExpand, send)
    case CoprocTakes(arrival) => CoprocTake(link, s, arrival)
    case CoprocFlushes(accepted) => CoprocPay(s, accepted)
    case CoprocSendsDone(k, status) =>
      if k >= |s.coprocOwned| then s
      else
        s.(coprocOwned := s.coprocOwned[..k] + s.coprocOwned[k + 1..],
           coproc := SendDone(link.coproc, s.coproc, s.coprocOwned[k], status))
    case BackendCompletes(i, units, failed) => Completion(link, s, i, units, failed)
    case UpDrops(k) => UpDrop(s, k)
    case DownDrops(k) => DownDrop(s, k)
  }

  function Reached(link: Link, s: Sys, moves: seq<Move>): Sys
    decreases |moves|
  {
    if |moves| == 0 then s else Reached(link, After(link, s, moves[0]), moves[1..])
  }

  /** The session as the Hello exchange leaves it. Jobs of an earlier session may still be queued. */
  ghost predicate Opened(link: Link, s: Sys) {
    && s.host.session == s.coproc.session == link.session
    && s.hostRx.pending == [0, 0, 0]
    && s.coprocRx.pending == [0, 0, 0]
    && s.up == [] && s.down == []
    && forall i :: 0 <= i < 3 ==>
         && s.host.credit[ChannelAt(i)] == link.grants[i]
         && s.coproc.credit[ChannelAt(i)] == link.grants[i]
         && !s.coprocRx.valid[ChannelAt(i)]
         && s.books[i] == Book(s.host.sequence[ChannelAt(i)], 0, 0, 0, 0, 0, 0, 0)
  }
}
