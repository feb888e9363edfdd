/** The transmit half of an endpoint as the code keeps it: tables updated in place, a queue, and a
    worker that merges queued records into a growing buffer. Every method performs exactly the
    step that LinkState defines. */
module Sender {
  import opened Bytes
  import opened Aggregation
  import opened LinkState
  import FrameCodec
  import RawRecord

  class Sender {
    const config: Config
    var session: uint32
    const credit: array<uint32>
    const sequence: array<uint32>
    const queued: array<uint32>
    var slots: nat
    var queue: seq<Job>
    var deferred: Option<Job>
    var congested: bool
    ghost var submitted: seq<Slot>

    ghost predicate Valid() {
      && credit.Length == CHANNELS && sequence.Length == CHANNELS && queued.Length == 3
      && credit != sequence && credit != queued && sequence != queued
    }

    ghost function View(): Tx
      requires Valid()
      reads this, credit, sequence, queued
    {
      Tx(session, credit[..], sequence[..], queued[..], slots, queue, deferred, congested)
    }

    constructor (config: Config)
      ensures Valid() && fresh(credit) && fresh(sequence) && fresh(queued)
      ensures this.config == config && submitted == []
      ensures session == 0 && slots == config.slotDepth && queue == [] && deferred == None && !congested
      ensures forall k :: 0 <= k < CHANNELS ==> credit[k] == 0 && sequence[k] == 0
      ensures queued[0] == queued[1] == queued[2] == 0
    {
      this.config := config;
      session, slots, queue, deferred, congested := 0, config.slotDepth, [], None, false;
      submitted := [];
      credit := new uint32[CHANNELS](_ => 0);
      sequence := new uint32[CHANNELS](_ => 0);
      queued := new uint32[3](_ => 0);
    }

    /** `send_payload_frame_units` (Host) and `send_payload_units` (Coprocessor). */
    method SendPayload(channel: byte, payload: array<byte>, size: nat, reserved: bool, units: nat, env: Send)
      returns (outcome: Outcome)
      requires Valid() && size <= payload.Length
      modifies this, credit, sequence
      ensures (View(), outcome, submitted) ==
              var (t, o, out) := SendFrame(config, old(View()), channel, old(payload[..size]), reserved, units, env);
              (t, o, old(submitted) + out)
    {
      hide FrameCodec.Encode;
      assert submitted + [] == submitted;
      if FrameCodec.HEADER_SIZE + size > config.maxFrame || size > FrameCodec.MAX_PAYLOAD || units == 0 {
        return BadArgument;
      }
      if !reserved && credit[channel] < units {
        congested := true;
        return NoCredit;
      }
      if !env.alloc {
        return NoMemory;
      }
      var frame := new byte[FrameCodec.HEADER_SIZE + size](_ => 0);
      var header := FrameCodec.NewHeader(channel, session, sequence[channel]);
      var encoded := FrameCodec.EncodeInto(frame, 0, frame.Length, header, payload, 0, size);
      assert payload[0..size] == payload[..size];
      EncodeFits(header, payload[..size]);
      if encoded.Err? {
        return Malformed;
      }
      if !env.submit {
        return Refused;
      }
      assert frame[0..FrameCodec.HEADER_SIZE + size] == frame[..];
      submitted := submitted + [Data(frame[..])];
      sequence[channel] := Wrap32(sequence[channel] as int + 1);
      if !reserved {
        credit[channel] := credit[channel] - units;
      }
      assert sequence[..] == old(sequence[..])[channel := Wrap32(old(sequence[channel]) as int + 1)];
      assert credit[..] == old(credit[..])[channel := credit[channel]];
      outcome := Done;
    }

    /** A CreditUpdate rides the link channel, which is never charged. */
    method SendCreditUpdate(channel: byte, units: uint32, accepted: bool) returns (ok: bool)
      requires Valid()
      modifies this`submitted
      ensures submitted == old(submitted) + SendCredit(session, channel, units, accepted)
      ensures ok == (units == 0 || accepted)
    {
      if units == 0 {
        return true;
      }
      if accepted {
        submitted := submitted + [Credit(session, channel, units)];
      }
      ok := accepted;
    }

    /** `ethernet_send` of either side. */
    method EthernetSend(channel: byte, frame: array<byte>, size: nat, alloc: bool, locked: bool)
      returns (outcome: Outcome)
      requires Valid() && size <= frame.Length
      modifies this`slots, this`queue, queued
      ensures (View(), outcome) ==
              AdmitRecord(config, old(View()), channel, old(frame[..size]), alloc, locked)
    {
      hide RawRecord.Header;
      if !Admissible(config.side, size) {
        return BadArgument;
      }
      if slots == 0 {
        return NoSlot;
      }
      slots := slots - 1;
      if !alloc {
        slots := slots + 1;
        return NoMemory;
      }
      var record := BuildRecord(frame, size);
      if config.side.HostSide? && !locked {
        slots := slots + 1;
        return NoSlot;
      }
      var i := Index(channel);
      if config.side.HostSide? && credit[channel] <= queued[i] {
        slots := slots + 1;
        return NoCredit;
      }
      if |queue| >= config.queueDepth {
        slots := slots + 1;
        return if config.side.HostSide? then NoCredit else NoMemory;
      }
      queue := queue + [EthernetTx(channel, record)];
      if config.side.HostSide? {
        queued[i] := Wrap32(queued[i] + 1);
        assert queued[..] == old(queued[..])[i := queued[i]];
      }
      outcome := Done;
    }

    /** `aggregate_ethernet_jobs`: the buffer grows once, to the payload capacity, when the first
        follower joins. Each merged job gives its slot back and leaves the queued counter. */
    method AggregateJobs(first: Job, canExpand: bool) returns (data: array<byte>, size: nat, units: nat)
      requires Valid() && deferred == None && first.EthernetTx?
      modifies this`slots, this`queue, this`deferred, queued
      ensures Valid() && fresh(data) && size <= data.Length
      ensures Batch(data[..size], units, deferred, queue) ==
              Aggregate(MergeOf(config, canExpand), first, old(queue))
      ensures 1 <= units && slots == old(slots) + (units - 1)
      ensures var i := Index(first.channel);
              queued[..] == if config.side.HostSide?
                            then old(queued[..])[i := Less(old(queued[i]), units - 1)]
                            else old(queued[..])
    {
      hide Gather;
      var m := MergeOf(config, canExpand);
      ghost var whole := Aggregate(m, first, queue);
      var i := Index(first.channel);
      data := new byte[|first.record|](k requires 0 <= k < |first.record| => first.record[k]);
      size, units := |first.record|, 1;
      assert data[..size] == first.record;
      assert queued[..] == old(queued[..])[i := Less(queued[i], 0)];
      while MayMerge(m.side, m.limit, units) && deferred.None? && |queue| > 0
        invariant Valid() && fresh(data) && size <= data.Length && 1 <= units
        invariant deferred.None? ==> whole == Gather(m, first.channel, data[..size], data.Length, units, queue)
        invariant deferred.Some? ==> whole == Batch(data[..size], units, deferred, queue)
        invariant slots == old(slots) + (units - 1)
        invariant queued[..] == if config.side.HostSide?
                                then old(queued[..])[i := Less(old(queued[i]), units - 1)]
                                else old(queued[..])
        decreases |queue|
      {
        GatherStep(m, first.channel, data[..size], data.Length, units, queue);
        var next := queue[0];
        queue := queue[1..];
        if !Fits(m, first.channel, size, next) || (data.Length < m.capacity && !canExpand) {
          deferred := Some(next);
        } else {
          data := Expand(data, size, m.capacity);
          AppendRecord(data, size, next.record);
          size := size + |next.record|;
          units := units + 1;
          slots := slots + 1;
          if config.side.HostSide? && queued[i] > 0 {
            queued[i] := queued[i] - 1;
          }
        }
      }
      GatherEnds(m, first.channel, data[..size], data.Length, units, queue);
    }

    /** One iteration of the worker loop over the transmit queue. */
    method WorkerIteration(canExpand: bool, env: Send) returns (outcome: Outcome)
      requires Valid()
      modifies this, credit, sequence, queued
      ensures Valid()
      ensures (View(), outcome, submitted) ==
              var (t, o, out) := Work(config, old(View()), canExpand, env);
              (t, o, old(submitted) + out)
    {
      hide SendFrame, Aggregate, Deferred, Backlog;
      WaitingFront(View());
      assert submitted + [] == submitted;
      if deferred.None? && |queue| == 0 {
        return Done;
      }
      var job: Job;
      if deferred.Some? {
        job, deferred := deferred.value, None;
      } else {
        job, queue := queue[0], queue[1..];
      }
      if job.Other? {
        return Done;
      }
      var i := Index(job.channel);
      var data, size, units := AggregateJobs(job, canExpand);
      ghost var merged := queued[..];
      if config.side.HostSide? && queued[i] > 0 {
        queued[i] := queued[i] - 1;
      }
      assert queued[..] == if config.side.HostSide? then old(queued[..])[i := Less(old(queued[i]), units)] else merged;
      assert (View(), Batch(data[..size], units, deferred, queue)) == TakeBatch(config, old(View()), canExpand);
      outcome := SendPayload(job.channel, data, size, false, units, env);
      if outcome != Done {
        slots := slots + 1;
      }
    }

    /** `tx_complete` */
    method TxComplete(frame: array<byte>, size: nat, status: int)
      requires Valid() && size <= frame.Length
      modifies this`slots, this`queue
      ensures View() == SendDone(config, old(View()), frame[..size], status)
    {
      if size >= FrameCodec.HEADER_SIZE && (frame[4] == STA || frame[4] == AP || frame[4] == ETH) {
        slots := slots + 1;
      }
      if status != 0 && (config.side.HostSide? || status != TX_CANCELLED) && |queue| < config.queueDepth {
        queue := queue + [Other(TRANSPORT_FAILED)];
      }
    }
  }

  lemma WaitingFront(t: Tx)
    ensures t.deferred.None? && |t.queue| == 0 <==> |Backlog(t)| == 0
    ensures t.deferred.None? && |t.queue| > 0 ==> Backlog(t)[0] == t.queue[0] && Backlog(t)[1..] == t.queue[1..]
    ensures t.deferred.Some? ==> Backlog(t)[0] == t.deferred.value && Backlog(t)[1..] == t.queue
  {
  }

  /** One Ethernet frame behind its record header. */
  method BuildRecord(frame: array<byte>, size: nat) returns (record: seq<byte>)
    requires size <= frame.Length && size <= UINT32_MAX
    ensures record == RawRecord.Header(1, 0, size) + frame[..size]
  {
    hide RawRecord.Header;
    var job := new byte[RawRecord.HEADER_SIZE + size](_ => 0);
    var encoded := RawRecord.EncodeInto(job, 0, job.Length, 1, 0, frame, 0, size);
    record := job[..];
    TwoParts(record, RawRecord.HEADER_SIZE);
  }

  /** The one buffer expansion: to the payload capacity, keeping what was gathered. */
  method Expand(data: array<byte>, size: nat, capacity: nat) returns (room: array<byte>)
    requires size <= data.Length
    ensures room == data || fresh(room)
    ensures room.Length == (if data.Length < capacity then capacity else data.Length)
    ensures room[..size] == data[..size]
  {
    room := data;
    if data.Length < capacity {
      room := new byte[capacity](_ => 0);
      MoveBytes(room, 0, data, 0, size);
      assert room[..size] == room[0..size] && data[0..size] == data[..size];
    }
  }

  method AppendRecord(data: array<byte>, size: nat, record: seq<byte>)
    requires size + |record| <= data.Length
    modifies data
    ensures data[..size + |record|] == old(data[..size]) + record
  {
    forall k | 0 <= k < |record| {
      data[size + k] := record[k];
    }
  }

  /** One round of the merge loop, and its end. */
  lemma GatherStep(m: Merge, channel: byte, payload: seq<byte>, room: nat, units: nat, queue: seq<Job>)
    requires MayMerge(m.side, m.limit, units) && |queue| > 0
    ensures Gather(m, channel, payload, room, units, queue) ==
            if !Fits(m, channel, |payload|, queue[0]) || (room < m.capacity && !m.canExpand)
            then Batch(payload, units, Some(queue[0]), queue[1..])
            else Gather(m, channel, payload + queue[0].record, if room < m.capacity then m.capacity else room,
                        units + 1, queue[1..])
  {
  }

  lemma GatherEnds(m: Merge, channel: byte, payload: seq<byte>, room: nat, units: nat, queue: seq<Job>)
    ensures !MayMerge(m.side, m.limit, units) || |queue| == 0 ==>
              Gather(m, channel, payload, room, units, queue) == Batch(payload, units, None, queue)
  {
  }

  lemma EncodeFits(h: FrameCodec.FrameHeader, payload: seq<byte>)
    requires |payload| <= FrameCodec.MAX_PAYLOAD
    ensures var encoded := FrameCodec.Encode(h, payload);
            encoded.Ok? ==> |encoded.value| == FrameCodec.HEADER_SIZE + |payload|
  {
  }
}
