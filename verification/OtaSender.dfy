/** The Host's OTA stream sender (`wlh_host_ota_stream_send`): a reservation against the stream
    credit, and a record laid out in place in front of the worker queue. */
module OtaSender {
  import opened Bytes
  import opened OtaStream
  import RawRecord

  datatype Sending = Queued | Rejected | NotSupported | NoCredit | NoMemory | QueueFull

  /** Sub-header and data written behind the space for the record header. */
  method WriteChunk(job: array<byte>, c: Chunk)
    requires job.Length == RawRecord.HEADER_SIZE + SUB_HEADER + |c.data|
    modifies job
    ensures job[RawRecord.HEADER_SIZE..] == SubHeader(c) + c.data
  {
    hide PutU16, PutU32;
    var o := RawRecord.HEADER_SIZE;
    WriteU32(job, o, c.transfer);
    WriteU32(job, o + 4, c.offset % 0x1_0000_0000);
    WriteU32(job, o + 8, c.offset / 0x1_0000_0000);
    WriteU16(job, o + 12, |c.data|);
    WriteU16(job, o + 14, 0);
    forall k | 0 <= k < |c.data| {
      job[o + SUB_HEADER + k] := c.data[k];
    }
    SubHeaderLaid(job[..], c);
    assert job[..][o..] == job[o..];
  }

  lemma SubHeaderLaid(job: seq<byte>, c: Chunk)
    requires |job| == RawRecord.HEADER_SIZE + SUB_HEADER + |c.data|
    requires Holds(job, 8, PutU32(c.transfer)) && Holds(job, 12, PutU32(c.offset % 0x1_0000_0000))
    requires Holds(job, 16, PutU32(c.offset / 0x1_0000_0000))
    requires Holds(job, 20, PutU16(|c.data|)) && Holds(job, 22, PutU16(0))
    requires forall k :: 0 <= k < |c.data| ==> job[24 + k] == c.data[k]
    ensures job[RawRecord.HEADER_SIZE..] == SubHeader(c) + c.data
  {
    hide PutU16, PutU32;
    var whole := SubHeader(c) + c.data;
    forall k | 0 <= k < SUB_HEADER + |c.data|
      ensures job[8 + k] == whole[k]
    {
      if 4 <= k < 8 {
        assert job[12 + (k - 4)] == PutU32(c.offset % 0x1_0000_0000)[k - 4];
      } else if 8 <= k < 12 {
        assert job[16 + (k - 8)] == PutU32(c.offset / 0x1_0000_0000)[k - 8];
      } else if 12 <= k < 14 {
        assert job[20 + (k - 12)] == PutU16(|c.data|)[k - 12];
      } else if 14 <= k < 16 {
        assert job[22 + (k - 14)] == PutU16(0)[k - 14];
      } else if 16 <= k {
        assert job[24 + (k - 16)] == c.data[k - 16];
      }
    }
  }

  class StreamSender {
    var credit: uint32
    var inflight: uint32
    var supported: bool
    var limit: uint32
    var queue: seq<seq<byte>>

    constructor (credit: uint32, limit: uint32)
      ensures this.credit == credit && this.limit == limit
      ensures supported && inflight == 0 && queue == []
    {
      this.credit, this.limit, inflight, supported, queue := credit, limit, 0, true, [];
    }

    method Release()
      modifies this`inflight
      ensures inflight == if old(inflight) > 0 then old(inflight) - 1 else 0
    {
      if inflight > 0 {
        inflight := inflight - 1;
      }
    }

    /** What the sender answers, as the arguments and the state decide it. */
    function Answer(transfer: uint32, size: nat, alloc: bool, room: bool): Sending
      reads this
    {
      if size == 0 || size > 0xffff || transfer == 0 then Rejected
      else if !supported then NotSupported
      else if size + SUB_HEADER > limit then Rejected
      else if credit <= inflight then NoCredit
      else if !alloc then NoMemory
      else if !room then QueueFull
      else Queued
    }

    /** `wlh_host_ota_stream_send`. The record header is encoded over a payload already in place in
        the same buffer. */
    method StreamSend(transfer: uint32, offset: uint64, data: array<byte>, size: nat, alloc: bool, room: bool)
      returns (result: Sending)
      requires size <= data.Length
      modifies this`inflight, this`queue
      ensures result == old(Answer(transfer, size, alloc, room))
      ensures result == Queued ==>
                && inflight == old(inflight) + 1
                && queue == old(queue) + [Written(Chunk(transfer, offset, old(data[..size])))]
      ensures result != Queued ==> inflight == old(inflight) && queue == old(queue)
    {
      if size == 0 || size > 0xffff || transfer == 0 {
        return Rejected;
      }
      if !supported {
        return NotSupported;
      }
      if size + SUB_HEADER > limit {
        return Rejected;
      }
      if credit <= inflight {
        return NoCredit;
      }
      inflight := inflight + 1;
      if !alloc {
        Release();
        return NoMemory;
      }
      var c := Chunk(transfer, offset, data[..size]);
      var record := BuildRecord(c);
      if !room {
        Release();
        return QueueFull;
      }
      queue := queue + [record];
      result := Queued;
    }

    method BuildRecord(c: Chunk) returns (record: seq<byte>)
      ensures record == Written(c)
    {
      hide SubHeader, RawRecord.Header;
      var n := SUB_HEADER + |c.data|;
      var job := new byte[RawRecord.HEADER_SIZE + n](_ => 0);
      WriteChunk(job, c);
      ghost var before := job[..];
      var encoded := RawRecord.EncodeInto(job, 0, job.Length, RECORD_TYPE, 0, job, RawRecord.HEADER_SIZE, n);
      assert RawRecord.MovedPayload(before, 0, RawRecord.Header(RECORD_TYPE, 0, n), RawRecord.HEADER_SIZE, n) ==
        before[RawRecord.HEADER_SIZE..] == SubHeader(c) + c.data;
      record := job[..];
      TwoParts(record, RawRecord.HEADER_SIZE);
    }
  }
}
