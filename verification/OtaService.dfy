/** The OTA machine as the code keeps it: fields updated in place, and stream payloads read out of
    a receive buffer. Every method performs exactly the step that OtaReceiver defines. */
module OtaService {
  import opened Bytes
  import opened OtaStream
  import opened OtaReceiver
  import RawRecord

  class OtaService {
    var session: uint32
    var phase: Phase
    var pending: Option<Pending>
    var transfer: uint32
    var imageSize: uint64
    var accepted: uint64
    var received: uint64
    var reported: uint64
    var nextOperation: uint32
    var nextTransfer: uint32
    ghost var log: seq<Entry>

    ghost function View(): Ota
      reads this
    {
      Ota(session, phase, pending, transfer, imageSize, accepted, received, reported, nextOperation,
          nextTransfer, log)
    }

    constructor ()
      ensures Booted(View()) && nextOperation == 1 && nextTransfer == 1 && session == 0
    {
      session, phase, pending := 0, Unspecified, None;
      transfer, imageSize, accepted, received, reported := 0, 0, 0, 0, 0;
      nextOperation, nextTransfer := 1, 1;
      log := [];
    }

    method SetPhase(next: Phase)
      modifies this`phase, this`reported, this`log
      ensures View() == Enter(old(View()), next)
    {
      if phase == next {
        return;
      }
      phase := next;
      EmitProgress();
    }

    method EmitProgress()
      modifies this`reported, this`log
      ensures View() == Emit(old(View()))
    {
      reported := received;
      log := log + [Progress(phase, received)];
    }

    ghost method Conclude(e: Entry)
      modifies this`log
      ensures View() == OtaReceiver.Log(old(View()), e)
    {
      log := log + [e];
    }

    /** `ota_begin_operation` */
    method BeginOperation(request: nat, kind: Operation) returns (operation: uint32)
      modifies this`nextOperation, this`pending
      ensures View() == Submit(old(View()), request, kind)
      ensures operation == pending.value.operation != 0
    {
      operation := nextOperation;
      nextOperation := Wrap32(nextOperation + 1);
      if operation == 0 {
        operation := nextOperation;
        nextOperation := Wrap32(nextOperation + 1);
      }
      pending := Some(Pending(operation, session, request, kind));
    }

    /** `ota_submit_result` */
    method SubmitResult(request: nat, ok: bool)
      modifies this`pending, this`log
      ensures View() == Submitted(old(View()), request, ok)
    {
      if !ok {
        pending := None;
        Conclude(Answered(request, Internal));
      }
    }

    method StartTransfer(size: uint64)
      modifies this
      ensures View() ==
              var o := old(View());
              var (id, next) := Fresh(o.nextTransfer);
              OtaReceiver.Log(o.(nextTransfer := next, transfer := id, imageSize := size,
                                 accepted := 0, received := 0, reported := 0), Began(id, size))
    {
      transfer := nextTransfer;
      nextTransfer := Wrap32(nextTransfer + 1);
      if transfer == 0 {
        transfer := nextTransfer;
        nextTransfer := Wrap32(nextTransfer + 1);
      }
      imageSize, accepted, received, reported := size, 0, 0, 0;
      Conclude(Began(transfer, size));
    }

    /** `handle_ota_begin` */
    method OnBegin(request: nat, alloc: bool, message: Option<BeginMessage>, ok: bool)
      modifies this
      ensures View() == HandleBegin(old(View()), request, alloc, message, ok)
    {
      if pending.Some? || !IsIdle(phase) {
        Conclude(Answered(request, Busy));
        return;
      }
      if !alloc || message.None? {
        Conclude(Dropped(request));
        return;
      }
      if message.value.size == 0 || message.value.digestSize != 32 {
        Conclude(Answered(request, Invalid));
        return;
      }
      StartTransfer(message.value.size);
      var operation := BeginOperation(request, Begin);
      SubmitResult(request, ok);
    }

    /** `handle_ota_finalize` */
    method OnFinalize(request: nat, of: Option<uint32>, ok: bool)
      modifies this
      ensures View() == HandleFinalize(old(View()), request, of, ok)
    {
      hide Enter;
      if of.None? {
        Conclude(Dropped(request));
        return;
      }
      if pending.Some? {
        Conclude(Answered(request, Busy));
        return;
      }
      if !phase.Receiving? {
        Conclude(Answered(request, NotReady));
        return;
      }
      if of.value != transfer {
        Conclude(Answered(request, NotFound));
        return;
      }
      var operation := BeginOperation(request, Finalize);
      SetPhase(Verifying);
      SubmitResult(request, ok);
    }

    /** `handle_ota_abort` */
    method OnAbort(request: nat, of: Option<uint32>, present: bool, ok: bool)
      modifies this
      ensures View() == HandleAbort(old(View()), request, of, present, ok)
    {
      if of.None? {
        Conclude(Dropped(request));
        return;
      }
      if pending.Some? {
        Conclude(Answered(request, Busy));
        return;
      }
      if IsIdle(phase) {
        Conclude(Answered(request, Fine));
        return;
      }
      if of.value != transfer {
        Conclude(Answered(request, NotFound));
        return;
      }
      if !present {
        SetPhase(Idle);
        transfer := 0;
        Conclude(Answered(request, Fine));
        return;
      }
      var operation := BeginOperation(request, Abort);
      SubmitResult(request, ok);
    }

    /** `handle_ota_activate` */
    method OnActivate(request: nat, of: Option<uint32>, ok: bool)
      modifies this
      ensures View() == HandleActivate(old(View()), request, of, ok)
    {
      if of.None? {
        Conclude(Dropped(request));
        return;
      }
      if pending.Some? {
        Conclude(Answered(request, Busy));
        return;
      }
      if !phase.ReadyToActivate? {
        Conclude(Answered(request, NotReady));
        return;
      }
      if of.value != transfer {
        Conclude(Answered(request, NotFound));
        return;
      }
      var operation := BeginOperation(request, Activate);
      SubmitResult(request, ok);
    }

    /** `ota_operation_completed` */
    method OnCompleted(operation: uint32, succeeded: bool)
      modifies this
      ensures View() == Completed(old(View()), operation, succeeded)
    {
      if pending.None? || operation != pending.value.operation || pending.value.session != session {
        return;
      }
      var p := pending.value;
      pending := None;
      if !succeeded {
        if !p.kind.Abort? {
          SetPhase(Failed);
        }
        Conclude(Answered(p.request, Internal));
        return;
      }
      match p.kind
      case Begin =>
        SetPhase(Receiving);
        Conclude(Answered(p.request, Fine));
      case Finalize =>
        SetPhase(ReadyToActivate);
        Conclude(Answered(p.request, Fine));
      case Abort =>
        Conclude(Answered(p.request, Fine));
        SetPhase(Idle);
        transfer, accepted, received := 0, 0, 0;
      case Activate =>
        Conclude(Answered(p.request, Fine));
    }

    /** Reads the one record of a stream payload; nothing if there is not exactly one. */
    method ReadChunk(data: array<byte>, start: nat, size: nat) returns (chunk: Option<Chunk>)
      requires start + size <= data.Length
      ensures chunk == Read(data[start..start + size])
    {
      hide RawRecord.Next, GetU16, GetU32, GetU64;
      ghost var payload := data[start..start + size];
      RawRecord.NextInBounds(payload, 0);
      var it := new RawRecord.Iterator(data, start, size);
      var record := it.Advance();
      if !record.View? || record.kind != RECORD_TYPE || record.size < SUB_HEADER {
        return None;
      }
      var extra := it.Advance();
      if extra != RawRecord.End {
        return None;
      }
      var bytes := data[start + record.at..start + record.at + record.size];
      SliceOfSlice(data[..], start, start + size, record.at, record.at + record.size);
      if GetU16(bytes, 12) != record.size - SUB_HEADER {
        return None;
      }
      chunk := Some(Chunk(GetU32(bytes, 0), GetU64(bytes, 4), bytes[SUB_HEADER..]));
    }

    /** Whether a chunk is the next piece of the transfer. */
    predicate Takes(c: Chunk)
      reads this
      ensures Takes(c) <==> Acceptable(View(), c)
    {
      var size := |c.data|;
      !(!phase.Receiving? || c.transfer != transfer || size == 0 || size > CHUNK_SIZE || c.offset != accepted ||
        c.offset > imageSize || size > imageSize - c.offset) &&
      var last := c.offset + size == imageSize;
      !(c.offset % ALIGNMENT != 0 || (!last && size % ALIGNMENT != 0))
    }

    /** `process_ota_frame`: `writes` is the backend's answer if it is asked to write. */
    method OnFrame(data: array<byte>, start: nat, size: nat, writes: bool) returns (returned: bool)
      requires start + size <= data.Length
      modifies this
      ensures (View(), returned) == HandleFrame(old(View()), data[start..start + size], writes)
    {
      hide Read, Enter;
      var chunk := ReadChunk(data, start, size);
      if chunk.None? || !Takes(chunk.value) {
        if phase.Receiving? || phase.Verifying? {
          SetPhase(Failed);
        }
        return true;
      }
      if !writes {
        SetPhase(Failed);
        return true;
      }
      accepted := accepted + |chunk.value.data|;
      Conclude(Accepted(chunk.value));
      returned := false;
    }

    /** `ota_write_completed`; the credit of the chunk goes back in any case. */
    method OnWritten(of: uint32, bytes: uint64, succeeded: bool)
      modifies this
      ensures View() == WriteDone(old(View()), of, bytes, succeeded)
    {
      if of != transfer || !phase.Receiving? {
        return;
      }
      if !succeeded {
        SetPhase(Failed);
        return;
      }
      if bytes > received {
        received := bytes;
      }
      if received == imageSize || (received as int - reported) % 0x1_0000_0000_0000_0000 >= PROGRESS_INTERVAL {
        EmitProgress();
      }
    }

    /** `ota_reset`, when a new Hello opens a session. */
    method OnReset(next: uint32)
      modifies this
      ensures View() == Reset(old(View()), next)
    {
      if pending.Some? {
        Conclude(Dropped(pending.value.request));
      }
      session, phase, pending := next, Idle, None;
      transfer, imageSize, accepted, received, reported := 0, 0, 0, 0, 0;
    }

    method Handle(e: Event)
      modifies this
      ensures View() == Step(old(View()), e)
    {
      hide HandleBegin, HandleFinalize, HandleAbort, HandleActivate, Completed, HandleFrame, WriteDone, Reset;
      match e
      case Begins(request, alloc, message, ok) => OnBegin(request, alloc, message, ok);
      case Finalizes(request, of, ok) => OnFinalize(request, of, ok);
      case Aborts(request, of, present, ok) => OnAbort(request, of, present, ok);
      case Activates(request, of, ok) => OnActivate(request, of, ok);
      case Queries(request) => Conclude(Answered(request, Fine));
      case Completes(operation, succeeded) => OnCompleted(operation, succeeded);
      case Streams(payload, writes) =>
        var data := new byte[|payload|](k requires 0 <= k < |payload| => payload[k]);
        assert data[0..|payload|] == payload;
        var _ := OnFrame(data, 0, |payload|, writes);
      case Writes(of, bytes, succeeded) => OnWritten(of, bytes, succeeded);
      case Resets(next) => OnReset(next);
    }

    /** The service over any run from boot: the writes it got the backend to accept are contiguous
        prefixes of their images. */
    method Serve(events: seq<Event>)
      requires Booted(View())
      modifies this
      ensures View() == Run(old(View()), events)
      ensures Contiguous(log)
      ensures phase.Receiving? ==> |At(log).image| == accepted <= imageSize
    {
      hide Step, Contiguous, At;
      PrefixIntegrity(View(), events);
      assert events[0..] == events;
      var i := 0;
      while i < |events|
        invariant i <= |events|
        invariant Run(View(), events[i..]) == Run(old(View()), events)
      {
        assert events[i..][0] == events[i] && events[i..][1..] == events[i + 1..];
        Handle(events[i]);
        i := i + 1;
      }
      assert events[|events|..] == [];
    }
  }
}
