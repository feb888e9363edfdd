# WL-hosted link: a verified model

WL-hosted connects a Host runtime and a Coprocessor runtime over a framed, credit-controlled
link. This project models the parts of it that carry the protocol and proves what they are for:

* **Wire formats** (`Bytes`, `Checksum`, `RawRecord`, `FrameCodec`, `RpcCodec`, `WireFormat`,
  `Corruption`): the 24-byte frame header, the 16-byte RPC envelope and the raw records over byte
  arrays and field by field, SUM32, and the bitwise CRC-32C of RFC 3720 section 12.1, shown to be the
  remainder on division by its polynomial (`CrcPolynomial`, `CrcVectors`).
* **Aggregation** (`Aggregation`, `Refinement`): the worker queue with its deferred slot, the
  merging of queued Ethernet records into one frame for both endpoints' readings of the limit, and
  when that refines one record per frame on the wire and in the credit charged.
* **The credit protocol** (`LinkState`, `Session`, `Wire`, `Transmit`, `CreditProtocol`,
  `CreditInvariant`, `CreditTheorems`, `Lossless`, `CreditExamples`, `Reservation`, `Wakeup`,
  `EndToEnd`, `BackendHeld`, `Limits`, `LinkLaws`): two endpoints, two FIFO wires and the backend as a step system; every run of it
  keeps an exact balance per interface and direction, and delivers in order what it admitted, less
  exactly what was refused or lost.
* **The endpoints in code** (`Sender`, `Receiver`, `HostTimer`): classes with tables updated in
  place, buffers and loops, whose methods are proved to perform exactly the steps of `LinkState`
  (and `HostRpc`) that the step systems are built from.
* **OTA** (`OtaStream`, `OtaReceiver`, `OtaAnswers`, `OtaLaws`, `OtaService`, `OtaSender`,
  `OtaPacing`), the **credit gate** of HCI and OTA senders (`CreditGate`), **RPC completion and the
  worker's timer** (`HostRpc`, `RpcLife`, `HostTimer`), the **Bluetooth lifecycle and HCI credit**
  (`Bluetooth`, `BluetoothLaws`, `HciPacing`), and the **UTF-8 check** of RFC 3629 sections 3 and 4 (`Utf8`).

## How it is modelled

* Integers are mathematical; 32- and 64-bit wrap-around, saturation and the 31-bit sequence
  comparison are written out where the code has them. Time is a natural number of milliseconds.
* Allocators, queues, the transport, the executor and backends are parameters of every step, so
  each theorem covers every combination of their successes and failures. The state mutex is step
  atomicity. Protobuf messages (CreditUpdate, Hello, OTA and Bluetooth requests) arrive decoded,
  or marked undecodable.
* The two wires of `CreditProtocol` carry Ethernet data frames as real encoded bytes and
  CreditUpdates of the session. A frame stays on the wire until the receiving worker processes
  its job. A lost frame leaves a marker the receiver never sees, so that gaps can be counted.
  A frame that exceeds the receiver's own size limit is refused on arrival and counts as lost.
* All credit laws are those of one negotiated session, over an in-order transport without
  duplicates, with a backend that completes no more records than it holds. Conservation allows
  jobs left in a queue by an earlier session. That every queued record has credit does not: it
  holds for Ethernet exactly under the condition of `Reservation.HelloReserves`, and for HCI and OTA
  exactly when nothing was left over (`CreditGate.SessionCoversExactly`), which the last clause of
  `HciPacing.HciCreditConserved` and `OtaPacing.CreditPacesToFlash` assumes. The credit gate itself
  is followed over any number of sessions.

## What the proofs found in the code

* Merging is not harmless on the Coprocessor. It admits records without looking at credit, and a
  merged batch that exceeds the credit left is refused and dropped whole, where one record per
  frame would have sent as many as there was credit for. Merging refines one record per frame if
  and only if every batch is within the credit held at its send
  (`Refinement.AggregationRefinesExactly`; a failing state in `CreditExamples.MergedBatchDropped`).
  On the Host the reservation guarantees that (`Refinement.HostAggregationRefines`).
* A lost aggregated frame of *k* records leaks *k* - 1 units: the gap refund counts frames while
  the charge counts records (`CreditTheorems.LostFrameCosts`, `CreditExamples.LostBatchLeaks`).
  Frames lost before the first frame of the session is received leak whole
  (`CreditExamples.LostFirstFrameLeaks`), and nothing lost on the way to the Host is ever refunded,
  because only the Coprocessor refunds gaps (`CreditExamples.LostTowardsHostLeaks`). The sessions
  these runs start from exist (`CreditExamples.TwoQueued`, `CreditExamples.TwoQueuedTowardsHost`).
  The window is whole exactly when none of the causes in the balance has struck
  (`CreditTheorems.WindowWholeExactly`).
* The gap refund is exact precisely while fewer than 2^31 places are outstanding
  (`CreditInvariant.SkippedExactly`); beyond that it can only leak, never inflate the window.
* The Host aggregates up to its own configured frame size, not to the negotiated one
  (host-core/src/host.c:233-234). If its size exceeds the Coprocessor's, a merged frame can be
  refused although each of its records would have fitted, and its credit is lost
  (`CreditExamples.OversizedBatchLeaks`). In each direction conservation over a lossless transport
  fails exactly when a frame exceeds its receiver's size (`Lossless.UpConservedExactly`,
  `Lossless.DownConservedExactly`).
* A job left over from an earlier session for an interface that the new session grants nothing, or
  less than it has waiting, is not covered by credit and is refused when its turn comes
  (`Reservation.HelloReserves`, `Reservation.LeftoverJobLacksCredit`).
* The Coprocessor keeps the credit of every HCI frame it does not hand over whole: stopped,
  malformed, or refused by the backend part of the way (`HciPacing.CreditBackExactly`). The Host's
  window shrinks by it for the rest of the session, down to nothing: sixteen HCI_Reset commands that
  a stopped HCI drops, or that a backend refuses while HCI runs, and the Host can send no HCI again
  whatever follows (`HciPacing.WindowCloses`, `HciPacing.WindowClosedForGood`).
* A Hello clears the in-flight counter of the HCI and OTA senders while their records stay queued.
  A session so entered admits more records than it has credit for: after as many as it grants, what
  was left over is in the queue without credit and is dropped when its turn comes. Every admitted
  record is covered, whatever the run, if and only if the session begins with none admitted and
  unsent (`CreditGate.SessionCoversExactly`, with the run in `CreditGate.LeftoverRun`); the
  reservation is sound again once the queue has drained (`CreditGate.SoundOnceDrained`).
* A sender told to wait for HCI or OTA credit is never called if a reservation is then given back
  by an allocation failure, a full queue or a refused frame, nor if a Hello brings the credit. Over
  runs of any number of sessions these are exactly the two ways a wakeup is lost
  (`CreditGate.LostWakeupExactly`, `CreditGate.NoLostWakeup`; runs in `CreditGate.WakeupLost` and
  `CreditGate.WakeupLostAtHello`).
* A failed write makes a transfer unusable for good only if it is reported while the transfer is
  received (`OtaLaws.FailedWriteIsFatal`). One reported during verification is dropped, and the image
  still becomes activatable (`OtaLaws.LateFailureIgnored`).
* A successful FINALIZE completion sets READY_TO_ACTIVATE without looking at the state, so it
  overrides a transfer that a stray chunk failed while it was being verified
  (`OtaReceiver.FailureOverridden`).
* An INITIALIZE or ENABLE pending while HCI is stopped by an error takes the controller out of
  ERROR with HCI still stopped (`Bluetooth.StoppedOutsideErrorExactly`,
  `Bluetooth.EnabledButStopped`).
* `wlh_raw_record_encode` writes its header before it moves the payload, so a payload that
  overlaps the header bytes is lost; any other overlap is safe (`RawRecord.EncodeInPlaceExactly`).

## Model

| member | source | states |
|---|---|---|
| Checksum.ComputeSum32 | protocol/src/wire.c:160-190 | the word loop and its tail compute the wrapping sum of little-endian words |
| Checksum.Sum32DetectsOneByte | protocol/src/wire.c:160-190 | changing any single byte changes SUM32 |
| Checksum.ComputeCrc32c | protocol/src/wire.c:192-208 | the nested bit loop computes the reflected CRC-32C of the bytes |
| Checksum.ShiftInjective | protocol/src/wire.c:192-208 | one bitwise CRC step loses no information |
| Checksum.ShiftsLinear | protocol/src/wire.c:192-208 | CRC steps are linear over exclusive or |
| Checksum.FoldOfWindow | protocol/src/wire.c:192-208 | up to four bytes act on the register as one exclusive or followed by shifts |
| Checksum.FoldInjective | protocol/src/wire.c:192-208 | different registers stay different over any common tail |
| Checksum.Crc32cDetectsBurst | protocol/src/wire.c:192-208 | replacing up to four consecutive bytes by different ones always changes the CRC |
| CrcPolynomial.CrcIsRemainder | protocol/src/wire.c:192-208 | for every message: the complement of the CRC, lowest bit highest, differs from the message, followed by 32 zero bits and with its first 32 bits complemented, by a multiple of x^32+x^28+x^27+x^26+x^25+x^23+x^22+x^20+x^19+x^18+x^14+x^13+x^11+x^10+x^9+x^8+x^6+1 over the field of two elements |
| CrcPolynomial.CrcExactly | protocol/src/wire.c:192-208 | no other 32-bit value does |
| CrcPolynomial.FoldDivides | protocol/src/wire.c:198-205 | the register after any bytes, from any start, is the start times x^8n plus the message times x^32, reduced |
| CrcVectors.CheckValue | protocol/src/wire.c:192-208 | the nine ASCII digits "123456789" give 0xE3069283 |
| CrcVectors.ZerosCheckValue | protocol/src/wire.c:192-208 | 32 zero bytes give 0x8A9136AA |
| WireFormat.FrameLayout | protocol/src/wire.c:210-263 | every sent frame has the magic bytes 57 4c, version 1, size 24 and each field little-endian at its offset, the payload after 24 bytes, and the two checksums over the payload and over the header with its field zero |
| WireFormat.FrameSentExactly | protocol/src/wire.c:210-263 | which headers and payloads can be sent |
| WireFormat.EnvelopeLayout | protocol/src/wire.c:358-403 | every sent RPC message has each field little-endian at its offset, the status code in two's complement |
| WireFormat.EnvelopeSentExactly | protocol/src/wire.c:358-403 | which envelopes can be sent: service, method, kind, flags, request id and status as the wire format demands |
| WireFormat.RecordLayout | protocol/src/raw_record.c:7-44 | type, flags, header size 8 and payload size, then the payload |
| WireFormat.RecordReadExactly | protocol/src/raw_record.c:58-107 | what one step of the iterator finds, in offsets and numbers: a header may be longer than 8 bytes and the payload follows it |
| WireFormat.StreamLayout | host-core/src/host_ota.c:346-367 | an OTA stream record field by field |
| WireFormat.StreamReadExactly | coproc-core/src/coproc_ota.c:466-490 | a stream payload is read if and only if it is one record of type 1 and nothing else, with the size it declares; which transfer, offset and data |
| WireFormat.FrameRefused | protocol/src/wire.c:265-339 | the error of every refused frame, first cause first |
| WireFormat.FrameNotSent | protocol/src/wire.c:210-263 | the error of every refused header or payload |
| WireFormat.MessageRefused | protocol/src/wire.c:405-457 | the error of every refused RPC message |
| WireFormat.EnvelopeFault | protocol/src/wire.c:64-97 | which envelopes are invalid, reserved flags told apart |
| WireFormat.SumExample | protocol/tests/test_wire.c:25-30 | the published SUM32 frame byte for byte |
| WireFormat.RpcExample | protocol/tests/test_wire.c:40-44 | the published RPC message byte for byte |
| RawRecord.EncodeInto | protocol/src/raw_record.c:7-44 | the bytes written, the errors and their order, and everything outside the record unchanged, for any overlap of payload and output |
| RawRecord.EncodeInPlaceExactly | protocol/src/raw_record.c:7-44 | an overlapped payload survives if and only if it misses the header bytes |
| RawRecord.Iterator.Advance | protocol/src/raw_record.c:58-107 | one step yields the record at the offset, the end, or the exact error |
| RawRecord.ViewsDisjoint | protocol/src/raw_record.c:46-107 | over arbitrary bytes at most size/8 views, all in bounds, each past the end of the earlier ones |
| RawRecord.ParseIsViews | protocol/src/raw_record.c:46-107 | a payload that iterates to its end is exactly its views |
| RawRecord.ParseOfEncoded | protocol/src/raw_record.c:7-107 | the iterator reads back exactly the records laid end to end, then the end |
| FrameCodec.EncodeInto | protocol/src/wire.c:210-263 | the buffer holds the encoding of the header and of the payload bytes present before the call, wherever the payload lies |
| FrameCodec.DecodeFrom | protocol/src/wire.c:265-339 | the checks in their order, with the header checksum taken over its own field zeroed |
| FrameCodec.DecodeOfEncode | protocol/src/wire.c:210-339 | every valid header and payload within the limit survives the trip |
| FrameCodec.EncodeOfDecode | protocol/src/wire.c:210-339 | re-encoding an accepted frame gives the same bytes |
| FrameCodec.AcceptedExactly | protocol/src/wire.c:265-339 | the decoder accepts exactly the encoder's images within the limit |
| RpcCodec.EncodeInto | protocol/src/wire.c:358-403 | the buffer holds the envelope and the payload bytes present before the call, wherever the payload lies |
| RpcCodec.DecodeOfEncode | protocol/src/wire.c:358-457 | every valid envelope and payload within the limit survives the trip |
| RpcCodec.EncodeOfDecode | protocol/src/wire.c:358-457 | re-encoding an accepted message gives the same bytes |
| RpcCodec.DecodeFrom | protocol/src/wire.c:405-457 | the checks in their order over the buffer |
| Corruption.CorruptionRejected | protocol/src/wire.c:265-339 | no accepted frame becomes another accepted one by a change of one byte, or under CRC-32C of up to four consecutive bytes all inside or all outside the header checksum field, unless the checksum flag changes |
| Utf8.Valid | coproc-core/src/coproc_kv.c:28-72 | true if and only if the bytes encode some sequence of Unicode scalar values |
| Utf8.EncodeTextInjective | coproc-core/src/coproc_kv.c:28-72 | that sequence is unique |
| Utf8.UnitOfEncoded | coproc-core/src/coproc_kv.c:40-68 | the loop body reads back every scalar value's encoding |
| Utf8.UnitIsEncoded | coproc-core/src/coproc_kv.c:40-68 | whatever unit the loop body accepts is the shortest encoding of its scalar value |
| Aggregation.AggregateTakesFront | host-core/src/host.c:226-302 | a batch is a front of the queue of one channel, bounded by the limit and the frame, and merging stopped for a reason; the deferred job and the rest follow in order |
| Aggregation.GatherPayload | coproc-core/src/coproc.c:117-185 | the payload is the records joined, one unit each, and merging never outgrows the frame |
| Aggregation.WorkerKeepsOrder | host-core/src/host.c:330-392 | over every run the handled and the waiting jobs are the admitted ones in order, none lost or duplicated, deferred slot and failed expansion included |
| Aggregation.AggregationRefines | coproc-core/src/coproc.c:117-185 | the frames formed, before any is sent, hold per channel the record stream and the units of one record per frame, and each payload parses to its units |
| Refinement.BatchTaken | host-core/src/host.c:226-302 | what an iteration takes: one channel, one unit per record, and a payload that fits exactly when the first record does |
| Refinement.MergedBatch | coproc-core/src/coproc_wire.c:39-97 | a merged batch is sent and charged whole, or not at all; its jobs are gone in either case |
| Refinement.SinglyBatch | coproc-core/src/coproc_wire.c:39-97 | one record per frame sends as many of the same jobs as there is credit for |
| Refinement.BatchRefinesExactly | coproc-core/src/coproc.c:290-314 | both send the same records and charge the same if and only if the batch is within the credit held, or there is none, or the send is refused anyway |
| Refinement.AggregationRefinesExactly | coproc-core/src/coproc.c:290-314 | over every run of iterations, CreditUpdates and admissions, with room for every record offered and one send outcome for the records of a batch, they agree at every turn if and only if every batch is so covered |
| Refinement.SameStreams | coproc-core/src/coproc.c:290-314 | then, under the same two assumptions, the wires carry the same record stream on every channel |
| Refinement.HostAggregationRefines | host-core/src/host.c:375-413 | on the Host the reservation covers every batch of every run |
| Refinement.UncoveredBatchDropped | coproc-core/src/coproc_wire.c:45-48 | an uncovered batch is dropped whole, where its records one by one would have used up the credit |
| CreditExamples.MergedBatchDropped | coproc-core/src/coproc.c:290-314 | one unit of credit and two records: merged, both are dropped; singly, the first goes out and the second stays queued |
| Aggregation.JoinedRecords | host-core/src/host.c:226-302 | a merged payload parses to exactly the merged records in order |
| Wire.EncodedFrame | protocol/src/wire.c:210-339 | the receiver finds in a sent frame the channel, session, sequence and one unit per record |
| Wire.ChannelByte | host-core/src/host_wire.c:18-21 | the byte by which a completed frame is told is its channel |
| Wire.DecodeWithin | protocol/src/wire.c:265-339 | receivers differ only in the frame size they accept |
| Transmit.AdmitKeeps | host-core/src/host_ethernet.c:25-133 | an admitted record is one well-formed record, keeps the reservation and moves one slot; a refused one changes nothing |
| Limits.AdmittedExactly | host-core/src/host_ethernet.c:25-133 | a record is admitted if and only if its size fits, a slot is free, memory and mutex are had, the queue has room and, on the Host, credit exceeds what is queued; it is then the last job |
| Limits.RefusedExactly | host-core/src/host_ethernet.c:25-133 | what a refused sender is told, first cause first |
| Limits.HostPaysExactly | host-core/src/host_frame.c:27-57 | an interface is paid from eight units on, or once its date has passed; a refused update stays owed |
| Limits.WakesExactly | coproc-core/src/coproc_frame.c:72-131 | a completion asks for a wake if and only if none is queued and 32 units, or the smaller initial credit, are reached |
| Limits.HelloGrants | coproc-core/src/coproc_link.c:64-149 | the Host's credit on every channel after a Hello, in numbers |
| Limits.WindowsGranted | coproc-core/src/coproc_link.c:74-129 | the windows of the HCI and OTA pacing laws are those granted |
| Transmit.CompletionKeeps | host-core/src/host_wire.c:14-30 | for every status, completing an Ethernet frame moves one slot from the transport to the free ones and any other frame none; a job is queued if and only if the failure counts and there is room |
| Transmit.SendKeeps | host-core/src/host_wire.c:47-104 | a sent frame is charged its units and takes the next sequence number; a refused one neither |
| LinkLaws.SendEndsExactly | coproc-core/src/coproc_wire.c:39-97 | each way a send can end, exactly when; only a sent frame, without flags and with the next sequence number, moves credit and sequence, only lack of credit marks congestion |
| LinkLaws.CreditSentExactly | coproc-core/src/coproc_wire.c:234-255 | a CreditUpdate goes out exactly for units that are accepted, and never for none |
| LinkLaws.ForeignEndsSession | host-core/src/host_frame.c:96-116 | on the Host anything of another session ends the session and does nothing else |
| LinkLaws.UpdateTaken | coproc-core/src/coproc_rpc.c:40-70 | a CreditUpdate of the session adds its units and ends congestion, on both sides |
| LinkLaws.UpdateRejected | coproc-core/src/coproc_rpc.c:44-52 | the Coprocessor takes none of another session nor one that would overflow |
| LinkLaws.HostFlushLeaves | host-core/src/host_frame.c:48-56 | a date if and only if a debt is left, and a retry if and only if something due was refused |
| LinkLaws.CoprocFlushLeaves | coproc-core/src/coproc_frame.c:39-70 | the same for the Coprocessor, whose wake and failure count start anew |
| LinkLaws.FailuresCounted | coproc-core/src/coproc_frame.c:72-131 | a failed completion is counted, saturating, and each refusal has its cause |
| Transmit.TakeBatchKeeps | host-core/src/host.c:226-302 | merging keeps queued counters equal to the jobs waiting, credit covering them, and the slot count |
| Transmit.WorkKeeps | host-core/src/host.c:375-413 | one worker iteration keeps reservation and slots, charges exactly what it sends, and on the Host never lacks credit |
| CreditInvariant.SkippedExactly | coproc-core/src/coproc_frame.c:160-186 | the 32-bit sequence difference never exceeds the places truly lost, and equals them if and only if fewer than 2^31 are outstanding |
| CreditInvariant.HostWorkBalanced | host-core/src/host_wire.c:63-101 | sending from the Host keeps the balance of every interface |
| CreditInvariant.CoprocWorkBalanced | coproc-core/src/coproc_wire.c:39-97 | sending from the Coprocessor keeps the balance |
| CreditInvariant.FrameTakenLaw | coproc-core/src/coproc_frame.c:230-308 | gap refund, backend records and immediate refund of a received frame together return exactly what it and the gap before it were charged |
| CreditInvariant.CoprocTakeBalanced | coproc-core/src/coproc_frame.c:133-311 | whatever the Coprocessor takes off its wire keeps the balance |
| CreditInvariant.HostTakeBalanced | host-core/src/host_frame.c:142-220 | whatever the Host takes off its wire keeps the balance |
| CreditInvariant.HostPayBalanced | host-core/src/host_frame.c:27-57 | the Host's flush moves debt to CreditUpdates unit for unit, refused ones staying debt |
| CreditInvariant.CoprocPayBalanced | coproc-core/src/coproc_frame.c:39-70 | so does the Coprocessor's flush |
| CreditInvariant.CompletionBalanced | coproc-core/src/coproc_frame.c:72-131 | completed records become debt without saturating |
| CreditInvariant.StepBalanced | coproc-core/src/coproc_frame.c:230-308 | every step of either endpoint, the backend or the transport keeps the balance |
| CreditInvariant.RunBalanced | host-core/src/host_frame.c:142-220 | so does every run |
| CreditTheorems.CreditConserved | coproc-core/src/coproc_link.c:64-149 | in every reachable state credit, frames, backend records, debt and CreditUpdates, the refundable gap and the leaks are together the Hello grant, in both directions; loss never inflates the window |
| BackendHeld.HeldIsPromised | coproc-core/src/coproc_frame.c:255-287 | in every run the records held are those the backend answered PENDING less those it completed, and with them the grant is accounted for |
| BackendHeld.RefundedAtOnce | coproc-core/src/coproc_frame.c:239-308 | of a valid payload one unit goes back at once for each record of another kind, without a backend, or answered other than PENDING; of a malformed one, one unit |
| CreditTheorems.WindowWholeExactly | coproc-core/src/coproc_frame.c:160-186 | circulating and refundable credit are the whole grant if and only if no early loss, no lost batch, no refused or lost CreditUpdate and no misread gap has occurred |
| CreditTheorems.LostFrameCosts | coproc-core/src/coproc_frame.c:160-186 | a lost frame takes all its units but one out of circulation for good |
| Lossless.UpConservedExactly | coproc-core/src/coproc_frame.c:230-308 | over a lossless transport the grant of an interface circulates whole in every state of a run if and only if the Coprocessor refuses none of its frames for its size |
| Lossless.DownConservedExactly | host-core/src/host_frame.c:142-220 | in the other direction the grant is whole at the end if and only if the Host refused none |
| Lossless.UpConserves | coproc-core/src/coproc_frame.c:313-321 | a Host frame limit no larger than the Coprocessor's is enough |
| Lossless.DownConserves | host-core/src/host_frame.c:405-411 | and the converse for the other direction |
| CreditExamples.LostBatchLeaks | coproc-core/src/coproc_frame.c:160-186 | a run in which one lost frame of two records leaks one unit |
| CreditExamples.LostFirstFrameLeaks | coproc-core/src/coproc_frame.c:160-186 | a run in which the first frame of the session is lost and leaks both units |
| CreditExamples.LostTowardsHostLeaks | host-core/src/host_frame.c:118-129 | a run in which a frame lost towards the Host leaks both units |
| CreditExamples.TwoQueued | coproc-core/src/coproc_link.c:64-149 | there is a session to which the runs LostBatchLeaks, LostFirstFrameLeaks and OversizedBatchLeaks apply |
| CreditExamples.TwoQueuedTowardsHost | coproc-core/src/coproc_link.c:64-149 | there is one to which LostTowardsHostLeaks applies |
| CreditExamples.OversizedBatchLeaks | host-core/src/host.c:226-302 | a run in which a merged Host frame exceeds the Coprocessor's limit and leaks both units |
| CreditTheorems.CreditNeverOverflows | coproc-core/src/coproc_rpc.c:45-65 | neither the Host's saturation nor the Coprocessor's overflow rejection of a CreditUpdate is ever reached |
| CreditTheorems.LostFramesRefundedOnce | coproc-core/src/coproc_frame.c:160-186 | without aggregation, below 2^31 and with CreditUpdates delivered, every lost frame after the first received one is refundable or refunded exactly once |
| CreditTheorems.LeaksApart | coproc-core/src/coproc_frame.c:160-186 | under the same conditions the other three leaks stay zero along every run |
| Session.GrantAndSeed | coproc-core/src/coproc_link.c:64-149 | the loop and the service branches fill the response and the Coprocessor's table together |
| Session.SeedFromResponse | host-core/src/host_link.c:148-154 | the Host's loop zeroes its table and takes the last entry of every existing channel |
| Session.GrantsOnce | coproc-core/src/coproc_link.c:64-149 | the response names each channel once, with what the Coprocessor gives itself, and omits only channels without credit |
| Session.CreditsAgree | coproc-core/src/coproc_link.c:64-149 | after the exchange both sides hold the same credit on every negotiated channel, and the Host none elsewhere |
| Session.HelloOpens | coproc-core/src/coproc_link.c:184-256 | the exchange establishes the opening state that the credit theorems start from |
| Reservation.HelloReserves | host-core/src/host_link.c:148-154 | a session starts with every waiting job covered if and only if no interface has more jobs left over than its grant |
| Reservation.HostNeverLacksCredit | host-core/src/host_ethernet.c:88-127 | throughout a session so entered, each queued counter is the number of jobs queued or deferred and within the credit, so no worker iteration reports NO_CREDIT |
| Reservation.LeftoverJobLacksCredit | host-core/src/host_wire.c:63-66 | a job left over for an interface without a grant is refused in an otherwise sound session |
| Reservation.SlotsConserved | coproc-core/src/coproc_wire.c:19-37 | over every run, completions of the frames held by the transport included, free slots, waiting jobs and those frames make up the depth on both sides, so a slot given back never exceeds it |
| Wakeup.SleepsBelowBatch | coproc-core/src/coproc.c:203-222 | over every interleaving of worker and completions, session resets included, a worker blocked with nothing on its way withholds less than min(initial credit, 32) per interface |
| Wakeup.StepRested | coproc-core/src/coproc_frame.c:110-131 | the same inside the credit protocol: every move and every step of the worker keeps it |
| Wakeup.OutOfCreditStillMoves | coproc-core/src/coproc_frame.c:39-131 | in every state of a lossless session in which the Coprocessor refuses no frame of the interface for its size, a Host out of credit facing a sleeping worker still has a frame, a backend record or a CreditUpdate moving |
| Sender.Sender.SendPayload | host-core/src/host_wire.c:47-104 | the buffer code performs exactly the send step, refusals in their order |
| Sender.Sender.EthernetSend | host-core/src/host_ethernet.c:25-133 | the code performs exactly the admission step, giving the slot back on every refusal |
| Sender.Sender.AggregateJobs | host-core/src/host.c:226-302 | the merge loop with its growing buffer computes exactly the batch, slots and counters of the specification |
| Sender.Sender.WorkerIteration | host-core/src/host.c:330-413 | one iteration performs exactly the work step |
| Sender.Sender.SendCreditUpdate | coproc-core/src/coproc_wire.c:234-255 | zero units send nothing and succeed; otherwise one CreditUpdate or a refusal |
| Sender.Sender.TxComplete | host-core/src/host_wire.c:14-30 | a frame whose channel byte is an Ethernet one gives a slot back, and a failure queues its job, cancellation on the Coprocessor excepted |
| Receiver.CountRecords | host-core/src/host_frame.c:152-166 | the first pass decides whether the payload parses and counts its records |
| Receiver.HostReceiver.Dispatch | host-core/src/host_frame.c:167-198 | the second pass delivers every Ethernet record, in order |
| Receiver.HostReceiver.TakePayload | host-core/src/host_frame.c:142-220 | all records or none, with one unit of debt per record or one for a malformed payload |
| Receiver.HostReceiver.TakeFrame | host-core/src/host_frame.c:71-220 | the code performs exactly the Host's receive step, foreign sessions included |
| Receiver.HostReceiver.TakeCredit | host-core/src/host_link.c:216-249 | the code performs exactly the CreditUpdate step |
| Receiver.HostReceiver.Flush | host-core/src/host_frame.c:27-57 | the loop performs exactly the flush step, and reports a retry if and only if something due was refused |
| Receiver.CoprocReceiver.Deliver | coproc-core/src/coproc_frame.c:255-287 | the second pass hands every Ethernet record over, logs the backend's answers, and counts those it did not keep |
| Receiver.CoprocReceiver.TakeFrame | coproc-core/src/coproc_frame.c:133-311 | the code performs exactly the Coprocessor's receive step with its two refunds |
| Receiver.CoprocReceiver.TakeCredit | coproc-core/src/coproc_rpc.c:40-65 | an update is taken if and only if it is of the session and does not overflow |
| Receiver.CoprocReceiver.RxDone | coproc-core/src/coproc_frame.c:72-131 | the code performs exactly the completion step, and asks for a wake when a batch is full and none is queued |
| Receiver.CoprocReceiver.Flush | coproc-core/src/coproc_frame.c:39-70 | the loop performs exactly the flush step and its retry flag |
| Receiver.BatchDelivers | coproc-core/src/coproc_frame.c:239-287 | frames admitted separately and merged are delivered one by one, in admission order |
| EndToEnd.StepPasses | coproc-core/src/coproc_frame.c:230-287 | no step of either endpoint or the transport reorders, duplicates or invents a packet between admission and delivery |
| EndToEnd.DeliveredInOrder | host-core/src/host.c:375-413 | over every run, in both directions, the packets delivered on a channel, then those on the wire and queued, are in order among those admitted; those missing are exactly the packets of refused sends, of frames lost or too large for the receiver, and of arrivals without a backend |
| EndToEnd.DeliveredExactly | host-core/src/host_ethernet.c:25-133 | every packet admitted is delivered or still on its way, in order, if and only if none was so removed |
| OtaStream.ReadOfWritten | host-core/src/host_ota.c:340-374 | the Coprocessor reads exactly the transfer, offset and bytes the Host laid out |
| OtaSender.StreamSender.StreamSend | host-core/src/host_ota.c:312-385 | each refusal exactly when its condition holds, leaving counter and queue as they were; otherwise one reservation and one record queued |
| OtaSender.StreamSender.BuildRecord | host-core/src/host_ota.c:346-367 | encoding the record header over a payload in place in the same buffer yields the stream record |
| OtaReceiver.PrefixIntegrity | coproc-core/src/coproc_ota.c:447-531 | in every run the accepted writes of each transfer are a contiguous partition of a prefix of its image, 16-aligned, 1..4048 bytes, only the one ending the image unaligned, and the byte counter is its length |
| OtaReceiver.HostChunkExactly | coproc-core/src/coproc_ota.c:484-530 | a chunk is accepted exactly when it is the next piece and the backend takes it; anything else writes nothing, returns its credit and fails the transfer |
| OtaReceiver.ImageArrives | coproc-core/src/coproc_ota.c:447-531 | an image fed in order arrives in the write log byte for byte |
| OtaReceiver.RequestsConclude | coproc-core/src/coproc_ota.c:98-122 | over every interleaving each request is answered or dropped exactly once, or is the one pending |
| OtaAnswers.AnsweredExactly | coproc-core/src/coproc_ota.c:98-122 | the answered, the pending and the dropped requests are together those made, where exactly the undecodable, the memoryless and those pending at a reset are dropped |
| OtaAnswers.EachAnsweredOnce | coproc-core/src/coproc_ota.c:533-601 | if nothing is dropped and nothing is left pending, every request has exactly one answer |
| OtaReceiver.LateCompletionIgnored | coproc-core/src/coproc_ota.c:533-545 | a late completion of another operation within 2^32 - 1 of the pending one changes nothing |
| OtaReceiver.ReadyOnlyByFinalize | coproc-core/src/coproc_ota.c:533-601 | READY_TO_ACTIVATE is entered if and only if a pending FINALIZE of the session completes successfully |
| OtaLaws.FailedWriteIsFatal | coproc-core/src/coproc_ota.c:603-624 | over every run: after a write of the transfer being received is reported failed, and until another BEGIN starts, the phase is FAILED (IDLE after an ABORT or a new session), no chunk is accepted, every FINALIZE is refused and nothing makes the image activatable |
| OtaLaws.ReadyOnlyIfWhole | coproc-core/src/coproc_ota.c:603-624 | an image is received, verified or activatable only if no write of it was reported failed while it was received |
| OtaLaws.LateFailureIgnored | coproc-core/src/coproc_ota.c:609-612 | a failure reported during verification changes nothing |
| OtaLaws.PhaseEntered | coproc-core/src/coproc_ota.c:131-624 | each phase is entered by exactly the named events |
| OtaLaws.BeginAnswers | coproc-core/src/coproc_ota.c:131-218 | each answer of BEGIN exactly when it is due, and the transfer it sets up |
| OtaLaws.FinalizeAnswers | coproc-core/src/coproc_ota.c:220-267 | each answer of FINALIZE exactly when it is due |
| OtaLaws.AbortAnswers | coproc-core/src/coproc_ota.c:269-315 | each answer of ABORT exactly when it is due |
| OtaLaws.ActivateAnswers | coproc-core/src/coproc_ota.c:317-363 | each answer of ACTIVATE exactly when it is due |
| OtaLaws.CompletionAnswers | coproc-core/src/coproc_ota.c:533-601 | a completion answers the request it matches with success exactly as the backend says; any other changes nothing |
| OtaLaws.ResetClears | coproc-core/src/coproc_ota.c:58-76 | a new session leaves no transfer, no progress and no pending operation, accepts no chunk and ignores old completions |
| OtaLaws.ProgressExactly | coproc-core/src/coproc_ota.c:617-623 | in every run a durable write raises the bytes received and reports progress if and only if the image is complete or 65536 bytes have come in since the last report |
| OtaLaws.OthersIgnored | coproc-core/src/coproc_ota.c:98-109 | over every run operations are numbered in turn, so a completion of any other one within 2^32 - 1 changes nothing |
| OtaLaws.TransfersNumbered | coproc-core/src/coproc_ota.c:124-129 | over every run transfers are numbered in turn |
| OtaReceiver.FailureOverridden | coproc-core/src/coproc_ota.c:533-601 | that completion overrides a failure while verifying |
| OtaService.OtaService.OnBegin | coproc-core/src/coproc_ota.c:131-218 | the code performs exactly the BEGIN step |
| OtaService.OtaService.OnFinalize | coproc-core/src/coproc_ota.c:220-267 | the code performs exactly the FINALIZE step, VERIFYING kept when the backend refuses |
| OtaService.OtaService.OnAbort | coproc-core/src/coproc_ota.c:269-315 | the code performs exactly the ABORT step |
| OtaService.OtaService.OnActivate | coproc-core/src/coproc_ota.c:317-363 | the code performs exactly the ACTIVATE step |
| OtaService.OtaService.OnCompleted | coproc-core/src/coproc_ota.c:533-601 | the code performs exactly the completion step |
| OtaService.OtaService.ReadChunk | coproc-core/src/coproc_ota.c:466-490 | the buffer code reads the one chunk of a stream payload, or nothing |
| OtaService.OtaService.OnFrame | coproc-core/src/coproc_ota.c:447-531 | the code performs exactly the frame step and returns the credit at once exactly when nothing was accepted |
| OtaService.OtaService.OnWritten | coproc-core/src/coproc_ota.c:603-624 | the code performs exactly the write-completion step |
| OtaService.OtaService.OnReset | coproc-core/src/coproc_ota.c:58-76 | a new session drops the pending request and all transfer state |
| OtaService.OtaService.Serve | coproc-core/src/coproc_ota.c:395-624 | over any run of requests, completions, frames and resets the code keeps the accepted writes contiguous prefixes of their images |
| OtaPacing.CreditPacesToFlash | coproc-core/src/coproc_ota.c:603-608 | in every run, losses included, Host credit, frames, writes in the backend, queued completions and CreditUpdates are 4 less refused updates and what the wire lost; at most four chunks are outstanding, and if no chunk was left over an admitted one never lacks credit |
| OtaPacing.WritesAreSends | host-core/src/host_ota.c:312-374 | every accepted write carries exactly a transfer, offset and bytes given to the stream sender, in this session or left over from an earlier one |
| CreditGate.SoundThroughoutExactly | coproc-core/src/coproc_link.c:236-254 | over runs of any sessions the in-flight counter is the records admitted and unsent, within the credit, in every state if and only if every Hello finds none |
| CreditGate.AdmittedNeverLacksCredit | coproc-core/src/coproc_bluetooth.c:541-558 | an admitted record then finds the credit it reserved when it is sent |
| CreditGate.SessionCoversExactly | coproc-core/src/coproc_link.c:184-256 | all runs of a session keep every admitted record covered by credit if and only if the session begins with none admitted and unsent |
| CreditGate.LeftoversLackCredit | host-core/src/host_link.c:303-312 | from any state, after a Hello and as many records as it grants, what was left over still waits and there is no credit |
| CreditGate.LeftoverRun | coproc-core/src/coproc_link.c:249-254 | such a run from a fresh gate; the last record is dropped |
| CreditGate.SoundOnceDrained | coproc-core/src/coproc.c:327-341 | over runs of any sessions the reservation is sound whenever nothing is admitted and unsent |
| CreditGate.UsableAgain | host-core/src/host_link.c:216-245 | credit turns usable only at a CreditUpdate, which calls exactly once, by a reservation given back or at a Hello with credit, which never call |
| CreditGate.OnlyTheEdgeCalls | coproc-core/src/coproc_rpc.c:53-65 | a call is made if and only if a CreditUpdate takes credit from within the counter to beyond it |
| CreditGate.UpdateAdds | host-core/src/host_link.c:221-225 | an update adds its units; beyond the largest number the Host keeps that and the Coprocessor rejects it |
| CreditGate.LostWakeupExactly | host-core/src/host.c:414-433 | a waiting sender misses its call if and only if a reservation is given back or a Hello brings credit |
| CreditGate.NoLostWakeup | coproc-core/src/coproc_rpc.c:53-65 | over runs of any sessions nobody told to wait is ever left beside usable credit if and only if no turn is one of these |
| CreditGate.WakeupLost | coproc-core/src/coproc.c:327-341 | a run in which a refused frame loses the wakeup |
| CreditGate.WakeupLostAtHello | coproc-core/src/coproc_link.c:74-94 | a run in which a Hello does |
| CreditGate.ReservedChannel.Take | host-core/src/host_bluetooth.c:250-268 | the code performs exactly the reservation, and refuses if and only if no credit is usable |
| CreditGate.ReservedChannel.Settle | host-core/src/host_bluetooth.c:270-308 | the record is queued or the reservation given back |
| CreditGate.ReservedChannel.Send | host-core/src/host.c:414-433 | the worker releases the reservation and charges one unit if the frame goes out |
| CreditGate.ReservedChannel.OnCreditUpdate | coproc-core/src/coproc_rpc.c:50-65 | the code performs exactly the update of either side, with its call at the upward crossing |
| CreditGate.ReservedChannel.OnHello | coproc-core/src/coproc_link.c:249-254 | a Hello clears the counter, sets the credit, and leaves the queue and the waiting sender as they are |
| CreditGate.ReservedChannel.Serve | host-core/src/host_link.c:216-249 | over any run, Hellos included, the counter exceeds neither the records nor the credit, equals the records if every Hello found none, and if no turn misses a call nobody refused is left waiting beside usable credit |
| HostRpc.CompletedExactlyOnce | host-core/src/host_rpc.c:14-96 | over every run each dequeued request's caller is in the table, in the executor or told, exactly once, over refusals, responses, timeouts, cancels, allocator and executor failures |
| HostRpc.ResponseEndsItsRequest | host-core/src/host_frame.c:260-280 | with distinct live ids a response ends exactly the request it answers, and no other |
| HostRpc.ExpiredExactly | host-core/src/host_rpc.c:66-96 | the sweep ends exactly the overdue requests |
| RpcLife.EntersExactly | host-core/src/host_rpc.c:260-297 | a request enters if and only if the link is ready, a slot below the limit is free and it can be sent; otherwise its caller is told why |
| RpcLife.TimesOutExactly | host-core/src/host_rpc.c:66-96 | over every run: a request still live is ended by a sweep if and only if that comes its own timeout, or the configured one if it has none, after its admission |
| RpcLife.ToldItsResponse | host-core/src/host_frame.c:260-280 | over every run: the response with its id, service and method in its session ends it alone, and its caller is told exactly that domain, code and payload, with success if and only if the code is zero |
| RpcLife.SweepTells | host-core/src/host_rpc.c:66-96 | the caller of every request a sweep ends is told it timed out, or that memory or the executor was lacking |
| RpcLife.CancelTells | host-core/src/host_rpc.c:14-34 | the caller of every cancelled request is told the cause |
| RpcLife.ExecutorPasses | host-core/src/host.c:117-166 | the executor passes each outcome posted to its caller, once |
| HostTimer.RpcTable.DispatchCompletion | host-core/src/host.c:117-166 | through the executor, or at once when memory or the executor refuses |
| HostTimer.RpcTable.CancelPending | host-core/src/host_rpc.c:14-34 | the loop ends every active request |
| HostTimer.RpcTable.AllocatePending | host-core/src/host_rpc.c:36-48 | the first free slot below the configured limit |
| HostTimer.RpcTable.FindPending | host-core/src/host_rpc.c:50-64 | the first slot of this session that the envelope answers |
| HostTimer.RpcTable.OnResponse | host-core/src/host_frame.c:260-280 | the code performs exactly the response step, and finds a request if and only if one matches |
| HostTimer.RpcTable.OnRequest | host-core/src/host_rpc.c:260-297 | the code performs exactly the admission step, clearing the slot again when the send fails |
| HostTimer.HostWorker.ProcessDeadlines | host-core/src/host_rpc.c:66-107 | overdue requests time out, and a silent peer costs every request and the session |
| HostTimer.KeptWhileHeard | host-core/src/host_rpc.c:97-106 | over every run of frames and sweeps with a monotone clock the link stays ready in its session if and only if the peer was heard from in time at every sweep |
| HostTimer.SweptExactly | host-core/src/host_rpc.c:66-107 | one sweep costs the session if and only if the peer was silent for the timeout, and otherwise ends only what is overdue |
| HostTimer.HostWorker.Watch | host-core/src/host_rpc.c:66-107 | over any run of frames and sweeps the code is that state machine |
| HostTimer.HostWorker.NextWait | host-core/src/host_rpc.c:109-141 | never past any deadline, equal to the nearest unless clamped, and forever only if there is none |
| HostTimer.HostWorker.Top | host-core/src/host.c:318-329 | after deadlines and flush at one clock reading no request is overdue and the wait is at least 1 ms and past no deadline |
| HostTimer.RunDueBy | host-core/src/host_frame.c:27-69 | over every run with a monotone clock withheld credit is due within one millisecond of the last reading |
| HostTimer.WithheldCreditAttempted | host-core/src/host_frame.c:27-57 | after every such run the first flush with a later reading offers all of it: what is accepted goes out in full, only what is refused stays |
| Bluetooth.RequestsConclude | coproc-core/src/coproc_bluetooth.c:64-90 | over every interleaving each lifecycle request is answered or dropped exactly once, or is the one pending |
| Bluetooth.EachAnsweredOnce | coproc-core/src/coproc_bluetooth.c:254-346 | if every request decodes, no session ends with one pending and nothing is left pending, every request has exactly one answer |
| Bluetooth.LateCompletionIgnored | coproc-core/src/coproc_bluetooth.c:254-308 | a late completion of another operation changes nothing |
| Bluetooth.LatchOpensOnly | coproc-core/src/coproc_bluetooth.c:254-293 | HCI restarts if and only if a DISABLE or DEINITIALIZE completes successfully or the session changes |
| Bluetooth.StoppedOutsideErrorExactly | coproc-core/src/coproc_bluetooth.c:254-293 | the state leaves ERROR with HCI stopped if and only if a pending INITIALIZE or ENABLE completes successfully |
| Bluetooth.EnabledButStopped | coproc-core/src/coproc_bluetooth.c:254-293 | a run that ends ENABLED with HCI stopped |
| BluetoothLaws.RequestAnswers | coproc-core/src/coproc_bluetooth.c:92-252 | each answer of each lifecycle request exactly when it is due |
| BluetoothLaws.StateEntered | coproc-core/src/coproc_bluetooth.c:254-293 | each controller state is entered by exactly the named events |
| BluetoothLaws.CompletionAnswers | coproc-core/src/coproc_bluetooth.c:254-346 | a completion answers the request it matches with success exactly as the backend says; any other changes nothing |
| BluetoothLaws.CommandExactly | coproc-core/src/coproc_bluetooth.c:348-364 | a command passes if and only if it is an opcode, a length and that many parameter bytes |
| BluetoothLaws.AclExactly | coproc-core/src/coproc_bluetooth.c:348-364 | ACL data passes if and only if it is a handle, a little-endian length and that many bytes, 1024 at most in all |
| BluetoothLaws.FramePassesExactly | coproc-core/src/coproc_bluetooth.c:366-419 | a frame passes if and only if HCI runs, it is not empty, it parses and every packet is valid; HCI is stopped after any other; records go over up to the first refused |
| BluetoothLaws.OthersIgnored | coproc-core/src/coproc_bluetooth.c:64-90 | over every run operations are numbered in turn, so a completion of any other one within 2^32 - 1 changes nothing |
| Bluetooth.Lifecycle.OnRequest | coproc-core/src/coproc_bluetooth.c:92-252 | the code performs exactly the request step of each method |
| Bluetooth.Lifecycle.OnCompleted | coproc-core/src/coproc_bluetooth.c:254-346 | the code performs exactly the completion step |
| Bluetooth.Lifecycle.Serve | coproc-core/src/coproc_bluetooth.c:92-346 | over any run the code concludes every request once |
| Bluetooth.HciReceiver.ValidateFrame | coproc-core/src/coproc_bluetooth.c:348-404 | the validation pass accepts exactly nonempty payloads of valid records |
| Bluetooth.HciReceiver.OnFrame | coproc-core/src/coproc_bluetooth.c:366-419 | a malformed record anywhere delivers nothing and latches the error; otherwise records go over in order up to the first refused, and the credit returns if and only if all did |
| HciPacing.HciCreditConserved | coproc-core/src/coproc_bluetooth.c:366-419 | in every run, losses included, the Host's 16 units are its credit, frames and CreditUpdates, less refused updates, what the wire lost and frames not handed over whole; if no record was left over an admitted one never lacks credit |
| HciPacing.CreditBackExactly | coproc-core/src/coproc_bluetooth.c:377-418 | a frame's credit goes back if and only if HCI was running, every record was valid and the backend took them all |
| HciPacing.WindowClosedForGood | coproc-core/src/coproc_bluetooth.c:407-416 | once the whole window is gone no credit ever returns in the session |
| HciPacing.WindowShrinks | coproc-core/src/coproc_bluetooth.c:371-416 | each valid record sent to a stopped HCI or a refusing backend takes one unit for good |
| HciPacing.WindowCloses | host-core/src/host_bluetooth.c:228-308 | from a session just negotiated sixteen HCI_Reset commands close the window, and no run reopens it |

## Left out

- Protobuf encoding and decoding, and the generated message tables: messages arrive decoded.
- OSAL adapters, threads, and stop and start of the workers: the queue is a bounded FIFO, the semaphore a counter.
- Credit across session boundaries (but for the gate of HCI and OTA senders) and under reordering or duplication: the laws of the code are those of one session.
- The one backend operation counter that OTA, Bluetooth, Wi-Fi and Ethernet-PHY share: each service modelled has a counter of its own.
- Credit of the control channel, whose frames each side refunds one by one at once.
- The HCI advertising channel, whose sheds never push back.
- Wi-Fi, IO, ADC, key-value storage, device information, diagnostics, user messages and the Ethernet-PHY service: field copying around one send, or the pending-operation pattern proved for OTA and Bluetooth.
- The Host's own sequence tracking, which only feeds diagnostics.
- Diagnostics counters and log text.
- Null arguments: arrays and objects are never null here.
- The end of the 64-bit millisecond clock.
- Two separate transmit classes: the two endpoints' transmit code is one class with a side, since it differs only in the aggregation limit, the admission test and the queued counters.
- Queued jobs as heap buffers: a queued job holds its record bytes as a value, so aliasing of job buffers is not modelled.
- The contents of backend calls other than writes: the backend sees operation ids, and its answers are parameters.
- HostTimer.HostWorker.NextWait: deadlines are unbounded, so the code's sentinel for "no deadline" cannot collide with one.
- Refinement.AggregationRefinesExactly: every record offered finds a slot and room in the queue, and the records of a batch sent singly share one outcome of allocator and transport; under the slot limit the two workers admit different records, because merged followers return their slots early.
- Refinement.SameStreams: the same two assumptions.
- Session.HelloOpens: the exchange is one step, and no Ethernet frame or CreditUpdate of an earlier session is still on a wire; credit laws across that boundary are not claimed.
- Sender.Sender.SendCreditUpdate: encoding, framing and submission of the update are one accepted flag, because its Protobuf encoding is left out.
- CreditGate.ReservedChannel.Settle: allocation, encoding and queueing of the record are one success flag; the OTA sender has them one by one.
