/** The OTA stream record: a raw record whose payload is a 16-byte little-endian sub-header and a
    piece of the firmware image. */
module OtaStream {
  import opened Bytes
  import RawRecord

  const SUB_HEADER: nat := 16
  const RECORD_TYPE: byte := 1

  /** The data of one chunk; its size must fit the 16-bit size field. */
  type Data = s: seq<byte> | |s| <= 0xffff

  datatype Chunk = Chunk(transfer: uint32, offset: uint64, data: Data)

  function SubHeader(c: Chunk): (s: seq<byte>)
    ensures |s| == SUB_HEADER
  {
    PutU32(c.transfer) + PutU64(c.offset) + PutU16(|c.data|) + PutU16(0)
  }

  function Record(c: Chunk): RawRecord.Record
  {
    RawRecord.Record(RECORD_TYPE, 0, SubHeader(c) + c.data)
  }

  /** What the Host queues for one chunk. */
  ghost function Written(c: Chunk): seq<byte>
  {
    RawRecord.Encode(Record(c))
  }

  /** What the Coprocessor makes of a stream payload: exactly one record, whose declared size is
      the size it has. */
  function Read(payload: seq<byte>): Option<Chunk> {
    var s := RawRecord.Next(payload, 0);
    if !s.View? || s.kind != RECORD_TYPE || s.size < SUB_HEADER || s.at + s.size > |payload| then None
    else if RawRecord.Next(payload, s.at + s.size) != RawRecord.End then None
    else
      var record := payload[s.at..s.at + s.size];
      if GetU16(record, 12) != s.size - SUB_HEADER then None
      else Some(Chunk(GetU32(record, 0), GetU64(record, 4), record[SUB_HEADER..]))
  }

  lemma SubHeaderFields(c: Chunk)
    ensures var record := SubHeader(c) + c.data;
            && GetU32(record, 0) == c.transfer && GetU64(record, 4) == c.offset
            && GetU16(record, 12) == |c.data| && record[SUB_HEADER..] == c.data
  {
    hide PutU32, PutU64, PutU16, GetU32, GetU64, GetU16;
    var record := SubHeader(c) + c.data;
    assert Holds(record, 0, PutU32(c.transfer));
    assert Holds(record, 4, PutU64(c.offset));
    assert Holds(record, 12, PutU16(|c.data|));
    U32Exact(record, 0, c.transfer);
    U64Exact(record, 4, c.offset);
    U16Exact(record, 12, |c.data|);
  }

  /** The Coprocessor reads exactly the transfer, offset and bytes the Host wrote. */
  lemma ReadOfWritten(c: Chunk)
    ensures Read(Written(c)) == Some(c)
  {
    hide RawRecord.Next, SubHeader, GetU16, GetU32, GetU64;
    var r := Record(c);
    RawRecord.NextOfEncoded([], r, []);
    assert [] + RawRecord.Encode(r) + [] == Written(c);
    RawRecord.NextAtEnd(Written(c));
    SubHeaderFields(c);
  }
}
