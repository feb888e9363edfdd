/** Raw records: an eight-byte header and a payload, laid end to end inside one frame payload
    (protocol/src/raw_record.c). */
module RawRecord {
  import opened Bytes

  const HEADER_SIZE: nat := 8

  datatype Record = Record(kind: byte, flags: byte, payload: seq<byte>)

  /** What one call of the iterator yields: a view of the payload at `at`, the end, or an error. */
  datatype Step =
    | View(kind: byte, flags: byte, at: nat, size: nat)
    | End
    | Bad(error: WireError)

  // ---------------------------------------------------------------------------------------
  // Encoding
  // ---------------------------------------------------------------------------------------

  function Header(kind: byte, flags: byte, size: uint32): (h: seq<byte>)
    ensures |h| == HEADER_SIZE
  {
    [kind, flags] + PutU16(HEADER_SIZE) + PutU32(size)
  }

  ghost predicate Encodable(r: Record) {
    |r.payload| <= UINT32_MAX
  }

  ghost predicate AllEncodable(rs: seq<Record>) {
    forall i :: 0 <= i < |rs| ==> Encodable(rs[i])
  }

  ghost function Encode(r: Record): (s: seq<byte>)
    requires Encodable(r)
    ensures |s| == HEADER_SIZE + |r.payload|
  {
    Header(r.kind, r.flags, |r.payload|) + r.payload
  }

  /** An aggregated payload: the encodings of the records, one after the other. */
  ghost function EncodeAll(rs: seq<Record>): seq<byte>
    requires AllEncodable(rs)
  {
    if |rs| == 0 then [] else Encode(rs[0]) + EncodeAll(rs[1..])
  }

  ghost function Patch(mem: seq<byte>, at: nat, bytes: seq<byte>): (m: seq<byte>)
    requires at + |bytes| <= |mem|
    ensures |m| == |mem|
  {
    mem[..at] + bytes + mem[at + |bytes|..]
  }

  /** The payload bytes the encoder moves: the header is already written when they are read. */
  ghost function MovedPayload(mem: seq<byte>, o: nat, header: seq<byte>, p: nat, n: nat): seq<byte>
    requires o + |header| <= |mem| && p + n <= |mem|
  {
    Patch(mem, o, header)[p..p + n]
  }

  method WriteHeader(output: array<byte>, o: nat, kind: byte, flags: byte, n: uint32)
    requires o + HEADER_SIZE <= output.Length
    modifies output
    ensures output[..] == Patch(old(output[..]), o, Header(kind, flags, n))
  {
    hide PutU16, PutU32;
    output[o] := kind;
    output[o + 1] := flags;
    WriteU16(output, o + 2, HEADER_SIZE);
    WriteU32(output, o + 4, n);
  }

  /** `wlh_raw_record_encode`: `output[o..]` is the destination, `source[p..]` the payload; the
      two arrays may be the same. */
  method EncodeInto(output: array<byte>, o: nat, capacity: nat, kind: byte, flags: byte,
                    source: array<byte>, p: nat, n: nat)
    returns (r: Result<nat>)
    requires o + capacity <= output.Length && p + n <= source.Length
    modifies output
    ensures r == if n > UINT32_MAX then Err(InvalidLength)
                 else if capacity < HEADER_SIZE + n then Err(BufferTooSmall)
                 else Ok(HEADER_SIZE + n)
    ensures r.Err? ==> output[..] == old(output[..])
    ensures r.Ok? ==> output[o..o + HEADER_SIZE] == Header(kind, flags, n)
    ensures r.Ok? ==> output[o + HEADER_SIZE..o + r.value] ==
                      if source == output
                      then MovedPayload(old(output[..]), o, Header(kind, flags, n), p, n)
                      else old(source[p..p + n])
    ensures r.Ok? ==> forall k :: 0 <= k < output.Length && !(o <= k < o + r.value) ==>
                                  output[k] == old(output[k])
  {
    if n > UINT32_MAX {
      return Err(InvalidLength);
    }
    if capacity < HEADER_SIZE + n {
      return Err(BufferTooSmall);
    }
    WriteHeader(output, o, kind, flags, n);
    assert output[o..o + HEADER_SIZE] == Header(kind, flags, n);
    MoveBytes(output, o + HEADER_SIZE, source, p, n);
    r := Ok(HEADER_SIZE + n);
  }

  ghost predicate PayloadKept(mem: seq<byte>, o: nat, kind: byte, flags: byte, p: nat, n: uint32)
    requires |mem| >= o + HEADER_SIZE && |mem| >= p + n
  {
    MovedPayload(mem, o, Header(kind, flags, n), p, n) == mem[p..p + n]
  }

  lemma PayloadLost(o: nat, p: nat, n: uint32) returns (mem: seq<byte>)
    requires n > 0 && p < o + HEADER_SIZE && o < p + n
    ensures |mem| >= o + HEADER_SIZE && |mem| >= p + n && !PayloadKept(mem, o, 0, 0, p, n)
  {
    var h := Header(0, 0, n);
    mem := seq<byte>(o + HEADER_SIZE + p + n,
      i requires 0 <= i => if o <= i < o + HEADER_SIZE then (h[i - o] as int + 1) % 0x100 else 0);
    var hit := if p <= o then o else p;
    assert MovedPayload(mem, o, h, p, n)[hit - p] == h[hit - o];
    assert mem[p..p + n][hit - p] == (h[hit - o] as int + 1) % 0x100;
  }

  /** The encoder may be given a payload inside its own output buffer in exactly the layouts
      where the payload misses the header bytes; `memmove` then makes any other overlap safe. */
  lemma EncodeInPlaceExactly(o: nat, p: nat, n: uint32)
    ensures (forall mem, kind, flags :: |mem| >= o + HEADER_SIZE && |mem| >= p + n ==>
                                        PayloadKept(mem, o, kind, flags, p, n))
        <==> n == 0 || p >= o + HEADER_SIZE || p + n <= o
  {
    if !(n == 0 || p >= o + HEADER_SIZE || p + n <= o) {
      var mem := PayloadLost(o, p, n);
      hide PayloadKept;
      assert !PayloadKept(mem, o, 0, 0, p, n);
    }
  }

  // ---------------------------------------------------------------------------------------
  // Iteration
  // ---------------------------------------------------------------------------------------

  /** One call of `wlh_raw_record_iterator_next` at `offset`. */
  function Next(data: seq<byte>, offset: nat): (s: Step) {
    if offset > |data| then Bad(InvalidArgument)
    else if offset == |data| then End
    else if |data| - offset < HEADER_SIZE then Bad(Truncated)
    else
      var headerSize := GetU16(data, offset + 2);
      var payloadSize := GetU32(data, offset + 4);
      if headerSize < HEADER_SIZE then Bad(InvalidHeaderSize)
      else if headerSize > |data| - offset then Bad(Truncated)
      else if payloadSize > |data| - offset - headerSize then Bad(Truncated)
      else View(data[offset], data[offset + 1], offset + headerSize, payloadSize)
  }

  lemma NextInBounds(data: seq<byte>, offset: nat)
    ensures var s := Next(data, offset);
            s.View? ==> offset + HEADER_SIZE <= s.at && s.at + s.size <= |data|
  {
  }

  class Iterator {
    const data: array<byte>
    const start: nat
    const size: nat
    var offset: nat

    constructor (data: array<byte>, start: nat, size: nat)
      requires start + size <= data.Length
      ensures this.data == data && this.start == start && this.size == size && offset == 0
    {
      this.data, this.start, this.size, this.offset := data, start, size, 0;
    }

    ghost predicate Valid() {
      start + size <= data.Length
    }

    ghost function Content(): (s: seq<byte>)
      requires Valid()
      reads data
    {
      data[start..start + size]
    }

    /** Views are relative to the first byte of the iterated region. */
    method Advance() returns (step: Step)
      requires Valid()
      modifies this
      ensures step == Next(Content(), old(offset))
      ensures offset == if step.View? then step.at + step.size else old(offset)
    {
      if offset > size {
        return Bad(InvalidArgument);
      }
      var remaining := size - offset;
      if remaining == 0 {
        return End;
      }
      if remaining < HEADER_SIZE {
        return Bad(Truncated);
      }
      var at := start + offset;
      var header := data[at..at + HEADER_SIZE];
      var headerSize := GetU16(header, 2);
      var payloadSize := GetU32(header, 4);
      if headerSize < HEADER_SIZE {
        return Bad(InvalidHeaderSize);
      }
      if headerSize > remaining {
        return Bad(Truncated);
      }
      if payloadSize > remaining - headerSize {
        return Bad(Truncated);
      }
      step := View(data[at], data[at + 1], offset + headerSize, payloadSize);
      offset := offset + headerSize + payloadSize;
    }
  }

  /** Every view handed out from `offset` on, up to the end or the first error. */
  function Views(data: seq<byte>, offset: nat): seq<Step>
    decreases |data| - offset
  {
    var s := Next(data, offset);
    if s.View? then [s] + Views(data, s.at + s.size) else []
  }

  /** The records from `offset` on, when the iteration ends without an error. */
  function ParseFrom(data: seq<byte>, offset: nat): Option<seq<Record>>
    decreases |data| - offset
  {
    match Next(data, offset)
    case End => Some([])
    case Bad(_) => None
    case View(kind, flags, at, size) =>
      match ParseFrom(data, at + size)
      case None => None
      case Some(rest) => Some([Record(kind, flags, data[at..at + size])] + rest)
  }

  function Parse(data: seq<byte>): Option<seq<Record>> {
    ParseFrom(data, 0)
  }

  /** Over arbitrary bytes there are at most `size / 8` views; each lies inside the data, and
      each starts past the end of every earlier one. */
  lemma {:induction false} ViewsDisjoint(data: seq<byte>, offset: nat)
    requires offset <= |data|
    ensures var vs := Views(data, offset);
            && HEADER_SIZE * |vs| <= |data| - offset
            && (forall i :: 0 <= i < |vs| ==>
                  vs[i].View? && offset + HEADER_SIZE <= vs[i].at && vs[i].at + vs[i].size <= |data|)
            && (forall i, j :: 0 <= i < j < |vs| ==>
                  vs[i].at + vs[i].size + HEADER_SIZE <= vs[j].at)
    decreases |data| - offset
  {
    var s := Next(data, offset);
    if s.View? {
      ViewsDisjoint(data, s.at + s.size);
    }
  }

  /** A payload that parses is exactly the views handed out. */
  lemma {:induction false} ParseIsViews(data: seq<byte>, offset: nat)
    ensures var vs := Views(data, offset);
            match ParseFrom(data, offset)
            case None => true
            case Some(rs) =>
              && |rs| == |vs|
              && forall i :: 0 <= i < |rs| ==>
                   && vs[i].View? && vs[i].at + vs[i].size <= |data|
                   && rs[i] == Record(vs[i].kind, vs[i].flags, data[vs[i].at..vs[i].at + vs[i].size])
    decreases |data| - offset
  {
    var s := Next(data, offset);
    if s.View? {
      ParseIsViews(data, s.at + s.size);
    }
  }

  lemma NextAtEnd(data: seq<byte>)
    ensures Next(data, |data|) == End
  {
  }

  lemma NextOfEncoded(pre: seq<byte>, r: Record, post: seq<byte>)
    requires Encodable(r)
    ensures Next(pre + Encode(r) + post, |pre|) ==
            View(r.kind, r.flags, |pre| + HEADER_SIZE, |r.payload|)
    ensures |pre + Encode(r) + post| >= |pre + Encode(r)|
    ensures (pre + Encode(r) + post)[|pre| + HEADER_SIZE..|pre + Encode(r)|] == r.payload
  {
    hide PutU16, PutU32, GetU16, GetU32;
    var data := pre + Encode(r) + post;
    var h := Header(r.kind, r.flags, |r.payload|);
    assert forall k :: 0 <= k < HEADER_SIZE ==> data[|pre| + k] == h[k];
    assert Holds(data, |pre| + 2, PutU16(HEADER_SIZE));
    assert Holds(data, |pre| + 4, PutU32(|r.payload|));
    U16Exact(data, |pre| + 2, HEADER_SIZE);
    U32Exact(data, |pre| + 4, |r.payload|);
    assert data[|pre|] == h[0] && data[|pre| + 1] == h[1];
  }

  lemma {:induction false} ParseOfEncodedFrom(pre: seq<byte>, rs: seq<Record>)
    requires AllEncodable(rs)
    ensures ParseFrom(pre + EncodeAll(rs), |pre|) == Some(rs)
    decreases |rs|
  {
    hide Next;
    var data := pre + EncodeAll(rs);
    if |rs| == 0 {
      NextAtEnd(data);
    } else {
      var first, rest := Encode(rs[0]), EncodeAll(rs[1..]);
      assert data == pre + first + rest;
      NextOfEncoded(pre, rs[0], rest);
      ParseOfEncodedFrom(pre + first, rs[1..]);
      assert rs == [rs[0]] + rs[1..];
    }
  }

  /** The iterator reads back exactly the records that were laid end to end. */
  lemma ParseOfEncoded(rs: seq<Record>)
    requires AllEncodable(rs)
    ensures Parse(EncodeAll(rs)) == Some(rs)
  {
    ParseOfEncodedFrom([], rs);
    assert [] + EncodeAll(rs) == EncodeAll(rs);
  }

  lemma {:induction false} EncodeAllConcat(a: seq<Record>, b: seq<Record>)
    requires AllEncodable(a) && AllEncodable(b)
    ensures AllEncodable(a + b)
    ensures EncodeAll(a + b) == EncodeAll(a) + EncodeAll(b)
    decreases |a|
  {
    hide Encode;
    if |a| == 0 {
      assert a + b == b;
    } else {
      assert (a + b)[1..] == a[1..] + b;
      EncodeAllConcat(a[1..], b);
      assert EncodeAll(a + b) == Encode(a[0]) + (EncodeAll(a[1..]) + EncodeAll(b));
    }
  }

  lemma EncodeAllOne(r: Record)
    requires Encodable(r)
    ensures EncodeAll([r]) == Encode(r)
  {
    assert [r][1..] == [];
    assert Encode(r) + [] == Encode(r);
  }
}
