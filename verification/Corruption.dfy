/** What the frame checksums are for: which corrupted frames the decoder cannot accept. */
module Corruption {
  import opened Bytes
  import opened Checksum
  import opened FrameCodec

  /** `t` is `s` with something changed, all of it inside `[lo, hi)`. */
  ghost predicate ChangedWithin(s: seq<byte>, t: seq<byte>, lo: nat, hi: nat) {
    && |s| == |t| && lo < hi <= |s|
    && (exists k :: lo <= k < hi && s[k] != t[k])
    && forall k :: 0 <= k < |s| && !(lo <= k < hi) ==> s[k] == t[k]
  }

  /** Either one byte, or up to four consecutive bytes of a frame that carries CRC-32C. */
  ghost predicate Detectable(lo: nat, hi: nat, flags: byte) {
    hi == lo + 1 || (flags % 2 == CRC32C_FLAG && lo < hi <= lo + 4)
  }

  lemma ChecksumDetects(s: seq<byte>, t: seq<byte>, lo: nat, hi: nat, flags: byte)
    requires ChangedWithin(s, t, lo, hi) && Detectable(lo, hi, flags)
    ensures FrameChecksum(s, flags) != FrameChecksum(t, flags)
  {
    hide Sum32, Crc32c, ChangedWithin;
    Cut(s, t, lo, hi);
    if flags % 2 == CRC32C_FLAG {
      Crc32cDetectsBurst(s[..lo], s[lo..hi], t[lo..hi], s[hi..]);
    } else {
      OneChanged(s, t, lo);
      Sum32DetectsOneByte(s, t, lo);
    }
  }

  lemma Cut(s: seq<byte>, t: seq<byte>, lo: nat, hi: nat)
    requires ChangedWithin(s, t, lo, hi)
    ensures lo <= hi <= |s| == |t| && s[lo..hi] != t[lo..hi]
    ensures s == s[..lo] + s[lo..hi] + s[hi..] && t == s[..lo] + t[lo..hi] + s[hi..]
  {
    var k :| lo <= k < hi && s[k] != t[k];
    assert s[lo..hi][k - lo] != t[lo..hi][k - lo];
  }

  lemma OneChanged(s: seq<byte>, t: seq<byte>, i: nat)
    requires ChangedWithin(s, t, i, i + 1)
    ensures i < |s| == |t| && s[i] != t[i] && forall k :: 0 <= k < |s| && k != i ==> s[k] == t[k]
  {
  }

  /** The bytes the header checksum covers: those of the frame, its own field read as zero. */
  lemma CoveredHeader(frame: seq<byte>)
    requires |frame| >= HEADER_SIZE
    ensures var covered := HeaderBytes(HeaderAt(frame).(headerChecksum := 0));
            forall k :: 0 <= k < HEADER_SIZE ==>
                        covered[k] == if 16 <= k < 20 then 0 else frame[k]
  {
    hide HeaderAt, PutU16;
    HeaderFields(frame, HeaderAt(frame));
    assert forall k :: 0 <= k < HEADER_SIZE ==> frame[..HEADER_SIZE][k] == frame[k];
    assert PutU32(0) == [0, 0, 0, 0];
  }

  lemma HeaderChangeRejected(f: seq<byte>, g: seq<byte>, lo: nat, hi: nat, max: nat)
    requires Decode(f, max).Ok? && ChangedWithin(f, g, lo, hi)
    requires hi <= HEADER_SIZE && (hi <= 16 || lo >= 20)
    requires Detectable(lo, hi, f[5]) && f[5] % 2 == g[5] % 2
    ensures Decode(g, max).Err?
  {
    hide HeaderBytes, FrameChecksum, GetU16, GetU32;
    var a := HeaderBytes(HeaderAt(f).(headerChecksum := 0));
    var b := HeaderBytes(HeaderAt(g).(headerChecksum := 0));
    CoveredHeader(f);
    CoveredHeader(g);
    assert a[lo..hi] == f[lo..hi] && b[lo..hi] == g[lo..hi];
    ChecksumDetects(a, b, lo, hi, f[5]);
    SameField(f, g, 16);
    SameMode(b, f[5], g[5]);
  }

  lemma SameMode(s: seq<byte>, flags: byte, other: byte)
    requires flags % 2 == other % 2
    ensures FrameChecksum(s, flags) == FrameChecksum(s, other)
  {
  }

  lemma SameField(s: seq<byte>, t: seq<byte>, at: nat)
    requires at + 4 <= |s| && at + 4 <= |t|
    ensures GetU32(s, at) == GetU32(t, at) <==> s[at..at + 4] == t[at..at + 4]
  {
    hide PutU32, GetU32;
    var v := GetU32(s, at);
    U32Exact(s, at, v);
    U32Exact(t, at, v);
    var x, y := s[at..at + 4], t[at..at + 4];
    assert forall k :: 0 <= k < 4 ==> x[k] == s[at + k];
    assert forall k :: 0 <= k < 4 ==> y[k] == t[at + k];
    if x == y {
      assert forall k :: 0 <= k < 4 ==> x[k] == y[k];
      assert Holds(t, at, PutU32(v));
    } else if Holds(t, at, PutU32(v)) {
      assert forall k :: 0 <= k < 4 ==> x[k] == PutU32(v)[k] == y[k];
    }
  }

  /** A changed checksum field no longer matches the unchanged bytes it covers. */
  lemma ChecksumFieldChangeRejected(f: seq<byte>, g: seq<byte>, lo: nat, hi: nat, max: nat)
    requires Decode(f, max).Ok? && ChangedWithin(f, g, lo, hi) && 16 <= lo && hi <= 20
    ensures Decode(g, max).Err?
  {
    hide HeaderBytes, FrameChecksum, GetU16, GetU32;
    var a := HeaderBytes(HeaderAt(f).(headerChecksum := 0));
    var b := HeaderBytes(HeaderAt(g).(headerChecksum := 0));
    CoveredHeader(f);
    CoveredHeader(g);
    assert a == b;
    SameField(f, g, 16);
    var k :| lo <= k < hi && f[k] != g[k];
    assert f[16..20][k - 16] != g[16..20][k - 16];
  }

  lemma PayloadChangeRejected(f: seq<byte>, g: seq<byte>, lo: nat, hi: nat, max: nat)
    requires Decode(f, max).Ok? && ChangedWithin(f, g, lo, hi)
    requires HEADER_SIZE <= lo && Detectable(lo, hi, f[5])
    ensures Decode(g, max).Err?
  {
    hide HeaderBytes, FrameChecksum, HeaderAt;
    assert f[..HEADER_SIZE] == g[..HEADER_SIZE];
    HeaderFields(f, HeaderAt(f));
    HeaderFields(g, HeaderAt(f));
    FlagsByte(f);
    var p, q := f[HEADER_SIZE..], g[HEADER_SIZE..];
    assert p[lo - HEADER_SIZE..hi - HEADER_SIZE] == f[lo..hi];
    assert q[lo - HEADER_SIZE..hi - HEADER_SIZE] == g[lo..hi];
    ChecksumDetects(p, q, lo - HEADER_SIZE, hi - HEADER_SIZE, f[5]);
  }

  lemma FlagsByte(frame: seq<byte>)
    requires |frame| >= HEADER_SIZE
    ensures HeaderAt(frame).flags == frame[5]
  {
  }

  /** No accepted frame turns into another accepted frame when a single byte of it changes, or,
      under CRC-32C, up to four consecutive bytes that lie all inside or all outside the header
      checksum field; the change must leave alone the flag that selects the checksum. */
  lemma CorruptionRejected(f: seq<byte>, g: seq<byte>, lo: nat, hi: nat, max: nat)
    requires Decode(f, max).Ok? && ChangedWithin(f, g, lo, hi) && Detectable(lo, hi, f[5])
    requires hi <= 16 || lo >= 20 || (16 <= lo && hi <= 20)
    requires f[5] % 2 == g[5] % 2
    ensures Decode(g, max).Err?
  {
    hide HeaderBytes, FrameChecksum, HeaderAt;
    if hi <= 16 || (20 <= lo && hi <= HEADER_SIZE) {
      HeaderChangeRejected(f, g, lo, hi, max);
    } else if HEADER_SIZE <= lo {
      PayloadChangeRejected(f, g, lo, hi, max);
    } else if hi <= 20 {
      ChecksumFieldChangeRejected(f, g, lo, hi, max);
    } else if f[lo..HEADER_SIZE] == g[lo..HEADER_SIZE] {
      SplitChange(f, g, lo, hi);
      PayloadChangeRejected(f, g, HEADER_SIZE, hi, max);
    } else {
      StraddlingChangeRejected(f, g, lo, hi, max);
    }
  }

  lemma SplitChange(f: seq<byte>, g: seq<byte>, lo: nat, hi: nat)
    requires ChangedWithin(f, g, lo, hi) && lo < HEADER_SIZE < hi
    requires f[lo..HEADER_SIZE] == g[lo..HEADER_SIZE]
    ensures ChangedWithin(f, g, HEADER_SIZE, hi)
  {
    assert f[lo..hi] == f[lo..HEADER_SIZE] + f[HEADER_SIZE..hi];
    assert g[lo..hi] == g[lo..HEADER_SIZE] + g[HEADER_SIZE..hi];
    forall k | lo <= k < HEADER_SIZE
      ensures f[k] == g[k]
    {
      assert f[k] == f[lo..HEADER_SIZE][k - lo] && g[k] == g[lo..HEADER_SIZE][k - lo];
    }
  }

  /** The header part of a change that runs on into the payload is caught by itself. */
  lemma StraddlingChangeRejected(f: seq<byte>, g: seq<byte>, lo: nat, hi: nat, max: nat)
    requires Decode(f, max).Ok? && ChangedWithin(f, g, lo, hi) && Detectable(lo, hi, f[5])
    requires 20 <= lo < HEADER_SIZE < hi && f[lo..HEADER_SIZE] != g[lo..HEADER_SIZE]
    ensures Decode(g, max).Err?
  {
    hide HeaderBytes, FrameChecksum, GetU16, GetU32;
    var a := HeaderBytes(HeaderAt(f).(headerChecksum := 0));
    var b := HeaderBytes(HeaderAt(g).(headerChecksum := 0));
    CoveredHeader(f);
    CoveredHeader(g);
    assert a[lo..HEADER_SIZE] == f[lo..HEADER_SIZE] && b[lo..HEADER_SIZE] == g[lo..HEADER_SIZE];
    ChecksumDetects(a, b, lo, HEADER_SIZE, f[5]);
    SameField(f, g, 16);
  }
}
