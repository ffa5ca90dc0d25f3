/** When parsing a saved list stays inside its buffer: the parser looks at no size before it reads. */
module CodecBounds {
  import opened Bytes
  import opened Uefi
  import opened VariableMap
  import opened Codec

  /** The parser gives up on a record from the lengths in it, all of what it has read lying inside the buffer. */
  predicate RecordRefused(s: bytes) {
    && |s| >= 8
    && var n := Read64(s[..8]);
       || n == 0 || n > MAX_NAME_SIZE
       || (&& |s| >= 16 + n
           && var d := Read64(s[8 + n..16 + n]);
              d == 0 || (d > MAX_DATA_SIZE && |s| >= FIXED_SIZE + n + d))
  }

  /** Every read of one record, in order: a length, the name, a length, the data, and the fixed part behind them. */
  predicate RecordInside(s: bytes) {
    && |s| >= 8
    && var n := Read64(s[..8]);
       || n == 0 || n > MAX_NAME_SIZE
       || (&& |s| >= 16 + n
           && var d := Read64(s[8 + n..16 + n]);
              d == 0 || |s| >= FIXED_SIZE + n + d)
  }

  /** Every read of the walk over `count` records. */
  predicate WalkInside(s: bytes, count: nat)
    decreases count
  {
    count == 0 ||
    (RecordInside(s) && (DecodeRaw(s).Some? ==> WalkInside(DecodeRaw(s).value.rest, count - 1)))
  }

  /** Every read of the parser on a buffer: the list header, and the records it announces. */
  predicate ParseInside(buf: bytes, max: nat) {
    && |buf| >= LIST_HEADER_SIZE
    && (Read64(buf[8..16]) <= max ==> WalkInside(buf[LIST_HEADER_SIZE..], Read64(buf[8..16])))
  }

  lemma SecondField(s: bytes, n: nat)
    requires |s| >= 16 + n
    ensures s[8 + n..][..8] == s[8 + n..16 + n]
  {
  }

  /** One record is read inside the buffer exactly when it is parsed or refused from its lengths. */
  lemma RecordInsideIff(s: bytes)
    ensures RecordInside(s) <==> DecodeRaw(s).Some? || RecordRefused(s)
    ensures !(DecodeRaw(s).Some? && RecordRefused(s))
  {
    hide FromLE, DecodeTail;
    if |s| >= 8 && Read64(s[..8]) + 16 <= |s| {
      SecondField(s, Read64(s[..8]));
    }
  }

  /** The records parsed before the walk ends. */
  function Parsed(s: bytes, count: nat): nat
    decreases count
  {
    if count == 0 || DecodeRaw(s).None? then 0 else 1 + Parsed(DecodeRaw(s).value.rest, count - 1)
  }

  /** The rest of the buffer where the walk ends. */
  function WalkEnd(s: bytes, count: nat): bytes
    decreases count
  {
    if count == 0 || DecodeRaw(s).None? then s else WalkEnd(DecodeRaw(s).value.rest, count - 1)
  }

  /** The walk stays inside the buffer exactly when all records are parsed, or the first that is not is refused. */
  lemma {:induction false} WalkInsideIff(s: bytes, count: nat)
    ensures WalkInside(s, count) <==> DecodeRaws(s, count).Some? || RecordRefused(WalkEnd(s, count))
    ensures DecodeRaws(s, count).Some? <==> Parsed(s, count) == count
    ensures Parsed(s, count) <= count
    decreases count
  {
    hide RecordInside, RecordRefused, DecodeRaw;
    if count > 0 {
      RecordInsideIff(s);
      if DecodeRaw(s).Some? {
        WalkInsideIff(DecodeRaw(s).value.rest, count - 1);
      }
    }
  }

  /** An accepted buffer is never left, and neither is any list the service has printed. */
  lemma AcceptedIsInside(buf: bytes, max: nat)
    ensures DecodeList(buf, max).Some? ==> ParseInside(buf, max)
  {
    hide FromLE, DecodeRaws, WalkInside;
    if |buf| >= LIST_HEADER_SIZE {
      WalkInsideIff(buf[LIST_HEADER_SIZE..], Read64(buf[8..16]));
    }
  }

  /** A printed variable that is cut short anywhere is read beyond the buffer. */
  lemma CutRecordIsLeft(v: Variable, size: nat)
    requires Printable(v) && size < VariableSize(v)
    ensures !RecordInside(EncodeVar(v)[..size])
  {
    hide ToLE, FromLE, EncodeTime;
    var full, s := EncodeVar(v), EncodeVar(v)[..size];
    Widths();
    ReadWrite(|v.name|, 8);
    ReadWrite(|v.data|, 8);
    VarLengths(v);
    var n := |v.name|;
    if size >= 8 {
      assert s[..8] == full[..8];
      if size >= 16 + n {
        assert s[8 + n..16 + n] == full[8 + n..16 + n];
      }
    }
  }

  lemma VarLengths(v: Variable)
    ensures var s, n := EncodeVar(v), |v.name|;
            s[..8] == ToLE(|v.name|, 8) && s[8 + n..16 + n] == ToLE(|v.data|, 8)
  {
    hide ToLE, EncodeTime;
    var tail := v.guid + ToLE(v.attrs, 4) + EncodeTime(v.timestamp) + v.cert;
    var a, x, b := ToLE(|v.name|, 8), v.name, ToLE(|v.data|, 8);
    assert EncodeVar(v) == a + (x + (b + (v.data + tail)));
    ThreeParts(a, x, b + (v.data + tail));
    var behind := EncodeVar(v)[8 + |x|..];
    assert behind[..8] == b;
    assert EncodeVar(v)[8 + |x|..16 + |x|] == behind[..8];
  }

  // ---- The layout

  /** Where the fields of a printed variable lie: two length-prefixed fields, GUID, attributes, timestamp, digest. */
  lemma VariableLayout(v: Variable)
    requires Printable(v)
    ensures var s, n, d := EncodeVar(v), |v.name|, |v.data|;
            && |s| == 84 + n + d && Read64(s[..8]) == n && s[8..8 + n] == v.name
            && Read64(s[8 + n..16 + n]) == d && s[16 + n..16 + n + d] == v.data
            && s[16 + n + d..32 + n + d] == v.guid && Read32(s[32 + n + d..36 + n + d]) == v.attrs
            && DecodeTime(s[36 + n + d..52 + n + d]) == v.timestamp && s[52 + n + d..] == v.cert
  {
    hide ToLE, FromLE, EncodeTime, DecodeTime;
    Widths();
    ReadWrite(|v.name|, 8);
    ReadWrite(|v.data|, 8);
    ReadWrite(v.attrs, 4);
    TimeRoundTrip(v.timestamp);
    VarLengths(v);
    var s, n, d := EncodeVar(v), |v.name|, |v.data|;
    assert s[8..8 + n] == v.name && s[16 + n..16 + n + d] == v.data && s[16 + n + d..32 + n + d] == v.guid;
    assert s[32 + n + d..36 + n + d] == ToLE(v.attrs, 4) && s[36 + n + d..52 + n + d] == EncodeTime(v.timestamp);
    assert s[52 + n + d..] == v.cert;
  }

  /** The header of a printed list: VARS, version 1, the number of variables, the size of what follows. */
  lemma ListLayout(vs: seq<Variable>)
    requires |vs| < 0x1_0000_0000_0000_0000 && |EncodeVars(vs)| < 0x1_0000_0000_0000_0000
    ensures var s := EncodeList(vs);
            && |s| == 24 + |EncodeVars(vs)| && s[..4] == [0x56, 0x41, 0x52, 0x53] && Read32(s[4..8]) == 1
            && Read64(s[8..16]) == |vs| && Read64(s[16..24]) == |EncodeVars(vs)| && s[24..] == EncodeVars(vs)
  {
    hide ToLE, FromLE, EncodeVars;
    Widths();
    ReadWrite(1, 4);
    ReadWrite(|vs|, 8);
    ReadWrite(|EncodeVars(vs)|, 8);
    FiveParts(MAGIC, ToLE(1, 4), ToLE(|vs|, 8), ToLE(|EncodeVars(vs)|, 8), EncodeVars(vs));
  }

  lemma FiveParts(a: bytes, b: bytes, c: bytes, d: bytes, e: bytes)
    requires |a| == |b| == 4 && |c| == |d| == 8
    ensures var s := a + b + c + d + e;
            && |s| == 24 + |e| && s[..4] == a && s[4..8] == b && s[8..16] == c && s[16..24] == d && s[24..] == e
  {
  }

  /** The order of timestamps on their bytes: year first, then month, day, hour, minute, second. */
  lemma TimeRankBytes(s: bytes)
    requires |s| == 16
    ensures Rank(DecodeTime(s))
            == s[6] + 0x100 * s[5] + 0x1_0000 * s[4] + 0x100_0000 * s[3] + 0x1_0000_0000 * s[2]
               + 0x100_0000_0000 * Read16(s[0..2])
  {
    hide FromLE;
  }
}
