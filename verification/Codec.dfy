/** The byte form of variables and of the variable list saved outside the guest. */
module Codec {
  import opened Bytes
  import opened Uefi
  import opened VariableMap

  const LIST_HEADER_SIZE: nat := 24

  /** Bytes around the name and the data of one variable: two lengths, GUID, attributes, timestamp, digest. */
  const FIXED_SIZE: nat := 84

  function VariableSize(v: Variable): nat {
    FIXED_SIZE + |v.name| + |v.data|
  }

  function EncodeVar(v: Variable): (s: bytes)
    ensures |s| == VariableSize(v)
  {
    ToLE(|v.name|, 8) + v.name + ToLE(|v.data|, 8) + v.data
    + v.guid + ToLE(v.attrs, 4) + EncodeTime(v.timestamp) + v.cert
  }

  /** A decoded variable and the bytes behind it. */
  datatype Decoded = Decoded(v: Variable, rest: bytes)

  /** The 68 bytes behind the data: GUID, attributes, timestamp, digest. */
  function DecodeTail(name: bytes, data: bytes, s: bytes): Variable
    requires |s| >= 68
  {
    Variable(name, s[..16], data, Read32(s[16..20]), DecodeTime(s[20..36]), s[36..68])
  }

  /** A length-prefixed field; None when the buffer ends inside it. */
  function DecodeField(s: bytes): Option<(bytes, bytes)> {
    if |s| < 8 || Read64(s[..8]) > |s| - 8 then None
    else
      var n := Read64(s[..8]);
      Some((s[8..8 + n], s[8 + n..]))
  }

  /** One variable as the parser takes it, its name still as it stands in the buffer. */
  function DecodeRaw(s: bytes): Option<Decoded> {
    match DecodeField(s)
    case None => None
    case Some((name, s1)) =>
      if name == [] || |name| > MAX_NAME_SIZE then None
      else
        match DecodeField(s1)
        case None => None
        case Some((data, s2)) =>
          if data == [] || |data| > MAX_DATA_SIZE || |s2| < 68 then None
          else Some(Decoded(DecodeTail(name, data, s2), s2[68..]))
  }

  function Sanitized(v: Variable): Variable {
    v.(name := SanitizedName(v.name))
  }

  function DecodeVar(s: bytes): Option<Decoded> {
    match DecodeRaw(s)
    case None => None
    case Some(d) => Some(d.(v := Sanitized(d.v)))
  }

  // ---- One variable

  predicate Printable(v: Variable) {
    1 <= |v.name| <= MAX_NAME_SIZE && 1 <= |v.data| <= MAX_DATA_SIZE
  }

  lemma ThreeParts(a: bytes, x: bytes, rest: bytes)
    ensures var s := a + (x + rest);
            s[..|a|] == a && s[|a|..|a| + |x|] == x && s[|a| + |x|..] == rest
  {
  }

  lemma FieldRoundTrip(x: bytes, rest: bytes)
    requires |x| <= MAX_DATA_SIZE
    ensures DecodeField(ToLE(|x|, 8) + (x + rest)) == Some((x, rest))
  {
    Widths();
    ReadWrite(|x|, 8);
    hide ToLE, FromLE;
    ThreeParts(ToLE(|x|, 8), x, rest);
  }

  lemma FieldReprint(s: bytes)
    requires DecodeField(s).Some?
    ensures var (x, rest) := DecodeField(s).value; ToLE(|x|, 8) + (x + rest) == s
  {
    hide ToLE, FromLE;
    WriteRead(s[..8]);
    var n := Read64(s[..8]);
    assert s == s[..8] + (s[8..8 + n] + s[8 + n..]);
  }

  function EncodeTail(v: Variable): (s: bytes)
    ensures |s| == 68
  {
    v.guid + ToLE(v.attrs, 4) + EncodeTime(v.timestamp) + v.cert
  }

  lemma TailRoundTrip(v: Variable, rest: bytes)
    ensures DecodeTail(v.name, v.data, EncodeTail(v) + rest) == v
    ensures (EncodeTail(v) + rest)[68..] == rest
  {
    var s := EncodeTail(v) + rest;
    Widths();
    ReadWrite(v.attrs, 4);
    TimeRoundTrip(v.timestamp);
    hide ToLE, FromLE, EncodeTime, DecodeTime;
    assert s[..16] == v.guid && s[16..20] == ToLE(v.attrs, 4);
    assert s[20..36] == EncodeTime(v.timestamp) && s[36..68] == v.cert;
  }

  lemma TailReprint(name: bytes, data: bytes, s: bytes)
    requires |s| >= 68
    ensures EncodeTail(DecodeTail(name, data, s)) == s[..68]
  {
    WriteRead(s[16..20]);
    TimeReprint(s[20..36]);
    hide ToLE, FromLE, EncodeTime, DecodeTime;
    assert s[..68] == s[..16] + s[16..20] + s[20..36] + s[36..68];
  }

  lemma EncodeParts(v: Variable, rest: bytes)
    ensures EncodeVar(v) + rest
            == ToLE(|v.name|, 8) + (v.name + (ToLE(|v.data|, 8) + (v.data + (EncodeTail(v) + rest))))
  {
    hide ToLE, EncodeTime;
  }

  /** Decoding a printed variable gives the variable back, whatever follows it. */
  lemma RawRoundTrip(v: Variable, rest: bytes)
    requires Printable(v)
    ensures DecodeRaw(EncodeVar(v) + rest) == Some(Decoded(v, rest))
  {
    EncodeParts(v, rest);
    TailRoundTrip(v, rest);
    FieldRoundTrip(v.data, EncodeTail(v) + rest);
    FieldRoundTrip(v.name, ToLE(|v.data|, 8) + (v.data + (EncodeTail(v) + rest)));
    hide EncodeVar, EncodeTail, DecodeTail, DecodeField, ToLE;
  }

  /** Reprinting a decoded variable gives the bytes it was decoded from. */
  lemma RawReprint(s: bytes)
    requires DecodeRaw(s).Some?
    ensures var d := DecodeRaw(s).value; Printable(d.v) && EncodeVar(d.v) + d.rest == s
  {
    var d := DecodeRaw(s).value;
    var (name, s1) := DecodeField(s).value;
    var (data, s2) := DecodeField(s1).value;
    FieldReprint(s);
    FieldReprint(s1);
    TailReprint(name, data, s2);
    EncodeParts(d.v, d.rest);
    assert s2 == s2[..68] + s2[68..];
    hide EncodeVar, EncodeTail, DecodeTail, DecodeField, ToLE;
  }

  // ---- Lists

  function EncodeVars(vs: seq<Variable>): bytes {
    if vs == [] then [] else EncodeVar(vs[0]) + EncodeVars(vs[1..])
  }

  /** The variables of `count` consecutive records, names as they stand, and what follows. */
  function DecodeRaws(s: bytes, count: nat): Option<(seq<Variable>, bytes)> {
    if count == 0 then Some(([], s))
    else match DecodeRaw(s)
      case None => None
      case Some(d) =>
        match DecodeRaws(d.rest, count - 1)
        case None => None
        case Some((vs, rest)) => Some(([d.v] + vs, rest))
  }

  function SanitizedAll(vs: seq<Variable>): (r: seq<Variable>)
    ensures |r| == |vs| && forall i :: 0 <= i < |vs| ==> r[i] == Sanitized(vs[i])
  {
    if vs == [] then [] else [Sanitized(vs[0])] + SanitizedAll(vs[1..])
  }

  const MAGIC: bytes := [0x56, 0x41, 0x52, 0x53]

  function ListHeader(vs: seq<Variable>): bytes {
    MAGIC + ToLE(1, 4) + ToLE(|vs|, 8) + ToLE(|EncodeVars(vs)|, 8)
  }

  function EncodeList(vs: seq<Variable>): bytes {
    ListHeader(vs) + EncodeVars(vs)
  }

  /** The list as it stands in the buffer: only the count of the header matters, and no byte may be left over. */
  function DecodeRawList(s: bytes, max: nat): Option<seq<Variable>> {
    if |s| < LIST_HEADER_SIZE || Read64(s[8..16]) > max then None
    else match DecodeRaws(s[LIST_HEADER_SIZE..], Read64(s[8..16]))
      case None => None
      case Some((vs, rest)) => if rest == [] then Some(vs) else None
  }

  function DecodeVars(s: bytes, count: nat): Option<(seq<Variable>, bytes)> {
    if count == 0 then Some(([], s))
    else match DecodeVar(s)
      case None => None
      case Some(d) => Prepend([d.v], DecodeVars(d.rest, count - 1))
  }

  /** What the parser returns for a buffer: the variables with their names as they are stored. */
  function DecodeList(s: bytes, max: nat): Option<seq<Variable>> {
    match DecodeRawList(s, max)
    case None => None
    case Some(vs) => Some(SanitizedAll(vs))
  }

  /** Records decoded earlier in front of the ones still to come. */
  function Prepend(before: seq<Variable>, r: Option<(seq<Variable>, bytes)>): Option<(seq<Variable>, bytes)> {
    match r
    case None => None
    case Some((vs, rest)) => Some((before + vs, rest))
  }

  lemma {:induction false} VarsAreSanitizedRaws(s: bytes, count: nat)
    ensures DecodeVars(s, count) == match DecodeRaws(s, count) {
                                      case None => None
                                      case Some((vs, rest)) => Some((SanitizedAll(vs), rest)) }
    decreases count
  {
    hide DecodeRaw, Sanitized;
    if count > 0 && DecodeRaw(s).Some? {
      var d := DecodeRaw(s).value;
      VarsAreSanitizedRaws(d.rest, count - 1);
      if DecodeRaws(d.rest, count - 1).Some? {
        var vs := DecodeRaws(d.rest, count - 1).value.0;
        assert ([d.v] + vs)[1..] == vs;
      }
    }
  }

  predicate AllPrintable(vs: seq<Variable>) {
    forall v <- vs :: Printable(v)
  }

  lemma {:induction false} VarsRoundTrip(vs: seq<Variable>, rest: bytes)
    requires AllPrintable(vs)
    ensures DecodeRaws(EncodeVars(vs) + rest, |vs|) == Some((vs, rest))
  {
    hide EncodeVar, DecodeRaw, Printable;
    if vs == [] {
      assert [] + rest == rest;
    } else {
      assert vs[0] in vs;
      VarsRoundTrip(vs[1..], rest);
      RawRoundTrip(vs[0], EncodeVars(vs[1..]) + rest);
      assert EncodeVars(vs) + rest == EncodeVar(vs[0]) + (EncodeVars(vs[1..]) + rest);
      assert vs == [vs[0]] + vs[1..];
    }
  }

  lemma {:induction false} VarsReprint(s: bytes, count: nat)
    requires DecodeRaws(s, count).Some?
    ensures var (vs, rest) := DecodeRaws(s, count).value;
            |vs| == count && AllPrintable(vs) && EncodeVars(vs) + rest == s
    decreases count
  {
    hide EncodeVar, DecodeRaw, Printable;
    if count > 0 {
      var d := DecodeRaw(s).value;
      RawReprint(s);
      VarsReprint(d.rest, count - 1);
      var (vs, rest) := DecodeRaws(d.rest, count - 1).value;
      assert ([d.v] + vs)[1..] == vs;
      assert EncodeVar(d.v) + (EncodeVars(vs) + rest) == (EncodeVar(d.v) + EncodeVars(vs)) + rest;
    }
  }

  lemma ListParts(vs: seq<Variable>)
    requires |vs| < 0x1_0000_0000_0000_0000
    ensures var s := EncodeList(vs);
            && |s| == LIST_HEADER_SIZE + |EncodeVars(vs)|
            && Read64(s[8..16]) == |vs| && s[LIST_HEADER_SIZE..] == EncodeVars(vs)
  {
    Widths();
    ReadWrite(|vs|, 8);
    hide ToLE, FromLE, EncodeVars;
    HeaderParts(MAGIC, ToLE(1, 4), ToLE(|vs|, 8), ToLE(|EncodeVars(vs)|, 8), EncodeVars(vs));
  }

  lemma HeaderParts(magic: bytes, version: bytes, count: bytes, size: bytes, body: bytes)
    requires |magic| == 4 && |version| == 4 && |count| == 8 && |size| == 8
    ensures var s := magic + version + count + size + body;
            |s| == LIST_HEADER_SIZE + |body| && s[8..16] == count && s[LIST_HEADER_SIZE..] == body
  {
  }

  /** Parsing a printed list returns the same variables. */
  lemma ListRoundTrip(vs: seq<Variable>, max: nat)
    requires AllPrintable(vs) && |vs| <= max < 0x1_0000_0000_0000_0000
    ensures DecodeRawList(EncodeList(vs), max) == Some(vs)
    ensures (forall v <- vs :: SanitizedName(v.name) == v.name) ==> DecodeList(EncodeList(vs), max) == Some(vs)
  {
    hide EncodeList, EncodeVars, DecodeRaws, Printable, SanitizedName, FromLE;
    ListParts(vs);
    VarsRoundTrip(vs, []);
    assert EncodeVars(vs) + [] == EncodeVars(vs);
    if forall v <- vs :: SanitizedName(v.name) == v.name {
      assert SanitizedAll(vs) == vs;
    }
  }

  /** The header the printer would write for this buffer. */
  predicate CanonicalHeader(s: bytes)
    requires |s| >= LIST_HEADER_SIZE
  {
    s[..8] == MAGIC + ToLE(1, 4) && s[16..24] == ToLE(|s| - LIST_HEADER_SIZE, 8)
  }

  predicate NamesKept(vs: seq<Variable>) {
    forall v <- vs :: SanitizedName(v.name) == v.name
  }

  lemma {:induction false} SanitizedSize(vs: seq<Variable>)
    ensures |EncodeVars(SanitizedAll(vs))| <= |EncodeVars(vs)|
    ensures |EncodeVars(SanitizedAll(vs))| == |EncodeVars(vs)| <==> NamesKept(vs)
  {
    if vs != [] {
      SanitizedSize(vs[1..]);
      assert SanitizedAll(vs)[1..] == SanitizedAll(vs[1..]);
      assert NamesKept(vs) <==> SanitizedName(vs[0].name) == vs[0].name && NamesKept(vs[1..]);
    }
  }

  /**
   Reprinting an accepted buffer gives the same bytes exactly when its header is the canonical one and none of
   its names ends in a NUL code unit.
   */
  lemma ListReprint(s: bytes, max: nat)
    requires max < 0x1_0000_0000_0000_0000 && DecodeRawList(s, max).Some?
    ensures DecodeList(s, max).Some?
    ensures EncodeList(DecodeList(s, max).value) == s
            <==> CanonicalHeader(s) && NamesKept(DecodeRawList(s, max).value)
  {
    hide DecodeRaws;
    var raw := DecodeRawList(s, max).value;
    var vs := SanitizedAll(raw);
    var body := s[LIST_HEADER_SIZE..];
    VarsReprint(body, Read64(s[8..16]));
    assert EncodeVars(raw) + [] == EncodeVars(raw);
    assert EncodeVars(raw) == body;
    SanitizedSize(raw);
    ListParts(vs);
    WriteRead(s[8..16]);
    if NamesKept(raw) {
      assert vs == raw;
      ListBytes(s, |raw|, body);
    }
  }

  lemma ListBytes(s: bytes, n: nat, body: bytes)
    requires |s| >= LIST_HEADER_SIZE && body == s[LIST_HEADER_SIZE..] && s[8..16] == ToLE(n, 8)
    ensures MAGIC + ToLE(1, 4) + ToLE(n, 8) + ToLE(|body|, 8) + body == s <==> CanonicalHeader(s)
  {
    hide ToLE;
    var t := MAGIC + ToLE(1, 4) + ToLE(n, 8) + ToLE(|body|, 8) + body;
    assert t[..8] == MAGIC + ToLE(1, 4) && t[16..24] == ToLE(|body|, 8);
    if CanonicalHeader(s) {
      assert s == s[..8] + s[8..16] + s[16..24] + s[24..];
    }
  }

  // ---- The loops that print and parse lists

  /** `list_size`: the header and the sizes of the variables. */
  method ListSize(vs: seq<Variable>) returns (size: nat)
    requires |vs| < 0x1_0000_0000_0000_0000
    ensures size == |EncodeList(vs)|
  {
    ListParts(vs);
    size := LIST_HEADER_SIZE;
    for i := 0 to |vs|
      invariant size + |EncodeVars(vs[i..])| == LIST_HEADER_SIZE + |EncodeVars(vs)|
    {
      assert vs[i..][1..] == vs[i + 1..];
      size := size + VariableSize(vs[i]);
    }
  }

  /** `payload_size`: the sizes of the variables alone. */
  method PayloadSize(vs: seq<Variable>) returns (size: nat)
    ensures size == |EncodeVars(vs)|
  {
    size := 0;
    for i := 0 to |vs|
      invariant size + |EncodeVars(vs[i..])| == |EncodeVars(vs)|
    {
      assert vs[i..][1..] == vs[i + 1..];
      size := size + VariableSize(vs[i]);
    }
  }

  /** How many leading variables fit into `size` bytes. */
  function Fitting(vs: seq<Variable>, size: int): (n: nat)
    ensures n <= |vs|
  {
    if vs == [] || VariableSize(vs[0]) > size then 0 else 1 + Fitting(vs[1..], size - VariableSize(vs[0]))
  }

  lemma {:induction false} AllFitIff(vs: seq<Variable>, size: int)
    requires size >= 0
    ensures Fitting(vs, size) == |vs| <==> |EncodeVars(vs)| <= size
  {
    if vs != [] && VariableSize(vs[0]) <= size {
      AllFitIff(vs[1..], size - VariableSize(vs[0]));
    }
  }

  lemma {:induction false} SplitVars(vs: seq<Variable>, i: nat)
    requires i <= |vs|
    ensures EncodeVars(vs) == EncodeVars(vs[..i]) + EncodeVars(vs[i..])
  {
    hide EncodeVar;
    if i == 0 {
      assert vs[0..] == vs && EncodeVars([]) + EncodeVars(vs) == EncodeVars(vs);
    } else {
      SplitVars(vs[1..], i - 1);
      assert vs[..i][1..] == vs[1..][..i - 1] && vs[1..][i - 1..] == vs[i..];
      AppendVar([], vs[0], EncodeVars(vs[..i][1..]));
      assert EncodeVar(vs[0]) + (EncodeVars(vs[..i][1..]) + EncodeVars(vs[i..]))
          == (EncodeVar(vs[0]) + EncodeVars(vs[..i][1..])) + EncodeVars(vs[i..]);
    }
  }

  /**
   Prints a list for a buffer of `size` bytes: the header, and as many variables as fit. The return code is zero when
   all of them do.
   */
  method SerializeVariableList(vs: seq<Variable>, size: nat) returns (out: bytes, code: nat)
    ensures var n := Fitting(vs, size);
            && out == ListHeader(vs) + EncodeVars(vs[..n])
            && code == if n == |vs| then 0 else n
    ensures |EncodeVars(vs)| <= size ==> out == EncodeList(vs) && code == 0
  {
    hide EncodeVar, ToLE;
    AllFitIff(vs, size);
    var payload := PayloadSize(vs);
    out := MAGIC + ToLE(1, 4) + ToLE(|vs|, 8) + ToLE(payload, 8);
    ghost var head := out;
    var sum := 0;
    for i := 0 to |vs|
      invariant out == head + EncodeVars(vs[..i]) && sum <= size
      invariant Fitting(vs, size) == i + Fitting(vs[i..], size - sum)
    {
      assert vs[i..][0] == vs[i] && vs[i..][1..] == vs[i + 1..];
      sum := sum + VariableSize(vs[i]);
      if sum > size {
        return out, i;
      }
      OneMoreVar(head, vs, i);
      out := out + EncodeVar(vs[i]);
    }
    assert vs[..|vs|] == vs;
    code := 0;
  }

  lemma OneMoreVar(head: bytes, vs: seq<Variable>, i: nat)
    requires i < |vs|
    ensures (head + EncodeVars(vs[..i])) + EncodeVar(vs[i]) == head + EncodeVars(vs[..i + 1])
  {
    hide EncodeVar;
    var t := vs[..i + 1];
    SplitVars(t, i);
    assert t[..i] == vs[..i] && t[i..] == [vs[i]];
    assert EncodeVars([vs[i]]) == EncodeVar(vs[i]) by {
      assert [vs[i]][1..] == [];
      assert EncodeVar(vs[i]) + [] == EncodeVar(vs[i]);
    }
    assert (head + EncodeVars(vs[..i])) + EncodeVar(vs[i]) == head + (EncodeVars(vs[..i]) + EncodeVar(vs[i]));
  }

  lemma AppendVar(out: bytes, v: Variable, rest: bytes)
    ensures out + (EncodeVar(v) + rest) == (out + EncodeVar(v)) + rest
  {
  }

  /** Parses `count` variables one after the other. */
  method UnserializeVars(s: bytes, count: nat) returns (ok: bool, vars: seq<Variable>, rest: bytes)
    ensures ok <==> DecodeVars(s, count).Some?
    ensures ok ==> DecodeVars(s, count).value == (vars, rest)
  {
    ghost var all := DecodeVars(s, count);
    PrependNothing(all);
    hide DecodeVar, DecodeVars, Prepend;
    rest, vars := s, [];
    for i := 0 to count
      invariant all == Prepend(vars, DecodeVars(rest, count - i))
    {
      DecodeStep(rest, count - i, vars);
      var d := DecodeVar(rest);
      if d.None? {
        return false, vars, rest;
      }
      vars := vars + [d.value.v];
      rest := d.value.rest;
    }
    DecodeEnd(rest, vars);
    ok := true;
  }

  /** `from_bytes_to_vars`: the variables of a buffer, or nothing when it is not exactly a list. */
  method FromBytesToVars(buf: bytes, max: nat) returns (r: Option<seq<Variable>>)
    ensures r == DecodeList(buf, max)
  {
    if |buf| < LIST_HEADER_SIZE {
      return None;
    }
    var count := Read64(buf[8..16]);
    VarsAreSanitizedRaws(buf[LIST_HEADER_SIZE..], count);
    if count > max {
      return None;
    }
    var ok, vars, rest := UnserializeVars(buf[LIST_HEADER_SIZE..], count);
    if !ok || |rest| != 0 {
      return None;
    }
    return Some(vars);
  }

  lemma PrependNothing(r: Option<(seq<Variable>, bytes)>)
    ensures Prepend([], r) == r
  {
    if r.Some? {
      assert [] + r.value.0 == r.value.0;
    }
  }

  lemma DecodeStep(s: bytes, count: nat, before: seq<Variable>)
    requires count > 0
    ensures Prepend(before, DecodeVars(s, count))
            == match DecodeVar(s) {
                 case None => None
                 case Some(d) => Prepend(before + [d.v], DecodeVars(d.rest, count - 1)) }
  {
    hide DecodeVar;
    if DecodeVar(s).Some? {
      var d := DecodeVar(s).value;
      if DecodeVars(d.rest, count - 1).Some? {
        var (vs, _) := DecodeVars(d.rest, count - 1).value;
        assert before + ([d.v] + vs) == (before + [d.v]) + vs;
      }
    }
  }

  lemma DecodeEnd(rest: bytes, before: seq<Variable>)
    ensures Prepend(before, DecodeVars(rest, 0)) == Some((before, rest))
  {
    assert before + [] == before;
  }
}
