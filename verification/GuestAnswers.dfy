/** What a guest reads from the answers: status codes, attributes, sizes and data at their places in the pages. */
module GuestAnswers {
  import opened Bytes
  import opened Uefi
  import opened Crypto
  import opened VariableMap
  import opened Storage
  import opened AuthSpec
  import opened AuthProofs
  import opened PlatformSteps
  import opened Wire
  import opened WireEnumeration
  import opened SignedWrites

  // ---- The answer to GetVariable

  /** A GetVariable answer as a guest takes it apart: a code, then attributes, size and data, or the size it needs. */
  datatype Answer = Data(attrs: u32, data: bytes) | NeedsRoom(size: nat) | Failed(code: nat) | Unreadable

  function ReadAnswer(r: bytes): Answer {
    if |r| < 8 then Unreadable
    else if Read64(r[..8]) == 0 then
      if |r| < 20 || |r| - 20 < Read64(r[12..20]) then Unreadable
      else Data(Read32(r[8..12]), r[20..20 + Read64(r[12..20])])
    else if Read64(r[..8]) == 0x8000_0000_0000_0005 then
      if |r| < 16 then Unreadable else NeedsRoom(Read64(r[8..16]))
    else Failed(Read64(r[..8]))
  }

  const INVALID_PARAMETER: nat := 0x8000_0000_0000_0002
  const NOT_FOUND: nat := 0x8000_0000_0000_000E

  /** The code a status is sent as. */
  lemma StatusCodes(s: Status)
    ensures Read64(StatusBytes(s)) ==
            match s
            case Success => 0
            case InvalidParameter => 0x8000_0000_0000_0002
            case Unsupported => 0x8000_0000_0000_0003
            case BufferTooSmall => 0x8000_0000_0000_0005
            case DeviceError => 0x8000_0000_0000_0007
            case WriteProtected => 0x8000_0000_0000_0008
            case OutOfResources => 0x8000_0000_0000_0009
            case NotFound => 0x8000_0000_0000_000E
            case SecurityViolation => 0x8000_0000_0000_001A
  {
    hide ToLE, FromLE;
    Widths();
    ReadWrite(s.Code(), 8);
  }

  lemma ReadsStatus(s: Status)
    requires s != Success && s != BufferTooSmall
    ensures ReadAnswer(StatusBytes(s)) == Failed(s.Code())
  {
    hide FromLE, StatusBytes;
    StatusCodes(s);
    assert StatusBytes(s)[..8] == StatusBytes(s);
  }

  lemma ReadsTooSmall(needed: u64)
    ensures ReadAnswer(TooSmallBytes(needed)) == NeedsRoom(needed)
  {
    hide FromLE, ToLE, StatusBytes;
    StatusCodes(BufferTooSmall);
    Widths();
    ReadWrite(needed, 8);
    CutFront(StatusBytes(BufferTooSmall), ToLE(needed, 8));
    var r := TooSmallBytes(needed);
    assert r[8..16] == r[8..];
  }

  lemma ReadsData(attrs: u32, data: bytes)
    requires |data| <= MAX_DATA_SIZE
    ensures var r := StatusBytes(Success) + ToLE(attrs, 4) + ToLE(|data|, 8) + data;
            ReadAnswer(r) == Data(attrs, data) && |r| == 20 + |data|
  {
    hide FromLE, ToLE, StatusBytes;
    StatusCodes(Success);
    Widths();
    ReadWrite(attrs, 4);
    ReadWrite(|data|, 8);
    AnswerParts(StatusBytes(Success), ToLE(attrs, 4), ToLE(|data|, 8), data);
  }

  lemma AnswerParts(a: bytes, b: bytes, c: bytes, d: bytes)
    requires |a| == 8 && |b| == 4 && |c| == 8
    ensures var r := a + b + c + d;
            r[..8] == a && r[8..12] == b && r[12..20] == c && r[20..20 + |d|] == d && |r| == 20 + |d|
  {
  }

  /**
   What a guest reads in answer to GetVariable. It gets attributes and data exactly when the variable is stored, visible
   in the phase and no larger than the guest's buffer; the size it needs exactly when the buffer is smaller than a
   visible variable; and not-found exactly when there is none to be seen. An empty name is an invalid parameter.
   */
  lemma GuestReads(vars: Vars, k: Key, bufferSize: u64, atRuntime: bool, pad: bytes)
    requires ValidVars(vars) && |k.name| <= MAX_NAME_SIZE
    requires |EncodeGet(k, bufferSize, atRuntime) + pad| >= MAX_REQUEST_SIZE
    ensures var r := ReplyGet(vars, EncodeGet(k, bufferSize, atRuntime) + pad);
            && (k.name == [] ==> ReadAnswer(r) == Failed(0x8000_0000_0000_0002) && |r| == 8)
            && (k.name != [] ==>
                var visible := k in vars && (atRuntime ==> Runtime(vars[k].attrs));
                && (!visible <==> ReadAnswer(r) == Failed(0x8000_0000_0000_000E))
                && (visible && bufferSize < |vars[k].data| <==> ReadAnswer(r).NeedsRoom?)
                && (visible && |vars[k].data| <= bufferSize <==> ReadAnswer(r).Data?)
                && (ReadAnswer(r).NeedsRoom? ==> ReadAnswer(r).size == |vars[k].data| && |r| == 16)
                && (ReadAnswer(r).Data? ==>
                    ReadAnswer(r) == Data(vars[k].attrs, vars[k].data) && |r| == 20 + |vars[k].data|))
  {
    hide EncodeGet, ParseGet, VersionOf, CommandOf, StatusBytes, TooSmallBytes, ToLE, FromLE, ReadAnswer, Runtime,
      NoNul, AppendWrite;
    GetRequestRoundTrip(k, bufferSize, atRuntime, pad);
    ReadsStatus(InvalidParameter);
    ReadsStatus(NotFound);
    if k in vars {
      assert StoredWell(k, vars[k]);
      ReadsTooSmall(|vars[k].data|);
      ReadsData(vars[k].attrs, vars[k].data);
    }
  }

  // ---- Reading after writing

  /**
   A plain SetVariable request and then any GetVariable request, both as bytes in the pages, as the guest reads the
   answer. After a successful delete the variable is not found. After any other successful write the guest reads
   exactly the bytes written, behind the old ones for an append, with APPEND cleared from the attributes. Every other
   key, and every key after a refusal, reads as before.
   */
  lemma WriteThenRead(c: Crypto, host: bool, p: Platform, req: Request, phase: bool, pad: bytes,
                      k: Key, bufferSize: u64, atRuntime: bool, pad': bytes)
    requires ValidVars(p.vars) && WellFormedName(req.key.name) && IsPlain(req) && |req.data| <= MAX_DATA_SIZE
    requires |EncodeSet(req, phase) + pad| >= MAX_REQUEST_SIZE && |k.name| <= MAX_NAME_SIZE
    requires |EncodeGet(k, bufferSize, atRuntime) + pad'| >= MAX_REQUEST_SIZE
    ensures var step := ServeSet(c, host, p, EncodeSet(req, phase) + pad);
            var get := EncodeGet(k, bufferSize, atRuntime) + pad';
            var answer := ReadAnswer(ReplyGet(step.platform.vars, get));
            var front := if req.key in p.vars && AppendWrite(req.attrs) then p.vars[req.key].data else [];
            if k != req.key || step.status != Success then answer == ReadAnswer(ReplyGet(p.vars, get))
            else if req.attrs == 0 || (req.data == [] && !AppendWrite(req.attrs)) then answer == Failed(NOT_FOUND)
            else if atRuntime && !Runtime(req.attrs) then answer == Failed(NOT_FOUND)
            else if bufferSize < |front + req.data| then answer == NeedsRoom(|front + req.data|)
            else answer == Data(ClearAppend(req.attrs), front + req.data)
  {
    hide EncodeSet, EncodeGet, ParseSet, ParseGet, VersionOf, CommandOf, SetVariable, SetVar, IsPlain, ReplyGet,
      ReadAnswer, NoNul, ValidVars, ClearAppend, AppendWrite, Runtime;
    SetThenGetOnTheWire(c, host, p, req, phase, pad, k, bufferSize, atRuntime, pad');
    SetRequestRoundTrip(req, phase, pad);
    PlainRoute(c, host, p, req);
    if SetVariable(c, host, p, req).status == Success && k == req.key {
      SetVarFrame(p.vars, req.key, req.data, req.attrs);
      GuestReads(SetVar(p.vars, req.key, req.data, req.attrs).vars, k, bufferSize, atRuntime, pad');
      PlainContent(p.vars, req);
    }
  }

  /** What a successful plain write stores. */
  lemma PlainContent(vars: Vars, req: Request)
    requires SetVar(vars, req.key, req.data, req.attrs).status == Success
    ensures var m := SetVar(vars, req.key, req.data, req.attrs).vars;
            var front := if req.key in vars && AppendWrite(req.attrs) then vars[req.key].data else [];
            && (req.key in m <==> req.attrs != 0 && (req.data != [] || AppendWrite(req.attrs)))
            && (req.key in m ==> m[req.key].data == front + req.data && m[req.key].attrs == ClearAppend(req.attrs))
  {
    hide AppendWrite, ClearAppend;
  }

  /**
   The same for an authenticated request that was answered with success and left its variable stored: the guest reads
   the content the write has by its route.
   */
  lemma SignedWriteThenRead(c: Crypto, host: bool, p: Platform, req: Request, phase: bool, pad: bytes,
                            k: Key, bufferSize: u64, atRuntime: bool, pad': bytes)
    requires VerifiedHasDigest(c) && Inv(host, p) && WellFormedName(req.key.name) && TimeBased(req.attrs)
    requires |req.data| <= MAX_DATA_SIZE && |k.name| <= MAX_NAME_SIZE
    requires |EncodeSet(req, phase) + pad| >= MAX_REQUEST_SIZE
    requires |EncodeGet(k, bufferSize, atRuntime) + pad'| >= MAX_REQUEST_SIZE
    ensures var step := ServeSet(c, host, p, EncodeSet(req, phase) + pad);
            var get := EncodeGet(k, bufferSize, atRuntime) + pad';
            var answer := ReadAnswer(ReplyGet(step.platform.vars, get));
            && (step.status == Success && k == req.key && k in step.platform.vars ==>
                && PayloadFits(req.data)
                && var v := ContentAfter(p.vars, k, PayloadOf(req.data), req.attrs, TimestampOf(req.data));
                   if atRuntime && !Runtime(v.attrs) then answer == Failed(NOT_FOUND)
                   else if bufferSize < |v.data| then answer == NeedsRoom(|v.data|)
                   else answer == Data(v.attrs, v.data))
            && (step.status == Success && k == req.key && k !in step.platform.vars ==> answer == Failed(NOT_FOUND))
            && (step.status != Success || (k != req.key && !IsMirror(k)) ==>
                answer == ReadAnswer(ReplyGet(p.vars, get)))
  {
    hide EncodeSet, EncodeGet, ParseSet, ParseGet, VersionOf, CommandOf, SetVariable, Inv, TimeBased, VerifiedHasDigest,
      NoNul, LengthField, DecodeTime, IsMirror, ReplyGet, ReadAnswer, ContentAfter, ValidVars, Runtime;
    SetRequestRoundTrip(req, phase, pad);
    SignedSetThenGet(c, host, p, req, phase, pad, k, bufferSize, atRuntime, pad');
    SuccessStores(c, host, p, req);
    StepKeepsInv(c, host, p, req);
    InvParts(host, SetVariable(c, host, p, req).platform);
    GuestReads(SetVariable(c, host, p, req).platform.vars, k, bufferSize, atRuntime, pad');
  }

  // ---- The answer to QueryVariableInfo

  /** What a guest reads in answer to QueryVariableInfo, with 33024 bytes in use for each stored variable. */
  lemma GuestQueries(table: VariableTable, attrs: u32)
    requires table.Valid() && table.used <= MAX_STORAGE_SIZE
    ensures var r := AnswerQuery(table.used, attrs);
            if attrs == 0 || (Runtime(attrs) && !BootService(attrs)) then
              |r| == 8 && Read64(r) == INVALID_PARAMETER
            else
              && |r| == 32 && Read64(r[..8]) == 0
              && Read64(r[8..16]) == 0x4000_0000
              && Read64(r[16..24]) == 0x4000_0000 - 33024 * |table.Contents()|
              && Read64(r[24..32]) == 33024
  {
    hide FromLE, ToLE, StatusBytes, Runtime, BootService, AsMap, TableWell;
    table.UsedIsSmall();
    StatusCodes(InvalidParameter);
    StatusCodes(Success);
    Widths();
    var left := MAX_STORAGE_SIZE - table.used;
    ReadWrite(MAX_STORAGE_SIZE, 8);
    ReadWrite(left, 8);
    ReadWrite(MAX_VARIABLE_SIZE, 8);
    QueryParts(StatusBytes(Success), ToLE(MAX_STORAGE_SIZE, 8), ToLE(left, 8), ToLE(MAX_VARIABLE_SIZE, 8));
  }

  lemma QueryParts(a: bytes, b: bytes, c: bytes, d: bytes)
    requires |a| == |b| == |c| == |d| == 8
    ensures var r := a + b + c + d;
            |r| == 32 && r[..8] == a && r[8..16] == b && r[16..24] == c && r[24..32] == d
  {
  }

  // ---- The answer to GetNextVariableName

  /** The first slot from `low` on whose variable can be seen, or the number of slots. */
  predicate IsNext(s: seq<Variable>, atRuntime: bool, low: nat, r: nat) {
    && low <= r <= |s|
    && (r < |s| ==> s[r] != FREE && (atRuntime ==> Runtime(s[r].attrs)))
    && forall j :: low <= j < r ==> !(s[j] != FREE && (atRuntime ==> Runtime(s[j].attrs)))
  }

  /**
   Which variable follows a name: the first visible one after the slot that holds it, the first of all after the empty
   name, and none after a name that is not stored.
   */
  lemma NextAfter(s: seq<Variable>, atRuntime: bool, k: Key)
    requires TableWell(s)
    ensures var r := NextIndex(s, atRuntime, k);
            && (k.name == [] ==> IsNext(s, atRuntime, 0, r))
            && (forall i :: Holds(s, k, i) ==> IsNext(s, atRuntime, i + 1, r))
            && (WellFormedName(k.name) && (forall i :: !Holds(s, k, i)) ==> r == |s|)
  {
    hide AppendWrite, Runtime;
    forall i | Holds(s, k, i)
      ensures IsNext(s, atRuntime, i + 1, NextIndex(s, atRuntime, k))
    {
      HeldIsFirst(s, k, i);
    }
    if WellFormedName(k.name) {
      NamedIsNotNul(k.name);
      if IndexOf(s, k, 0) < |s| && s[IndexOf(s, k, 0)] != FREE {
        assert Holds(s, k, IndexOf(s, k, 0));
      }
    }
  }

  lemma NamedIsNotNul(name: bytes)
    requires WellFormedName(name)
    ensures !FirstUnitIsNul(name) && name != []
  {
    assert !(name[2 * 0] == 0 && name[2 * 0 + 1] == 0);
  }

  lemma HeldIsFirst(s: seq<Variable>, k: Key, i: int)
    requires TableWell(s) && Holds(s, k, i)
    ensures IndexOf(s, k, 0) == i && !FirstUnitIsNul(k.name)
  {
    hide NoNul, AppendWrite;
    assert SlotWell(s[i]);
    NamedIsNotNul(k.name);
    var r := IndexOf(s, k, 0);
    if r < i {
      assert SlotWell(s[r]);
    }
  }

  /** What a guest reads in answer to GetNextVariableName, for every size of its buffer. */
  lemma GuestReadsNext(s: seq<Variable>, k: Key, bufferSize: u64, atRuntime: bool, pad: bytes)
    requires TableWell(s) && |k.name| <= MAX_NAME_SIZE
    requires |EncodeNext(k, bufferSize, atRuntime) + pad| >= MAX_REQUEST_SIZE
    ensures var r, i := ReplyNext(s, EncodeNext(k, bufferSize, atRuntime) + pad), NextIndex(s, atRuntime, k);
            if i == |s| then ReadAnswer(r) == Failed(NOT_FOUND)
            else if bufferSize < |s[i].name| + 2 then ReadAnswer(r) == NeedsRoom(|s[i].name| + 2)
            else IsSuccess(r) && KeyIn(r) == KeyOf(s[i])
  {
    hide EncodeNext, ParseNext, VersionOf, CommandOf, StatusBytes, TooSmallBytes, ToLE, FromLE, ReadAnswer, NextIndex,
      TableWell, IsSuccess, KeyIn;
    NextRequestRoundTrip(k, bufferSize, atRuntime, pad);
    ReadsStatus(NotFound);
    var i := NextIndex(s, atRuntime, k);
    if i < |s| {
      VisibleName(s, i);
      ReadsTooSmall(|s[i].name| + 2);
      AnswerRoundTrip(s[i]);
    }
  }
}
