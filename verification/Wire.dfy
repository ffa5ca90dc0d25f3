/** The request and answer layouts in the 16 pages shared with the guest. */
module Wire {
  import opened Bytes
  import opened Uefi
  import opened VariableMap
  import opened Storage
  import opened Crypto
  import opened AuthSpec

  const SHARED_SIZE: nat := 65536
  const VERSION: nat := 1

  const GET_VARIABLE: nat := 0
  const SET_VARIABLE: nat := 1
  const GET_NEXT_VARIABLE: nat := 2
  const QUERY_VARIABLE_INFO: nat := 3
  const NOTIFY_SB_FAILURE: nat := 4

  /** The most a request can occupy: two words, a full name, a GUID, full data, attributes and the runtime flag. */
  const MAX_REQUEST_SIZE: nat := 33069

  /** The most an answer can occupy: a status, attributes and full data. */
  const MAX_ANSWER_SIZE: nat := 32788

  // ---- Reading: a pointer is the rest of the buffer behind it

  function VersionOf(s: bytes): u32
    requires |s| >= 8
  {
    Read32(s[..4])
  }

  function CommandOf(s: bytes): u32
    requires |s| >= 8
  {
    Read32(s[4..8])
  }

  datatype Field = TooBig | Field(value: bytes, rest: bytes)

  /** A length-prefixed field of at most `max` bytes. */
  function ReadField(s: bytes, max: nat): (f: Field)
    requires |s| >= 8 + max
    ensures f.Field? ==> |f.value| <= max && |f.rest| == |s| - 8 - |f.value|
  {
    var n := Read64(s[..8]);
    if n > max then TooBig else Field(s[8..8 + n], s[8 + n..])
  }

  datatype GetRequest = BadGet | GetRequest(key: Key, bufferSize: u64, atRuntime: bool)

  function ParseGet(s: bytes): GetRequest
    requires |s| >= MAX_REQUEST_SIZE
  {
    var f := ReadField(s[8..], MAX_NAME_SIZE);
    if f.TooBig? then BadGet
    else GetRequest(Key(f.value, f.rest[..16]), Read64(f.rest[16..24]), f.rest[24] != 0)
  }

  datatype SetRequest = BadSet | SetRequest(req: Request, atRuntime: bool)

  function ParseSet(s: bytes): (r: SetRequest)
    requires |s| >= MAX_REQUEST_SIZE
    ensures r.SetRequest? ==> |r.req.key.name| <= MAX_NAME_SIZE && |r.req.data| <= MAX_DATA_SIZE
  {
    var name := ReadField(s[8..], MAX_NAME_SIZE);
    if name.TooBig? then BadSet
    else
      var data := ReadField(name.rest[16..], MAX_DATA_SIZE);
      if data.TooBig? then BadSet
      else SetRequest(Request(Key(name.value, name.rest[..16]), data.value, Read32(data.rest[..4])), data.rest[4] != 0)
  }

  function ParseNext(s: bytes): GetRequest
    requires |s| >= MAX_REQUEST_SIZE
  {
    var f := ReadField(s[16..], MAX_NAME_SIZE);
    if f.TooBig? then BadGet
    else GetRequest(Key(f.value, f.rest[..16]), Read64(s[8..16]), f.rest[16] != 0)
  }

  // ---- Requests as the guest driver writes them

  function EncodeSet(req: Request, atRuntime: bool): bytes {
    ToLE(VERSION, 4) + ToLE(SET_VARIABLE, 4) + ToLE(|req.key.name|, 8) + req.key.name + req.key.guid
    + ToLE(|req.data|, 8) + req.data + ToLE(req.attrs, 4) + [if atRuntime then 1 else 0]
  }

  function EncodeGet(k: Key, bufferSize: u64, atRuntime: bool): bytes {
    ToLE(VERSION, 4) + ToLE(GET_VARIABLE, 4) + ToLE(|k.name|, 8) + k.name + k.guid
    + ToLE(bufferSize, 8) + [if atRuntime then 1 else 0]
  }

  lemma ReadWrittenField(x: bytes, rest: bytes, max: nat)
    requires |x| <= max <= MAX_DATA_SIZE && |rest| + |x| >= max
    ensures ReadField(ToLE(|x|, 8) + (x + rest), max) == Field(x, rest)
  {
    hide ToLE, FromLE;
    Widths();
    ReadWrite(|x|, 8);
    var s := ToLE(|x|, 8) + (x + rest);
    CutFront(ToLE(|x|, 8), x + rest);
    CutFront(x, rest);
    assert s[8..8 + |x|] == s[8..][..|x|] && s[8 + |x|..] == s[8..][|x|..];
  }

  lemma CutFront(a: bytes, b: bytes)
    ensures (a + b)[|a|..] == b && (a + b)[..|a|] == a
  {
  }

  lemma SetParts(req: Request, atRuntime: bool, pad: bytes)
    ensures var tail := ToLE(req.attrs, 4) + ([if atRuntime then 1 else 0] + pad);
            EncodeSet(req, atRuntime) + pad
            == (ToLE(VERSION, 4) + ToLE(SET_VARIABLE, 4))
               + (ToLE(|req.key.name|, 8) + (req.key.name + (req.key.guid + (ToLE(|req.data|, 8) + (req.data + tail)))))
  {
    hide ToLE;
  }

  /** The server reads back the SetVariable request the guest wrote, whatever else is in the shared pages. */
  lemma SetRequestRoundTrip(req: Request, atRuntime: bool, pad: bytes)
    requires |req.key.name| <= MAX_NAME_SIZE && |req.data| <= MAX_DATA_SIZE
    requires |EncodeSet(req, atRuntime) + pad| >= MAX_REQUEST_SIZE
    ensures var s := EncodeSet(req, atRuntime) + pad;
            VersionOf(s) == VERSION && CommandOf(s) == SET_VARIABLE && ParseSet(s) == SetRequest(req, atRuntime)
  {
    hide ToLE, FromLE, EncodeSet;
    var s := EncodeSet(req, atRuntime) + pad;
    var flag := [if atRuntime then 1 else 0];
    var tail := ToLE(req.attrs, 4) + (flag + pad);
    var afterName := req.key.guid + (ToLE(|req.data|, 8) + (req.data + tail));
    var head := ToLE(VERSION, 4) + ToLE(SET_VARIABLE, 4);
    SetParts(req, atRuntime, pad);
    Widths();
    ReadWrite(req.attrs, 4);
    ReadWrite(VERSION, 4);
    ReadWrite(SET_VARIABLE, 4);
    CutFront(head, ToLE(|req.key.name|, 8) + (req.key.name + afterName));
    assert s[..4] == head[..4] == ToLE(VERSION, 4) && s[4..8] == head[4..8] == ToLE(SET_VARIABLE, 4);
    ReadWrittenField(req.key.name, afterName, MAX_NAME_SIZE);
    CutFront(req.key.guid, ToLE(|req.data|, 8) + (req.data + tail));
    ReadWrittenField(req.data, tail, MAX_DATA_SIZE);
    CutFront(ToLE(req.attrs, 4), flag + pad);
    assert tail[4] == flag[0];
  }

  lemma GetParts(k: Key, bufferSize: u64, atRuntime: bool, pad: bytes)
    ensures EncodeGet(k, bufferSize, atRuntime) + pad
            == (ToLE(VERSION, 4) + ToLE(GET_VARIABLE, 4))
               + (ToLE(|k.name|, 8) + (k.name + (k.guid + (ToLE(bufferSize, 8) + ([if atRuntime then 1 else 0] + pad)))))
  {
    hide ToLE;
  }

  lemma GetRequestRoundTrip(k: Key, bufferSize: u64, atRuntime: bool, pad: bytes)
    requires |k.name| <= MAX_NAME_SIZE && |EncodeGet(k, bufferSize, atRuntime) + pad| >= MAX_REQUEST_SIZE
    ensures var s := EncodeGet(k, bufferSize, atRuntime) + pad;
            && VersionOf(s) == VERSION && CommandOf(s) == GET_VARIABLE
            && ParseGet(s) == GetRequest(k, bufferSize, atRuntime)
  {
    hide ToLE, FromLE, EncodeGet;
    var s := EncodeGet(k, bufferSize, atRuntime) + pad;
    var flag := [if atRuntime then 1 else 0];
    var tail := ToLE(bufferSize, 8) + (flag + pad);
    var head := ToLE(VERSION, 4) + ToLE(GET_VARIABLE, 4);
    GetParts(k, bufferSize, atRuntime, pad);
    Widths();
    ReadWrite(bufferSize, 8);
    ReadWrite(VERSION, 4);
    ReadWrite(GET_VARIABLE, 4);
    CutFront(head, ToLE(|k.name|, 8) + (k.name + (k.guid + tail)));
    assert s[..4] == head[..4] == ToLE(VERSION, 4) && s[4..8] == head[4..8] == ToLE(GET_VARIABLE, 4);
    ReadWrittenField(k.name, k.guid + tail, MAX_NAME_SIZE);
    var rest := k.guid + tail;
    assert rest[..16] == k.guid && rest[16..24] == tail[..8] == ToLE(bufferSize, 8) && rest[24] == flag[0];
  }

  /** Where the fields of a SetVariable request lie; a name over 256 bytes or data over 32768 makes it unreadable. */
  lemma SetLayout(s: bytes)
    requires |s| >= MAX_REQUEST_SIZE
    ensures var n := Read64(s[8..16]);
            if n > 256 then ParseSet(s) == BadSet
            else
              var d := Read64(s[32 + n..40 + n]);
              if d > 32768 then ParseSet(s) == BadSet
              else ParseSet(s) == SetRequest(Request(Key(s[16..16 + n], s[16 + n..32 + n]), s[40 + n..40 + n + d],
                                                     Read32(s[40 + n + d..44 + n + d])), s[44 + n + d] != 0)
  {
    hide FromLE, ReadField;
    FieldAt(s, 8, MAX_NAME_SIZE);
    var n := Read64(s[8..16]);
    if n <= 256 {
      Middle(s, 16 + n, 16);
      FieldAt(s, 32 + n, MAX_DATA_SIZE);
      var d := Read64(s[32 + n..40 + n]);
      if d <= 32768 {
        Middle(s, 40 + n + d, 4);
      }
    }
  }

  lemma FieldAt(s: bytes, i: nat, max: nat)
    requires i + 8 + max <= |s|
    ensures var n := Read64(s[i..i + 8]);
            ReadField(s[i..], max) == if n > max then TooBig else Field(s[i + 8..i + 8 + n], s[i + 8 + n..])
  {
    hide FromLE;
    assert s[i..][..8] == s[i..i + 8];
    var n := Read64(s[i..i + 8]);
    if n <= max {
      assert s[i..][8..8 + n] == s[i + 8..i + 8 + n] && s[i..][8 + n..] == s[i + 8 + n..];
    }
  }

  lemma Middle(s: bytes, i: nat, n: nat)
    requires i + n <= |s|
    ensures s[i..][..n] == s[i..i + n] && s[i..][n..] == s[i + n..] && (i + n < |s| ==> s[i..][n] == s[i + n])
  {
  }

  /** Where the fields of a GetVariable and of a GetNextVariableName request lie. */
  lemma GetLayouts(s: bytes)
    requires |s| >= MAX_REQUEST_SIZE
    ensures var n := Read64(s[8..16]);
            if n > 256 then ParseGet(s) == BadGet
            else ParseGet(s)
                 == GetRequest(Key(s[16..16 + n], s[16 + n..32 + n]), Read64(s[32 + n..40 + n]), s[40 + n] != 0)
    ensures var n := Read64(s[16..24]);
            if n > 256 then ParseNext(s) == BadGet
            else ParseNext(s) == GetRequest(Key(s[24..24 + n], s[24 + n..40 + n]), Read64(s[8..16]), s[40 + n] != 0)
  {
    hide FromLE, ReadField;
    FieldAt(s, 8, MAX_NAME_SIZE);
    FieldAt(s, 16, MAX_NAME_SIZE);
    var n, m := Read64(s[8..16]), Read64(s[16..24]);
    if n <= 256 {
      Middle(s, 16 + n, 16);
      Middle(s, 16 + n, 24);
      assert s[16 + n..][16..24] == s[32 + n..40 + n];
    }
    if m <= 256 {
      Middle(s, 24 + m, 16);
    }
  }

  /** Parsing looks at no byte behind the largest request. */
  lemma ParseIsLocal(s: bytes)
    requires |s| >= MAX_REQUEST_SIZE
    ensures ParseSet(s) == ParseSet(s[..MAX_REQUEST_SIZE])
    ensures ParseGet(s) == ParseGet(s[..MAX_REQUEST_SIZE]) && ParseNext(s) == ParseNext(s[..MAX_REQUEST_SIZE])
  {
    SetIsLocal(s);
    GetIsLocal(s);
    NextIsLocal(s);
  }

  lemma GetIsLocal(s: bytes)
    requires |s| >= MAX_REQUEST_SIZE
    ensures ParseGet(s) == ParseGet(s[..MAX_REQUEST_SIZE])
  {
    hide FromLE;
    var t := s[..MAX_REQUEST_SIZE];
    FieldIsLocal(s[8..], t[8..], MAX_NAME_SIZE);
    var f, g := ReadField(s[8..], MAX_NAME_SIZE), ReadField(t[8..], MAX_NAME_SIZE);
    if f.Field? {
      assert g.rest[..16] == f.rest[..16] && g.rest[16..24] == f.rest[16..24] && g.rest[24] == f.rest[24];
    }
  }

  lemma NextIsLocal(s: bytes)
    requires |s| >= MAX_REQUEST_SIZE
    ensures ParseNext(s) == ParseNext(s[..MAX_REQUEST_SIZE])
  {
    hide FromLE;
    var t := s[..MAX_REQUEST_SIZE];
    assert s[8..16] == t[8..16];
    FieldIsLocal(s[16..], t[16..], MAX_NAME_SIZE);
    var f, g := ReadField(s[16..], MAX_NAME_SIZE), ReadField(t[16..], MAX_NAME_SIZE);
    if f.Field? {
      assert g.rest[..16] == f.rest[..16] && g.rest[16] == f.rest[16];
    }
  }

  lemma SetIsLocal(s: bytes)
    requires |s| >= MAX_REQUEST_SIZE
    ensures ParseSet(s) == ParseSet(s[..MAX_REQUEST_SIZE])
  {
    hide FromLE;
    var t := s[..MAX_REQUEST_SIZE];
    FieldIsLocal(s[8..], t[8..], MAX_NAME_SIZE);
    var name, name' := ReadField(s[8..], MAX_NAME_SIZE), ReadField(t[8..], MAX_NAME_SIZE);
    if name.Field? {
      assert name'.rest[..16] == name.rest[..16];
      FieldIsLocal(name.rest[16..], name'.rest[16..], MAX_DATA_SIZE);
      var data, data' := ReadField(name.rest[16..], MAX_DATA_SIZE), ReadField(name'.rest[16..], MAX_DATA_SIZE);
      if data.Field? {
        assert data'.rest[..4] == data.rest[..4] && data'.rest[4] == data.rest[4];
      }
    }
  }

  lemma FieldIsLocal(s: bytes, t: bytes, max: nat)
    requires t <= s && |t| >= 8 + max
    ensures var f, g := ReadField(s, max), ReadField(t, max);
            (f.TooBig? <==> g.TooBig?) && (f.Field? ==> f.value == g.value && g.rest <= f.rest)
  {
    hide FromLE;
    assert s[..8] == t[..8];
    var n := Read64(s[..8]);
    if n <= max {
      assert s[8..8 + n] == t[8..8 + n];
    }
  }

  // ---- Answers

  function StatusBytes(status: Status): (s: bytes)
    ensures |s| == 8
  {
    ToLE(status.Code(), 8)
  }

  function TooSmallBytes(needed: nat): (s: bytes)
    ensures |s| == 16
  {
    StatusBytes(BufferTooSmall) + ToLE(needed, 8)
  }

  /** The answer for a variable with these attributes and data. */
  function AnswerData(attrs: u32, data: bytes, bufferSize: nat, atRuntime: bool): bytes {
    if atRuntime && !Runtime(attrs) then StatusBytes(NotFound)
    else if bufferSize < |data| then TooSmallBytes(|data|)
    else StatusBytes(Success) + ToLE(attrs, 4) + ToLE(|data|, 8) + data
  }

  /** What GetVariable answers for a key, a guest buffer size and the current phase. */
  function AnswerGet(vars: Vars, k: Key, bufferSize: nat, atRuntime: bool): bytes {
    if k.name == [] then StatusBytes(InvalidParameter)
    else if k !in vars then StatusBytes(NotFound)
    else AnswerData(vars[k].attrs, vars[k].data, bufferSize, atRuntime)
  }

  /** What GetNextVariableName answers. */
  function AnswerNext(s: seq<Variable>, k: Key, bufferSize: nat, atRuntime: bool): bytes {
    var i := NextIndex(s, atRuntime, k);
    if i == |s| then StatusBytes(NotFound)
    else if bufferSize < |s[i].name| + 2 then TooSmallBytes(|s[i].name| + 2)
    else StatusBytes(Success) + ToLE(|s[i].name|, 8) + s[i].name + s[i].guid
  }

  function AnswerQuery(used: nat, attrs: u32): bytes
    requires used <= MAX_STORAGE_SIZE
  {
    if attrs == 0 || (Runtime(attrs) && !BootService(attrs)) then StatusBytes(InvalidParameter)
    else StatusBytes(Success) + ToLE(MAX_STORAGE_SIZE, 8) + ToLE(MAX_STORAGE_SIZE - used, 8)
         + ToLE(MAX_VARIABLE_SIZE, 8)
  }

  /** The reply to a GetVariable request in the shared pages; a name that is too long is refused. */
  function ReplyGet(vars: Vars, s: bytes): bytes
    requires |s| >= MAX_REQUEST_SIZE
  {
    match ParseGet(s)
    case BadGet => StatusBytes(OutOfResources)
    case GetRequest(k, size, atRuntime) => AnswerGet(vars, k, size, atRuntime)
  }

  function ReplyNext(slots: seq<Variable>, s: bytes): bytes
    requires |s| >= MAX_REQUEST_SIZE
  {
    match ParseNext(s)
    case BadGet => StatusBytes(DeviceError)
    case GetRequest(k, size, atRuntime) => AnswerNext(slots, k, size, atRuntime)
  }

  /** The effect of a SetVariable request in the shared pages on the platform, with the status it is answered with. */
  function ServeSet(c: Crypto, host: bool, p: Platform, s: bytes): Step
    requires |s| >= MAX_REQUEST_SIZE
  {
    match ParseSet(s)
    case BadSet => Step(OutOfResources, p)
    case SetRequest(req, _) => SetVariable(c, host, p, req)
  }

  /** The platform after any request in the shared pages: only SetVariable requests of the right version change it. */
  function PlatformAfter(c: Crypto, host: bool, p: Platform, s: bytes): Platform
    requires |s| >= MAX_REQUEST_SIZE
  {
    if VersionOf(s) == VERSION && CommandOf(s) == SET_VARIABLE then ServeSet(c, host, p, s).platform else p
  }

  lemma AnswersFit(vars: Vars, s: seq<Variable>, k: Key, bufferSize: nat, atRuntime: bool)
    requires ValidVars(vars) && TableWell(s)
    ensures |AnswerGet(vars, k, bufferSize, atRuntime)| <= MAX_ANSWER_SIZE
    ensures |AnswerNext(s, k, bufferSize, atRuntime)| <= MAX_ANSWER_SIZE
  {
    hide StatusBytes, TooSmallBytes, ToLE;
    if k in vars {
      assert StoredWell(k, vars[k]);
    }
    var i := NextIndex(s, atRuntime, k);
    if i < |s| {
      assert SlotWell(s[i]);
    }
  }

  // ---- A plain write seen through the wire

  /** The data GetVariable must return after a successful plain write. */
  function Written(vars: Vars, req: Request): bytes {
    if AppendWrite(req.attrs) && req.key in vars then vars[req.key].data + req.data else req.data
  }

  /**
   The answer GetVariable owes after a successful plain write: after a delete the variable is not found; otherwise the
   written bytes come back (old data in front after an append) with APPEND cleared, or their exact size when the
   guest's buffer is too small, or nothing at runtime without runtime access.
   */
  function AnswerWritten(vars: Vars, req: Request, bufferSize: nat, atRuntime: bool): bytes {
    if (req.data == [] && !AppendWrite(req.attrs)) || req.attrs == 0 then StatusBytes(NotFound)
    else AnswerData(ClearAppend(req.attrs), Written(vars, req), bufferSize, atRuntime)
  }

  predicate IsPlain(req: Request) {
    !TimeBased(req.attrs) && !IsSecureBootVariable(req.key)
  }

  lemma SetThenGet(p: Platform, req: Request, bufferSize: nat, atRuntime: bool)
    requires IsPlain(req) && req.key.name != []
    requires SetVar(p.vars, req.key, req.data, req.attrs).status == Success
    ensures AnswerGet(SetVar(p.vars, req.key, req.data, req.attrs).vars, req.key, bufferSize, atRuntime)
            == AnswerWritten(p.vars, req, bufferSize, atRuntime)
  {
    hide StatusBytes, TooSmallBytes, ToLE;
  }

  /** A plain SetVariable leaves the answer for every other key as it was. */
  lemma SetLeavesOthers(p: Platform, req: Request, k: Key, bufferSize: nat, atRuntime: bool)
    requires k != req.key
    ensures AnswerGet(SetVar(p.vars, req.key, req.data, req.attrs).vars, k, bufferSize, atRuntime)
            == AnswerGet(p.vars, k, bufferSize, atRuntime)
  {
    hide StatusBytes, TooSmallBytes, ToLE, SetEffect;
    match SetEffect(p.vars, req.key, req.data, req.attrs)
    case Refuse(_) =>
    case Delete =>
    case Put(_) =>
  }

  lemma RefusedChangesNothing(vars: Vars, req: Request)
    requires SetVar(vars, req.key, req.data, req.attrs).status != Success
    ensures SetVar(vars, req.key, req.data, req.attrs).vars == vars
  {
  }

  /** A plain request is refused without effect, or is the plain write. */
  lemma PlainRoute(c: Crypto, host: bool, p: Platform, req: Request)
    requires IsPlain(req)
    ensures var r, w := SetVariable(c, host, p, req), SetVar(p.vars, req.key, req.data, req.attrs);
            (r.platform == p && r.status != Success) || r == Step(w.status, Platform(w.vars, p.setup))
  {
    hide SetVar, IsReadOnly, Dispatch;
  }

  /**
   A plain SetVariable request followed by any GetVariable request, both as bytes in the shared pages: the key written
   successfully is answered with what was written, and every other key, or any key after a refusal, as before.
   */
  lemma SetThenGetOnTheWire(c: Crypto, host: bool, p: Platform, req: Request, phase: bool, pad: bytes,
                            k: Key, bufferSize: u64, atRuntime: bool, pad': bytes)
    requires IsPlain(req) && 0 < |req.key.name| <= MAX_NAME_SIZE && |req.data| <= MAX_DATA_SIZE
    requires |EncodeSet(req, phase) + pad| >= MAX_REQUEST_SIZE && |k.name| <= MAX_NAME_SIZE
    requires |EncodeGet(k, bufferSize, atRuntime) + pad'| >= MAX_REQUEST_SIZE
    ensures var step := ServeSet(c, host, p, EncodeSet(req, phase) + pad);
            var get := EncodeGet(k, bufferSize, atRuntime) + pad';
            ReplyGet(step.platform.vars, get)
            == if k == req.key && step.status == Success then AnswerWritten(p.vars, req, bufferSize, atRuntime)
               else ReplyGet(p.vars, get)
  {
    hide EncodeSet, EncodeGet, ParseSet, ParseGet, VersionOf, CommandOf, SetVariable, SetVar, IsPlain, AnswerGet,
      AnswerWritten;
    SetRequestRoundTrip(req, phase, pad);
    GetRequestRoundTrip(k, bufferSize, atRuntime, pad');
    PlainRoute(c, host, p, req);
    if k != req.key {
      SetLeavesOthers(p, req, k, bufferSize, atRuntime);
    } else if SetVar(p.vars, req.key, req.data, req.attrs).status == Success {
      SetThenGet(p, req, bufferSize, atRuntime);
    } else {
      RefusedChangesNothing(p.vars, req);
    }
  }
}
