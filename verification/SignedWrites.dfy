/** What an authenticated write that was answered with success has stored. */
module SignedWrites {
  import opened Bytes
  import opened Uefi
  import opened SignatureLists
  import opened SignatureWalks
  import opened Crypto
  import opened VariableMap
  import opened AuthSpec
  import opened AuthProofs
  import opened PlatformSteps
  import opened PlatformRuns
  import opened VariableHistory
  import opened MissingDigest
  import opened Wire

  // ---- What is written

  /** The bytes a write adds: of an append to a signature database only the entries that are not stored yet. */
  function Added(vars: Vars, k: Key, payload: bytes, attrs: u32): bytes {
    if k in vars && AppendWrite(attrs) && IsSignatureDatabase(k) then FilterBytes(vars[k].data, payload) else payload
  }

  /** A write over a stored variable lands when the attributes are the same and an append fits. */
  predicate Lands(v: Variable, added: bytes, attrs: u32) {
    v.attrs == ClearAppend(attrs) && (AppendWrite(attrs) ==> |v.data| + |added| <= MAX_DATA_SIZE)
  }

  /** The data, attributes and timestamp a variable has after a write that was answered with success. */
  datatype Content = Content(data: bytes, attrs: u32, time: Time)

  function ContentOf(v: Variable): Content {
    Content(v.data, v.attrs, v.timestamp)
  }

  function ContentAfter(vars: Vars, k: Key, payload: bytes, attrs: u32, time: Time): Content {
    var added := Added(vars, k, payload, attrs);
    if k !in vars then Content(added, ClearAppend(attrs), time)
    else if added == [] then ContentOf(vars[k])
    else if !Lands(vars[k], added, attrs) then ContentOf(vars[k]).(time := time)
    else Content(if AppendWrite(attrs) then vars[k].data + added else added, vars[k].attrs, time)
  }

  lemma AddedFits(vars: Vars, k: Key, payload: bytes, attrs: u32)
    requires k in vars && IsSignatureDatabase(k) ==> Complete(payload) && Complete(vars[k].data)
    ensures |Added(vars, k, payload, attrs)| <= |payload|
  {
    hide FilterBytes, Complete, AppendWrite;
    if k in vars && IsSignatureDatabase(k) {
      FilterBytesMeaning(vars[k].data, payload);
    }
  }

  lemma UpdateStores(vars: Vars, k: Key, payload: bytes, attrs: u32, time: Time)
    requires attrs != 0 && |k.name| <= MAX_NAME_SIZE && |Added(vars, k, payload, attrs)| <= MAX_DATA_SIZE
    requires var u := Update(vars, k, payload, attrs, time); u.status == Success && k in u.vars
    ensures ContentOf(Update(vars, k, payload, attrs, time).vars[k]) == ContentAfter(vars, k, payload, attrs, time)
  {
    hide FilterBytes, AppendWrite, ClearAppend, IsSignatureDatabase;
  }

  // ---- Which update a request makes

  /** The verified update of a key is the update, with the signer recorded. */
  lemma VerifiedContent(c: Crypto, vars: Vars, req: Request, via: Authority)
    requires var r := VerifyAndUpdate(c, vars, req, via); r.status == Success && req.key in r.vars
    ensures DescriptorFits(req.data)
    ensures var u := Update(vars, req.key, PayloadOf(req.data), req.attrs, TimestampOf(req.data));
            && u.status == Success && req.key in u.vars
            && ContentOf(VerifyAndUpdate(c, vars, req, via).vars[req.key]) == ContentOf(u.vars[req.key])
  {
    hide Update, VerifyStatus, LengthField, DecodeTime, AppendWrite;
    AcceptedVerdict(c, vars, req, via);
    VerifiedFormat(c, vars, req, via);
  }

  /** A successful authenticated request that leaves its variable stored is one update of it, on every route. */
  lemma SuccessIsUpdate(c: Crypto, host: bool, p: Platform, req: Request)
    requires VerifiedHasDigest(c) && Inv(host, p) && WellFormedName(req.key.name) && TimeBased(req.attrs)
    requires var r := SetVariable(c, host, p, req); r.status == Success && req.key in r.platform.vars
    ensures PayloadFits(req.data)
    ensures IsSecureBootVariable(req.key) ==> FormatStatus(c, req.key, PayloadOf(req.data)) == Success
    ensures var u := Update(p.vars, req.key, PayloadOf(req.data), req.attrs, TimestampOf(req.data));
            && u.status == Success && req.key in u.vars
            && ContentOf(SetVariable(c, host, p, req).platform.vars[req.key]) == ContentOf(u.vars[req.key])
  {
    hide SetVariable, Inv, WellFormedName, VerifyAndUpdate, Update, VerifiedHasDigest, TimeBased, LengthField,
      DecodeTime, FormatStatus, IsMirror, VerifyStatus, IsDeleteAuth;
    if IsSignatureDatabase(req.key) && p.setup {
      AcceptedDatabaseWrite(c, host, p, req);
    } else {
      var via;
      if IsSignatureDatabase(req.key) {
        via := DatabaseRoute(c, host, p, req);
      } else if req.key == PK {
        via := if p.setup then ByPayload else ByPk;
        PkRewrite(c, host, p, req);
      } else {
        via := ByPriv;
        PrivateSuccess(c, host, p, req);
      }
      AcceptedVerdict(c, p.vars, req, via);
      VerifiedFormat(c, p.vars, req, via);
      VerifiedContent(c, p.vars, req, via);
    }
  }

  lemma PrivateSuccess(c: Crypto, host: bool, p: Platform, req: Request)
    requires WellFormedName(req.key.name) && !IsSecureBootVariable(req.key) && TimeBased(req.attrs)
    requires var r := SetVariable(c, host, p, req); r.status == Success && req.key in r.platform.vars
    ensures var u := VerifyAndUpdate(c, p.vars, req, ByPriv);
            u.status == Success && SetVariable(c, host, p, req).platform.vars == u.vars
  {
    hide SetVariable, WellFormedName, VerifyAndUpdate, TimeBased, IsDeleteAuth;
    MirrorsAreReadOnly(c, host, p, req);
    PrivateRoute(c, host, p, req);
    DeletedIsGone(p.vars, req.key);
    PresentIsDeleted(p.vars, req.key);
  }

  lemma PresentIsDeleted(vars: Vars, k: Key)
    ensures k in vars && SetVar(vars, k, [], 0).status == Success ==> k !in SetVar(vars, k, [], 0).vars
  {
  }

  lemma MirrorsAreReadOnly(c: Crypto, host: bool, p: Platform, req: Request)
    requires WellFormedName(req.key.name) && SetVariable(c, host, p, req).status == Success
    ensures !IsMirror(req.key)
  {
    hide Dispatch, SetVar, WellFormedName, UpToNul, IsReadOnly;
    Routes(req.key);
  }

  // ---- What a request stores

  /**
   What a success means, for every authenticated request that leaves its variable stored, on every route and in both
   modes. A new variable holds what was sent. Of a stored one nothing changes when there is nothing to add. Its data
   stays and only its timestamp moves when the attributes differ or an append does not fit. Otherwise the data is
   replaced, or extended by what is new.
   */
  lemma SuccessStores(c: Crypto, host: bool, p: Platform, req: Request)
    requires VerifiedHasDigest(c) && Inv(host, p) && WellFormedName(req.key.name) && TimeBased(req.attrs)
    requires |req.data| <= MAX_DATA_SIZE
    ensures var r := SetVariable(c, host, p, req);
            r.status == Success && req.key in r.platform.vars ==>
            && PayloadFits(req.data)
            && ContentOf(r.platform.vars[req.key])
               == ContentAfter(p.vars, req.key, PayloadOf(req.data), req.attrs, TimestampOf(req.data))
  {
    hide SetVariable, Inv, NoNul, Update, VerifiedHasDigest, TimeBased, LengthField, DecodeTime, FormatStatus,
      ContentAfter, Added, WellFormedLists, Complete, ValidVars, MirrorsAgree;
    var r := SetVariable(c, host, p, req);
    if r.status == Success && req.key in r.platform.vars {
      SuccessIsUpdate(c, host, p, req);
      TimeBasedIsNotZero(req.attrs);
      var payload := PayloadOf(req.data);
      if IsSignatureDatabase(req.key) {
        AcceptedForm(c, req.key, payload);
        InvParts(host, p);
        FormIsComplete(p.vars, req.key, payload);
      }
      AddedFits(p.vars, req.key, payload, req.attrs);
      UpdateStores(p.vars, req.key, payload, req.attrs, TimestampOf(req.data));
    }
  }

  /** A success stored the payload exactly when the variable was new, had nothing to gain, or the write landed. */
  predicate IsStored(vars: Vars, req: Request)
    requires PayloadFits(req.data)
  {
    var added := Added(vars, req.key, PayloadOf(req.data), req.attrs);
    req.key !in vars || added == [] || Lands(vars[req.key], added, req.attrs)
  }

  /** The data a write asks for. */
  function Wanted(vars: Vars, req: Request): bytes
    requires PayloadFits(req.data)
  {
    var added := Added(vars, req.key, PayloadOf(req.data), req.attrs);
    if req.key in vars && AppendWrite(req.attrs) then vars[req.key].data + added else added
  }

  /** A reported success means the data is there, exactly when the write landed or would have changed nothing. */
  lemma StoredIff(c: Crypto, host: bool, p: Platform, req: Request)
    requires VerifiedHasDigest(c) && Inv(host, p) && WellFormedName(req.key.name) && TimeBased(req.attrs)
    requires |req.data| <= MAX_DATA_SIZE && PayloadFits(req.data)
    ensures var r := SetVariable(c, host, p, req);
            r.status == Success && req.key in r.platform.vars ==>
            (r.platform.vars[req.key].data == Wanted(p.vars, req)
             <==> IsStored(p.vars, req) || Wanted(p.vars, req) == p.vars[req.key].data)
  {
    hide SetVariable, Inv, WellFormedName, VerifiedHasDigest, TimeBased, LengthField, DecodeTime, AppendWrite,
      FilterBytes, ClearAppend, IsSignatureDatabase, Update, FormatStatus, IsSecureBootVariable;
    var r := SetVariable(c, host, p, req);
    if r.status == Success && req.key in r.platform.vars {
      SuccessStores(c, host, p, req);
      SuccessIsUpdate(c, host, p, req);
      TimeBasedIsNotZero(req.attrs);
      UpdatePresence(p.vars, req.key, PayloadOf(req.data), req.attrs, TimestampOf(req.data));
    }
  }

  /** One SHA-256 record with one entry, an owner and a hash. */
  function HashPayload(entry: bytes): bytes {
    PrintList(SigList(SHA256_GUID, [], 48, [entry]))
  }

  /** A write of that record to KEK behind a descriptor with a zero timestamp. */
  function HashRequest(entry: bytes, attrs: u32): Request {
    Request(KEK, EMPTY_DESCRIPTOR + HashPayload(entry), attrs)
  }

  lemma HashPayloadParses(entry: bytes)
    requires |entry| == 48
    ensures var l := SigList(SHA256_GUID, [], 48, [entry]);
            |HashPayload(entry)| == 76 && Complete(HashPayload(entry)) && Parse(HashPayload(entry)) == [l]
  {
    var l := SigList(SHA256_GUID, [], 48, [entry]);
    assert Flatten([entry]) == entry + Flatten([]) == entry;
    assert WholeLists([l]);
    hide PrintList, Complete, Parse, Flatten;
    ParsePrint([l]);
    assert PrintLists([l]) == PrintList(l) + PrintLists([]) == PrintList(l);
  }

  /** The format check accepts the record for KEK, whatever the library. */
  lemma HashPayloadIsAccepted(c: Crypto, entry: bytes)
    requires |entry| == 48
    ensures FormatStatus(c, KEK, HashPayload(entry)) == Success
  {
    hide HashPayload, FromLE, UpToNul, NamesPk, NamesKek, Items, ParseHead;
    HashPayloadParses(entry);
    KekNames();
    var s := HashPayload(entry);
    ParseCons(s);
    HashTypeAt(s);
    var next := s[ListSizeAt(s)..];
    assert Parse(s)[0] == ParseHead(s) && Parse(next) == Parse(s)[1..] == [];
    NothingBehind(next);
    assert WellFormedLists(s) by {
      assert SupportedList(Parse(s)[0]);
    }
    assert SHA256_GUID[0] != X509_GUID[0];
    assert HeadsHaveKeys(c, next) && HeadsHaveKeys(c, s);
  }

  lemma NothingBehind(s: bytes)
    requires Complete(s) && Parse(s) == []
    ensures s == []
  {
  }

  lemma HashTypeAt(s: bytes)
    requires CompleteHead(s)
    ensures TypeAt(s) == ParseHead(s).sigType
  {
    hide FromLE;
  }

  /**
   In every well-kept platform in setup mode whose KEK was stored without runtime access, a write with runtime access
   is answered with success, and yet the stored keys are the old ones: only their timestamp is the request's.
   */
  lemma SuccessWithoutWrite(c: Crypto, host: bool, p: Platform, entry: bytes)
    requires Inv(host, p) && p.setup && KEK in p.vars && p.vars[KEK].attrs == 0x23 && |entry| == 48
    ensures SetVariable(c, host, p, HashRequest(entry, KEY_ATTRS))
            == Step(Success, p.(vars := p.vars[KEK := p.vars[KEK].(timestamp := ZERO_TIME)]))
  {
    hide FormatStatus, DescriptorFits, PayloadFits, HashPayload, TimeBased, EvaluateAttrs, WellFormedName, UpToNul,
      AppendWrite, Runtime, BootService, NonVolatile, IsReadOnly, Update, Inv, TimestampOf, FromLE;
    HashFields(entry);
    HashPayloadIsAccepted(c, entry);
    KeyAttrs();
    KekNames();
    KekUpdate(p.vars, HashPayload(entry));
  }

  lemma KekNames()
    ensures WellFormedName(KEK_NAME) && NamesKek(KEK) && !NamesPk(KEK)
    ensures !IsReadOnly(KEK) && !NameStartsWithZero(KEK_NAME)
  {
    assert WellFormedName(KEK_NAME);
    Routes(KEK);
  }

  lemma HashFields(entry: bytes)
    requires |entry| == 48
    ensures var data := EMPTY_DESCRIPTOR + HashPayload(entry);
            && PayloadFits(data) && PayloadOf(data) == HashPayload(entry) && TimestampOf(data) == ZERO_TIME
            && 0 < |HashPayload(entry)| <= MAX_DATA_SIZE
  {
    hide HashPayload, FromLE, LengthField, DecodeTime;
    HashPayloadParses(entry);
    DescriptorFields(HashPayload(entry));
    var front := (EMPTY_DESCRIPTOR + HashPayload(entry))[..16];
    forall i | 0 <= i < 16
      ensures front[i] == 0
    {
      assert front[i] == EMPTY_DESCRIPTOR[i];
    }
    ZeroTime(front);
  }

  lemma ZeroTime(s: bytes)
    requires |s| == 16 && forall i :: 0 <= i < 16 ==> s[i] == 0
    ensures DecodeTime(s) == ZERO_TIME
  {
    hide FromLE;
    TwoBytes(0, 0);
    FourBytes(0, 0, 0, 0);
    assert s[0..2] == [0, 0] && s[12..14] == [0, 0] && s[8..12] == [0, 0, 0, 0];
  }

  lemma KekUpdate(vars: Vars, payload: bytes)
    requires KEK in vars && vars[KEK].attrs == 0x23 && 0 < |payload| <= MAX_DATA_SIZE
    ensures Update(vars, KEK, payload, KEY_ATTRS, ZERO_TIME)
            == Outcome(Success, vars[KEK := vars[KEK].(timestamp := ZERO_TIME)])
  {
    KeyAttrs();
  }

  // ---- Which timestamp is stored

  lemma UpdateTime(vars: Vars, k: Key, payload: bytes, attrs: u32, time: Time)
    requires attrs != 0
    requires var u := Update(vars, k, payload, attrs, time); u.status == Success && k in u.vars
    ensures Update(vars, k, payload, attrs, time).vars[k].timestamp
            == if k in vars && Added(vars, k, payload, attrs) == [] then vars[k].timestamp else time
  {
    hide FilterBytes, AppendWrite, ClearAppend, IsSignatureDatabase;
  }

  /** A success leaves the descriptor's timestamp, unless it had nothing to add to a stored variable. */
  lemma SuccessTimestamp(c: Crypto, host: bool, p: Platform, req: Request)
    requires VerifiedHasDigest(c) && Inv(host, p) && WellFormedName(req.key.name) && TimeBased(req.attrs)
    requires var r := SetVariable(c, host, p, req); r.status == Success && req.key in r.platform.vars
    ensures PayloadFits(req.data)
    ensures var added := Added(p.vars, req.key, PayloadOf(req.data), req.attrs);
            && SetVariable(c, host, p, req).platform.vars[req.key].timestamp
               == (if req.key in p.vars && added == [] then p.vars[req.key].timestamp else TimestampOf(req.data))
            && (!AppendWrite(req.attrs) ==> added != [])
  {
    hide SetVariable, Inv, WellFormedName, Update, VerifiedHasDigest, TimeBased, LengthField, DecodeTime, FormatStatus,
      FilterBytes, AppendWrite, IsSecureBootVariable;
    SuccessIsUpdate(c, host, p, req);
    TimeBasedIsNotZero(req.attrs);
    UpdatePresence(p.vars, req.key, PayloadOf(req.data), req.attrs, TimestampOf(req.data));
    UpdateTime(p.vars, req.key, PayloadOf(req.data), req.attrs, TimestampOf(req.data));
  }

  /** The write creates its variable, replaces it, or has something to append. */
  predicate HasNews(vars: Vars, req: Request) {
    req.key in vars && AppendWrite(req.attrs) && PayloadFits(req.data) ==>
      Added(vars, req.key, PayloadOf(req.data), req.attrs) != []
  }

  /**
   No accepted descriptor is accepted a second time. Request `a` is any accepted authenticated write with news, the
   one that created the variable included; as long as the variable then stays stored and is written only by verified
   writes that are no appends, every such write accepted later carries a strictly later timestamp.
   */
  lemma NoReplay(c: Crypto, host: bool, p: Platform, reqs: seq<Request>, k: Key, a: nat, b: nat)
    requires VerifiedHasDigest(c) && Inv(host, p) && WellNamed(reqs) && !IsMirror(k)
    requires a < b < |reqs| && OnlyVerifiedWrites(c, host, p, reqs, k, a + 1, b + 1)
    requires reqs[a].key == k && TimeBased(reqs[a].attrs) && HasNews(After(c, host, p, reqs, a).vars, reqs[a])
    requires SetVariable(c, host, After(c, host, p, reqs, a), reqs[a]).status == Success
    requires reqs[b].key == k && SetVariable(c, host, After(c, host, p, reqs, b), reqs[b]).status == Success
    ensures PayloadFits(reqs[a].data) && DescriptorFits(reqs[b].data)
    ensures Rank(TimestampOf(reqs[a].data)) < Rank(TimestampOf(reqs[b].data))
    ensures reqs[a].data != reqs[b].data
  {
    hide Inv, Rank, After, WellFormedName, IsVerifiedWrite, SetVariable, TimeBased, Added, AppendWrite;
    RunKeepsInv(c, host, p, reqs, a);
    OneMore(c, host, p, reqs, a);
    assert reqs[a] in reqs;
    assert k in After(c, host, p, reqs, a + 1).vars;
    SuccessTimestamp(c, host, After(c, host, p, reqs, a), reqs[a]);
    TimestampGrows(c, host, p, reqs, k, a + 1, b);
    TimestampStep(c, host, p, reqs, k, b);
  }

  // ---- When a timestamp goes back

  /**
   A successful authenticated write moves a stored timestamp back exactly when it has something to add, carries an
   earlier timestamp, and is not compared: as an append, or to a signature database in setup mode.
   */
  lemma TimestampBackIff(c: Crypto, host: bool, p: Platform, req: Request)
    requires VerifiedHasDigest(c) && Inv(host, p) && WellFormedName(req.key.name) && TimeBased(req.attrs)
    requires PayloadFits(req.data) && req.key in p.vars
    ensures var r := SetVariable(c, host, p, req);
            r.status == Success && req.key in r.platform.vars ==>
            (Rank(r.platform.vars[req.key].timestamp) < Rank(p.vars[req.key].timestamp) <==>
             && Added(p.vars, req.key, PayloadOf(req.data), req.attrs) != []
             && Rank(TimestampOf(req.data)) < Rank(p.vars[req.key].timestamp)
             && (AppendWrite(req.attrs) || (p.setup && IsSignatureDatabase(req.key))))
  {
    hide SetVariable, Inv, WellFormedName, VerifiedHasDigest, TimeBased, LengthField, DecodeTime, AppendWrite,
      FilterBytes, ClearAppend, Rank, Added, Lands;
    var r := SetVariable(c, host, p, req);
    if r.status == Success && req.key in r.platform.vars {
      SuccessTimestamp(c, host, p, req);
      if !AppendWrite(req.attrs) && !(p.setup && IsSignatureDatabase(req.key)) {
        MirrorsAreReadOnly(c, host, p, req);
        KeyOutsideSetup(host, p, req.key);
        StepTimestamp(c, host, p, req, req.key);
      }
    }
  }

  /** In setup mode no platform key is stored. */
  lemma KeyOutsideSetup(host: bool, p: Platform, k: Key)
    requires Inv(host, p) && k in p.vars
    ensures p.setup ==> k != PK
  {
  }

  /**
   What such an append does to the timestamp rule: the descriptor that wrote the stored variable is too old for it
   before, and fresh again afterwards exactly when the append had something to add and an earlier timestamp.
   */
  lemma FreshAgainIff(c: Crypto, host: bool, p: Platform, req: Request, earlier: Request)
    requires VerifiedHasDigest(c) && Inv(host, p) && WellFormedName(req.key.name) && TimeBased(req.attrs)
    requires PayloadFits(req.data) && AppendWrite(req.attrs) && req.key in p.vars
    requires earlier.key == req.key && DescriptorFits(earlier.data) && !AppendWrite(earlier.attrs)
    requires TimestampOf(earlier.data) == p.vars[req.key].timestamp
    ensures !Fresher(p.vars, earlier)
    ensures var r := SetVariable(c, host, p, req);
            r.status == Success && req.key in r.platform.vars ==>
            (Fresher(r.platform.vars, earlier) <==>
             && Added(p.vars, req.key, PayloadOf(req.data), req.attrs) != []
             && Rank(TimestampOf(req.data)) < Rank(TimestampOf(earlier.data)))
  {
    hide SetVariable, Inv, WellFormedName, VerifiedHasDigest, TimeBased, LengthField, DecodeTime, AppendWrite, Rank,
      Added, NotLater, IsSignatureDatabase;
    var r := SetVariable(c, host, p, req);
    var t := TimestampOf(earlier.data);
    NotLaterIsRankOrder(t, t);
    if r.status == Success && req.key in r.platform.vars {
      TimestampBackIff(c, host, p, req);
      NotLaterIsRankOrder(t, r.platform.vars[req.key].timestamp);
    }
  }

  /**
   In every well-kept platform in setup mode whose KEK lacks this entry, an append of it is answered with success and
   the stored timestamp becomes zero, however late it was.
   */
  lemma AppendMovesBack(c: Crypto, host: bool, p: Platform, entry: bytes)
    requires Inv(host, p) && p.setup && KEK in p.vars && |entry| == 48
    requires FilterBytes(p.vars[KEK].data, HashPayload(entry)) != []
    ensures var r := SetVariable(c, host, p, HashRequest(entry, 0x67));
            r.status == Success && KEK in r.platform.vars && r.platform.vars[KEK].timestamp == ZERO_TIME
  {
    hide FormatStatus, DescriptorFits, PayloadFits, HashPayload, TimeBased, EvaluateAttrs, WellFormedName, UpToNul,
      AppendWrite, Runtime, BootService, NonVolatile, IsReadOnly, Inv, TimestampOf, FromLE, FilterBytes, SetVar;
    HashFields(entry);
    HashPayloadIsAccepted(c, entry);
    AppendAttrs();
    KekNames();
    StillStored(p.vars, FilterBytes(p.vars[KEK].data, HashPayload(entry)), 0x67);
  }

  lemma AppendAttrs()
    ensures HasDatabaseAttrs(0x67) && TimeBased(0x67) && AppendWrite(0x67)
    ensures Runtime(0x67) && BootService(0x67) && EvaluateAttrs(0x67) == Success
  {
  }

  lemma StillStored(vars: Vars, data: bytes, attrs: u32)
    requires KEK in vars && data != [] && attrs != 0
    ensures KEK in SetVar(vars, KEK, data, attrs).vars
  {
  }

  // ---- A signed write seen through the wire

  /**
   An authenticated SetVariable request followed by any GetVariable request, both as bytes in the shared pages. When
   the write was answered with success and left its variable stored, its key is answered with the content above; a
   refused write, and a key that is neither the one written nor a mirror of the mode, leave the answer as it was.
   */
  lemma SignedSetThenGet(c: Crypto, host: bool, p: Platform, req: Request, phase: bool, pad: bytes,
                         k: Key, bufferSize: u64, atRuntime: bool, pad': bytes)
    requires VerifiedHasDigest(c) && Inv(host, p) && WellFormedName(req.key.name) && TimeBased(req.attrs)
    requires |req.data| <= MAX_DATA_SIZE && |k.name| <= MAX_NAME_SIZE
    requires |EncodeSet(req, phase) + pad| >= MAX_REQUEST_SIZE
    requires |EncodeGet(k, bufferSize, atRuntime) + pad'| >= MAX_REQUEST_SIZE
    ensures var step := ServeSet(c, host, p, EncodeSet(req, phase) + pad);
            var get := EncodeGet(k, bufferSize, atRuntime) + pad';
            && (step.status == Success && k == req.key && k in step.platform.vars ==>
                && PayloadFits(req.data)
                && var content := ContentAfter(p.vars, k, PayloadOf(req.data), req.attrs, TimestampOf(req.data));
                   ReplyGet(step.platform.vars, get) == AnswerData(content.attrs, content.data, bufferSize, atRuntime))
            && (step.status != Success || (k != req.key && !IsMirror(k)) ==>
                ReplyGet(step.platform.vars, get) == ReplyGet(p.vars, get))
  {
    hide EncodeSet, EncodeGet, ParseSet, ParseGet, VersionOf, CommandOf, SetVariable, Inv, TimeBased, VerifiedHasDigest,
      NoNul, LengthField, DecodeTime, IsMirror, AnswerData, ContentAfter;
    SetRequestRoundTrip(req, phase, pad);
    GetRequestRoundTrip(k, bufferSize, atRuntime, pad');
    SuccessStores(c, host, p, req);
    StepKeepsInv(c, host, p, req);
    if k != req.key && !IsMirror(k) {
      StepFrame(c, host, p, req, k);
    }
  }

  // ---- After a deletion

  lemma SameVerdictWhenAbsent(c: Crypto, vars: Vars, vars': Vars, req: Request)
    requires req.key !in vars && req.key !in vars'
    ensures VerifyStatus(c, vars, req, ByPriv) == VerifyStatus(c, vars', req, ByPriv)
  {
    hide FormatStatus, LengthField, DecodeTime, IsPkcs7, PadsAreZero, UpToNul;
  }

  lemma CreationStores(c: Crypto, vars: Vars, req: Request)
    requires req.key !in vars && TimeBased(req.attrs) && |req.key.name| <= MAX_NAME_SIZE && |req.data| <= MAX_DATA_SIZE
    requires VerifyStatus(c, vars, req, ByPriv) == Success && DescriptorFits(req.data) && PayloadOf(req.data) != []
    requires c.digest(SignedDataOf(req.data)).Some?
    ensures var r, sig := VerifyAndUpdate(c, vars, req, ByPriv), SignedDataOf(req.data);
            var v := Create(req.key, PayloadOf(req.data), ClearAppend(req.attrs));
            && (r.status == Success <==> |vars| < MAX_VAR_COUNT)
            && (r.status == Success ==>
                && req.key in r.vars
                && r.vars[req.key] == v.(timestamp := TimestampOf(req.data), cert := c.digest(sig).value))
  {
    hide VerifyStatus, LengthField, DecodeTime, AppendWrite, ClearAppend, FilterBytes, TimeBased;
    TimeBasedIsNotZero(req.attrs);
  }

  /**
   A deleted variable leaves no timestamp behind: the request that created a private variable is accepted again once
   the variable is gone, exactly when there is a free slot, and creates the same variable with the same signer.
   */
  lemma CreatedAgainIff(c: Crypto, host: bool, p: Platform, q: Platform, req: Request)
    requires WellFormedName(req.key.name) && IsPrivate(req.key) && TimeBased(req.attrs) && |req.data| <= MAX_DATA_SIZE
    requires req.key !in p.vars && req.key !in q.vars && req.key in SetVariable(c, host, p, req).platform.vars
    requires SetVariable(c, host, p, req).status == Success
    ensures var r, r' := SetVariable(c, host, p, req), SetVariable(c, host, q, req);
            && (r'.status == Success <==> |q.vars| < MAX_VAR_COUNT)
            && (r'.status == Success ==>
                req.key in r'.platform.vars && r'.platform.vars[req.key] == r.platform.vars[req.key])
  {
    hide SetVariable, NoNul, IsPrivate, VerifyStatus, VerifyAndUpdate, TimeBased, IsDeleteAuth, DescriptorFits, SetVar,
      RefusedEarly, AppendWrite, CounterAuth, ClearAppend, VerifiedBySigner, TimestampOf, Verified;
    PrivateConsidered(c, host, p, req);
    PrivateConsidered(c, host, q, req);
    SameVerdictWhenAbsent(c, p.vars, q.vars, req);
    CreatedBySigner(c, host, p, req);
    AcceptedVerdict(c, p.vars, req, ByPriv);
    NotEmptyWhenCreated(c, p.vars, req);
    CreationStores(c, p.vars, req);
    CreationStores(c, q.vars, req);
  }

  lemma NotEmptyWhenCreated(c: Crypto, vars: Vars, req: Request)
    requires TimeBased(req.attrs) && req.key !in vars && DescriptorFits(req.data)
    requires VerifyAndUpdate(c, vars, req, ByPriv).status == Success
    ensures PayloadOf(req.data) != []
  {
    hide VerifyStatus, LengthField, DecodeTime, AppendWrite, ClearAppend, FilterBytes, TimeBased;
  }
}
