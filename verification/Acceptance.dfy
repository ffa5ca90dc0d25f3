/** Which authenticated requests are accepted: the other half of the authority laws, for every key and both modes. */
module Acceptance {
  import opened Bytes
  import opened Uefi
  import opened SignatureLists
  import opened SignatureWalks
  import opened Crypto
  import opened VariableMap
  import opened AuthSpec
  import opened AuthProofs
  import opened PlatformSteps

  /** There is a slot for the variable: its own or a free one. */
  predicate HasRoom(vars: Vars, k: Key) {
    k in vars || |vars| < MAX_VAR_COUNT
  }

  lemma UpdateSucceeds(vars: Vars, k: Key, payload: bytes, attrs: u32, time: Time)
    requires HasRoom(vars, k) && payload != [] && |payload| <= MAX_DATA_SIZE && attrs != 0 && |k.name| <= MAX_NAME_SIZE
    ensures Update(vars, k, payload, attrs, time).status == Success
  {
    hide AppendWrite, ClearAppend, FilterBytes, IsSignatureDatabase;
  }

  lemma VerifiedSucceeds(c: Crypto, vars: Vars, req: Request, via: Authority)
    requires VerifiedHasDigest(c) && TimeBased(req.attrs) && |req.key.name| <= MAX_NAME_SIZE
    requires |req.data| <= MAX_DATA_SIZE && HasRoom(vars, req.key)
    requires DescriptorFits(req.data) ==> PayloadOf(req.data) != []
    ensures VerifyAndUpdate(c, vars, req, via).status == Success <==> VerifyStatus(c, vars, req, via) == Success
  {
    hide VerifyStatus, Update, LengthField, DecodeTime, TimeBased, VerifiedHasDigest, AppendWrite, HasRoom, Verified;
    if VerifyStatus(c, vars, req, via) == Success {
      AcceptedIsVerified(c, vars, req, via);
      VerifiedDigest(c, vars, req, via);
      TimeBasedIsNotZero(req.attrs);
      var payload, time := PayloadOf(req.data), TimestampOf(req.data);
      UpdateSucceeds(vars, req.key, payload, req.attrs, time);
      UpdatePresence(vars, req.key, payload, req.attrs, time);
    }
  }

  /** What each key asks of an authenticated write, by mode. */
  predicate Passes(c: Crypto, p: Platform, req: Request) {
    if IsSecureBootVariable(req.key) then
      NonVolatile(req.attrs) &&
      if !p.setup then
        || VerifyStatus(c, p.vars, req, ByPk) == Success
        || (req.key != PK && req.key != KEK && VerifyStatus(c, p.vars, req, ByKek) == Success)
      else if req.key == PK then VerifyStatus(c, p.vars, req, ByPayload) == Success
      else PayloadFits(req.data) && FormatStatus(c, req.key, PayloadOf(req.data)) == Success
    else VerifyStatus(c, p.vars, req, ByPriv) == Success
  }

  /** The request has data behind its descriptor, so that it is no delete. */
  predicate CarriesPayload(req: Request) {
    PayloadFits(req.data) ==> PayloadOf(req.data) != []
  }

  lemma DatabaseSucceeds(c: Crypto, host: bool, p: Platform, req: Request)
    requires VerifiedHasDigest(c) && StoreWell(p) && WellFormedName(req.key.name) && IsSignatureDatabase(req.key)
    requires TimeBased(req.attrs) && |req.data| <= MAX_DATA_SIZE && HasRoom(p.vars, req.key) && CarriesPayload(req)
    ensures Dispatch(c, host, p, req).status == Success <==> Passes(c, p, req)
  {
    hide VerifyStatus, VerifyAndUpdate, Update, LengthField, DecodeTime, TimeBased, VerifiedHasDigest, FormatStatus,
      NoNul, NamesPk, NamesKek, NamesDb, NonVolatile, ValidVars, DatabasesWell;
    Routes(req.key);
    DistinctKeys();
    DatabaseStep(c, host, p, req);
    VerifiedSucceeds(c, p.vars, req, ByPk);
    VerifiedSucceeds(c, p.vars, req, ByKek);
    if PayloadFits(req.data) {
      TimeBasedIsNotZero(req.attrs);
      UpdateSucceeds(p.vars, req.key, PayloadOf(req.data), req.attrs, TimestampOf(req.data));
    }
  }

  lemma KeySucceeds(c: Crypto, host: bool, p: Platform, req: Request)
    requires VerifiedHasDigest(c) && Inv(host, p) && req.key == PK && TimeBased(req.attrs)
    requires |req.data| <= MAX_DATA_SIZE && HasRoom(p.vars, PK) && CarriesPayload(req)
    ensures Dispatch(c, host, p, req).status == Success <==> Passes(c, p, req)
  {
    hide VerifyStatus, VerifyAndUpdate, LengthField, TimeBased, VerifiedHasDigest, NoNul, NamesPk, NonVolatile,
      UpdateMode, Inv, ValidVars;
    OtherNames();
    Routes(PK);
    var via := if p.setup then ByPayload else ByPk;
    VerifiedSucceeds(c, p.vars, req, via);
    InvParts(host, p);
    VerifyAndUpdateFrame(c, p.vars, req, via);
    var u := VerifyAndUpdate(c, p.vars, req, via);
    ModeSucceeds(p.vars, u.vars, !p.setup, host);
  }

  lemma ModeSucceeds(before: Vars, vars: Vars, setup: bool, host: bool)
    requires ValidVars(vars) && OnlyAt(PK, before, vars) && MirrorsExist(before)
    ensures UpdateMode(vars, setup, host).status == Success
  {
    hide UpdateMode, ValidVars;
    DistinctKeys();
    SameElsewhere(before, vars, PK, SECURE_BOOT);
    SameElsewhere(before, vars, PK, SETUP_MODE);
    SameElsewhere(before, vars, PK, DEPLOYED_MODE);
    ModeFrame(vars, setup, host);
  }

  lemma PrivateSucceeds(c: Crypto, host: bool, p: Platform, req: Request)
    requires VerifiedHasDigest(c) && WellFormedName(req.key.name) && !IsSecureBootVariable(req.key)
    requires TimeBased(req.attrs) && !CounterAuth(req.attrs)
    requires |req.data| <= MAX_DATA_SIZE && HasRoom(p.vars, req.key) && CarriesPayload(req)
    ensures Dispatch(c, host, p, req).status == Success <==> Passes(c, p, req)
  {
    hide VerifyStatus, VerifyAndUpdate, LengthField, TimeBased, CounterAuth, VerifiedHasDigest, NoNul, NamesPk,
      NamesKek, NamesDb, SetVar;
    Routes(req.key);
    VerifiedSucceeds(c, p.vars, req, ByPriv);
  }

  /**
   An authenticated write with a payload, not turned down from its header and with a slot for its variable, is accepted
   exactly when it passes what its key asks for. In user mode PK and KEK ask for the stored platform key, db, dbx and
   dbt for it or a key exchange key; in setup mode PK asks for its own certificate and the databases for their format
   only; every other variable asks for its recorded signer.
   */
  lemma AcceptedIff(c: Crypto, host: bool, p: Platform, req: Request)
    requires VerifiedHasDigest(c) && Inv(host, p) && WellFormedName(req.key.name) && TimeBased(req.attrs)
    requires !RefusedEarly(req) && |req.data| <= MAX_DATA_SIZE && HasRoom(p.vars, req.key) && CarriesPayload(req)
    ensures SetVariable(c, host, p, req).status == Success <==> Passes(c, p, req)
  {
    hide Dispatch, Passes, TimeBased, VerifiedHasDigest, WellFormedName, Inv, HasRoom, CarriesPayload, CounterAuth,
      Runtime, BootService, HardwareError, IsReadOnly, NameStartsWithZero, ValidVars, DatabasesWell;
    InvParts(host, p);
    if req.key == PK {
      KeySucceeds(c, host, p, req);
    } else if IsSignatureDatabase(req.key) {
      DatabaseSucceeds(c, host, p, req);
    } else {
      PrivateSucceeds(c, host, p, req);
    }
  }

  /**
   Deleting the platform key in user mode: a bare descriptor signed by the stored key removes it and returns the
   platform to setup mode.
   */
  lemma KeyDeletion(c: Crypto, host: bool, p: Platform, req: Request)
    requires VerifiedHasDigest(c) && Inv(host, p) && !p.setup && req.key == PK && HasDatabaseAttrs(req.attrs)
    requires !RefusedEarly(req) && !AppendWrite(req.attrs) && VerifyStatus(c, p.vars, req, ByPk) == Success
    requires DescriptorFits(req.data) && PayloadOf(req.data) == []
    ensures var r := SetVariable(c, host, p, req);
            r.status == Success && r.platform.setup && PK !in r.platform.vars && Inv(host, r.platform)
  {
    hide VerifyStatus, VerifyAndUpdate, LengthField, TimeBased, VerifiedHasDigest, NoNul, NamesPk, NonVolatile,
      UpdateMode, Inv, ValidVars, RefusedEarly, AppendWrite, Dispatch;
    OtherNames();
    InvParts(host, p);
    KeyIsThere(host, p);
    EmptyVerified(c, p.vars, req);
    VerifyAndUpdateFrame(c, p.vars, req, ByPk);
    KeyRoute(c, host, p, req);
    ModeSucceeds(p.vars, VerifyAndUpdate(c, p.vars, req, ByPk).vars, true, host);
    ModeFrame(VerifyAndUpdate(c, p.vars, req, ByPk).vars, true, host);
    StepKeepsInv(c, host, p, req);
    SetupMeansNoKey(host, SetVariable(c, host, p, req).platform);
  }

  lemma KeyIsThere(host: bool, p: Platform)
    requires Inv(host, p) && !p.setup
    ensures PK in p.vars
  {
  }

  lemma SetupMeansNoKey(host: bool, p: Platform)
    requires Inv(host, p)
    ensures p.setup <==> PK !in p.vars
  {
  }

  lemma EmptyVerified(c: Crypto, vars: Vars, req: Request)
    requires req.key in vars && TimeBased(req.attrs) && !AppendWrite(req.attrs) && |req.key.name| <= MAX_NAME_SIZE
    requires DescriptorFits(req.data) && PayloadOf(req.data) == [] && VerifyStatus(c, vars, req, ByPk) == Success
    ensures var u := VerifyAndUpdate(c, vars, req, ByPk); u.status == Success && u.deleted
  {
    hide VerifyStatus, LengthField, DecodeTime, TimeBased, AppendWrite, ClearAppend, FilterBytes;
  }

  lemma KeyRoute(c: Crypto, host: bool, p: Platform, req: Request)
    requires req.key == PK && !p.setup && HasDatabaseAttrs(req.attrs) && !RefusedEarly(req)
    ensures var u, r := VerifyAndUpdate(c, p.vars, req, ByPk), SetVariable(c, host, p, req);
            u.status == Success && u.deleted ==> r == UpdateMode(u.vars, true, host)
  {
    hide VerifyAndUpdate, UpdateMode, NamesPk, NonVolatile, TimeBased, NoNul;
    OtherNames();
    Routes(PK);
  }
}
