/** The invariant of the platform under every SetVariable request, and all-or-nothing requests. */
module PlatformSteps {
  import opened Bytes
  import opened Uefi
  import opened SignatureWalks
  import opened Crypto
  import opened VariableMap
  import opened AuthSpec
  import opened AuthProofs

  /** User mode exactly when a platform key is stored, mirrors that agree with the mode, well-formed databases. */
  predicate Inv(host: bool, p: Platform) {
    && ValidVars(p.vars)
    && DatabasesWell(p.vars)
    && MirrorsAgree(host, p)
    && (p.setup <==> PK !in p.vars)
  }

  /** A step that may change one variable but not the mode, keeps the databases well formed, and is all or nothing. */
  predicate LocalStep(p: Platform, r: Step, k: Key) {
    && r.platform.setup == p.setup
    && ValidVars(r.platform.vars)
    && DatabasesWell(r.platform.vars)
    && OnlyAt(k, p.vars, r.platform.vars)
    && (r.status != Success ==> r.platform == p)
  }

  predicate StoreWell(p: Platform) {
    ValidVars(p.vars) && DatabasesWell(p.vars)
  }

  lemma VerifiedStep(c: Crypto, p: Platform, req: Request, via: Authority)
    requires VerifiedHasDigest(c) && StoreWell(p) && WellFormedName(req.key.name) && TimeBased(req.attrs)
    ensures var r := VerifyAndUpdate(c, p.vars, req, via);
            LocalStep(p, Step(r.status, Platform(r.vars, p.setup)), req.key)
  {
    VerifyAndUpdateFrame(c, p.vars, req, via);
    VerifyAndUpdateForm(c, p.vars, req, via);
    hide ValidVars, DatabasesWell, VerifyAndUpdate, WellFormedName;
  }

  lemma UnverifiedStep(c: Crypto, p: Platform, req: Request)
    requires StoreWell(p) && WellFormedName(req.key.name) && IsSecureBootVariable(req.key)
    ensures var r := UpdateUnverified(c, p.vars, req);
            LocalStep(p, Step(r.status, Platform(r.vars, p.setup)), req.key)
  {
    UnverifiedFrame(c, p.vars, req);
    hide ValidVars, DatabasesWell, UpdateUnverified, WellFormedName;
  }

  lemma NoStep(p: Platform, status: Status, k: Key)
    requires StoreWell(p)
    ensures LocalStep(p, Step(status, p), k)
  {
  }

  lemma DatabaseStep(c: Crypto, host: bool, p: Platform, req: Request)
    requires VerifiedHasDigest(c) && StoreWell(p) && WellFormedName(req.key.name) && IsSecureBootVariable(req.key)
    ensures LocalStep(p, ProcessWithPk(c, host, p, req, false), req.key)
    ensures LocalStep(p, ProcessWithKek(c, p, req), req.key)
  {
    hide LocalStep, StoreWell, VerifyAndUpdate, UpdateUnverified, WellFormedName;
    NoStep(p, InvalidParameter, req.key);
    UnverifiedStep(c, p, req);
    if HasDatabaseAttrs(req.attrs) {
      VerifiedStep(c, p, req, ByPk);
      VerifiedStep(c, p, req, ByKek);
    }
  }

  lemma PlainStep(p: Platform, k: Key, data: bytes, attrs: u32)
    requires StoreWell(p) && WellFormedName(k.name) && !IsSecureBootVariable(k)
    ensures var r := SetVar(p.vars, k, data, attrs); LocalStep(p, Step(r.status, Platform(r.vars, p.setup)), k)
  {
    SetVarFrame(p.vars, k, data, attrs);
    hide ValidVars, SetVar, WellFormedName;
    KeepForm(p.vars, SetVar(p.vars, k, data, attrs).vars, k);
  }

  lemma PrivateStep(c: Crypto, p: Platform, req: Request)
    requires VerifiedHasDigest(c) && StoreWell(p) && WellFormedName(req.key.name) && !IsSecureBootVariable(req.key)
    ensures LocalStep(p, ProcessVariable(c, p, req), req.key)
  {
    hide LocalStep, StoreWell, VerifyAndUpdate, SetVar, WellFormedName, IsDeleteAuth, CounterAuth, TimeBased,
      VerifiedHasDigest;
    NoStep(p, Unsupported, req.key);
    PlainStep(p, req.key, [], 0);
    PlainStep(p, req.key, req.data, req.attrs);
    if TimeBased(req.attrs) {
      VerifiedStep(c, p, req, ByPriv);
    }
  }

  /** Every route but the platform key's changes only the variable it names, whatever the mode. */
  lemma OtherRoutes(c: Crypto, host: bool, p: Platform, req: Request)
    requires VerifiedHasDigest(c) && StoreWell(p) && WellFormedName(req.key.name) && req.key != PK
    ensures LocalStep(p, Dispatch(c, host, p, req), req.key)
  {
    Routes(req.key);
    if IsSecureBootVariable(req.key) {
      DatabaseStep(c, host, p, req);
      var r := ProcessWithPk(c, host, p, req, false);
      if r.status != Success {
        DatabaseStep(c, host, r.platform, req);
      }
    } else {
      PrivateStep(c, p, req);
    }
    hide LocalStep, ProcessWithPk, ProcessWithKek, ProcessVariable, StoreWell, NamesPk, NamesKek, NamesDb;
  }

  lemma MirrorsSurvive(host: bool, p: Platform, p': Platform, k: Key)
    requires MirrorsAgree(host, p) && p'.setup == p.setup && OnlyAt(k, p.vars, p'.vars) && !IsMirror(k)
    ensures MirrorsAgree(host, p')
  {
    AgreeElsewhere(p.vars, p'.vars, k);
    assert SameAt(p.vars, p'.vars, SECURE_BOOT) && SameAt(p.vars, p'.vars, SETUP_MODE);
    assert SameAt(p.vars, p'.vars, DEPLOYED_MODE);
  }

  lemma PkSurvives(p: Platform, p': Platform, k: Key)
    requires OnlyAt(k, p.vars, p'.vars) && k != PK
    ensures SameAt(p.vars, p'.vars, PK)
  {
    SameElsewhere(p.vars, p'.vars, k, PK);
  }

  /** Setting the mode keeps the databases and settles the invariant for the new mode. */
  lemma ModeSettles(vars: Vars, setup: bool, host: bool)
    requires ValidVars(vars) && DatabasesWell(vars) && MirrorsExist(vars) && (setup <==> PK !in vars)
    ensures var r := UpdateMode(vars, setup, host); r.status == Success && Inv(host, r.platform)
  {
    hide UpdateMode, ValidVars, DatabasesWell;
    ModeFrame(vars, setup, host);
    ModeKeepsDatabases(vars, setup, host);
    DistinctKeys();
    assert SameAt(vars, UpdateMode(vars, setup, host).platform.vars, PK);
  }

  /** The platform key's route: enrolling enters user mode, deleting enters setup mode, and the invariant holds again. */
  lemma PkRoute(c: Crypto, host: bool, p: Platform, req: Request)
    requires VerifiedHasDigest(c) && Inv(host, p) && req.key == PK
    ensures var r := Dispatch(c, host, p, req);
            Inv(host, r.platform) && (r.status != Success ==> r.platform == p)
  {
    DistinctKeys();
    OtherNames();
    Routes(PK);
    if HasDatabaseAttrs(req.attrs) {
      var via := if p.setup then ByPayload else ByPk;
      var r := VerifyAndUpdate(c, p.vars, req, via);
      VerifyAndUpdateFrame(c, p.vars, req, via);
      VerifyAndUpdateForm(c, p.vars, req, via);
      hide VerifyAndUpdate, ValidVars, DatabasesWell, NamesPk, UpdateMode, WellFormedName;
      MirrorsSurvive(host, p, Platform(r.vars, p.setup), PK);
      if r.status == Success && p.setup != r.deleted {
        ModeSettles(r.vars, !p.setup, host);
      }
    }
  }

  /** A request that does not name the platform key changes only the variable it names. */
  lemma OtherStep(c: Crypto, host: bool, p: Platform, req: Request)
    requires VerifiedHasDigest(c) && StoreWell(p) && WellFormedName(req.key.name) && req.key != PK
    ensures LocalStep(p, SetVariable(c, host, p, req), req.key)
  {
    hide LocalStep, StoreWell, Dispatch, SetVar, EvaluateAttrs, IsReadOnly, NameStartsWithZero, WellFormedName;
    OtherRoutes(c, host, p, req);
    NoStep(p, InvalidParameter, req.key);
    NoStep(p, WriteProtected, req.key);
    NoStep(p, EvaluateAttrs(req.attrs), req.key);
    if !IsSecureBootVariable(req.key) {
      PlainStep(p, req.key, req.data, req.attrs);
    }
  }

  lemma InvParts(host: bool, p: Platform)
    requires Inv(host, p)
    ensures StoreWell(p) && MirrorsExist(p.vars)
  {
  }

  /** One request keeps the invariant, and a request that is not answered with success changes nothing at all. */
  lemma StepKeepsInv(c: Crypto, host: bool, p: Platform, req: Request)
    requires VerifiedHasDigest(c) && Inv(host, p) && WellFormedName(req.key.name)
    ensures var r := SetVariable(c, host, p, req);
            Inv(host, r.platform) && (r.status != Success ==> r.platform == p)
  {
    hide Dispatch, SetVar, Inv, EvaluateAttrs, WellFormedName;
    if req.key == PK {
      PkRoute(c, host, p, req);
    } else {
      assert StoreWell(p) by {
        InvParts(host, p);
      }
      OtherStep(c, host, p, req);
      if !IsMirror(req.key) {
        LocalKeepsInv(host, p, SetVariable(c, host, p, req), req.key);
      } else {
        Routes(req.key);
      }
    }
  }

  lemma LocalKeepsInv(host: bool, p: Platform, r: Step, k: Key)
    requires Inv(host, p) && LocalStep(p, r, k) && k != PK && !IsMirror(k)
    ensures Inv(host, r.platform)
  {
    hide ValidVars, DatabasesWell;
    MirrorsSurvive(host, p, r.platform, k);
    PkSurvives(p, r.platform, k);
  }

  // ---- Initialisation

  /** While prepared files are loaded a restored platform key may already be there although the mode is still setup. */
  predicate LoadInv(host: bool, p: Platform) {
    StoreWell(p) && MirrorsAgree(host, p) && (!p.setup ==> PK in p.vars)
  }

  lemma LoadOne(c: Crypto, host: bool, p: Platform, req: Request)
    requires VerifiedHasDigest(c) && LoadInv(host, p) && WellFormedName(req.key.name) && req.key !in p.vars
    ensures LoadInv(host, Dispatch(c, host, p, req).platform)
  {
    var r := Dispatch(c, host, p, req);
    if req.key == PK {
      PkRoute(c, host, p, req);
    } else {
      OtherRoutes(c, host, p, req);
      hide Dispatch, ValidVars, DatabasesWell;
      MirrorsSurvive(host, p, r.platform, req.key);
      PkSurvives(p, r.platform, req.key);
    }
  }

  lemma {:induction false} LoadKeeps(c: Crypto, host: bool, p: Platform, files: seq<Request>)
    requires VerifiedHasDigest(c) && LoadInv(host, p) && forall f <- files :: WellFormedName(f.key.name)
    ensures LoadInv(host, LoadAuthFiles(c, host, p, files).platform)
    decreases files
  {
    hide LoadInv, WellFormedName, Dispatch;
    if files != [] {
      assert files[0] in files;
      if files[0].key !in p.vars {
        LoadOne(c, host, p, files[0]);
        LoadKeeps(c, host, Dispatch(c, host, p, files[0]).platform, files[1..]);
      }
      LoadKeeps(c, host, p, files[1..]);
    }
  }

  /** Setting up the mode on a restored store. */
  lemma InitialMode(vars: Vars, host: bool)
    requires ValidVars(vars) && DatabasesWell(vars) && UpdateMode(vars, true, host).status == Success
    ensures LoadInv(host, UpdateMode(vars, true, host).platform)
  {
    hide UpdateMode, ValidVars, DatabasesWell;
    ModeFrame(vars, true, host);
    ModeKeepsDatabases(vars, true, host);
  }

  /** After loading, a stored platform key puts the platform into user mode. */
  lemma FinalMode(host: bool, p: Platform)
    requires LoadInv(host, p)
    ensures PK in p.vars ==> var r := UpdateMode(p.vars, false, host); r.status == Success && Inv(host, r.platform)
    ensures PK !in p.vars ==> Inv(host, p)
  {
    if PK in p.vars {
      ModeSettles(p.vars, false, host);
    }
  }

  /** A successful initialisation of any valid restored store establishes the invariant. */
  lemma InitialiseEstablishesInv(c: Crypto, host: bool, vars: Vars, files: seq<Request>)
    requires VerifiedHasDigest(c) && ValidVars(vars) && DatabasesWell(vars)
    requires forall f <- files :: WellFormedName(f.key.name)
    ensures var r := Initialise(c, host, vars, files); r.status == Success ==> Inv(host, r.platform)
  {
    OtherNames();
    DistinctKeys();
    hide UpdateMode, LoadAuthFiles, LoadInv, SetVar, ValidVars, DatabasesWell, WellFormedName, Inv;
    var p0 := Platform(vars, true);
    PlainStep(p0, SIGNATURE_SUPPORT, SIGNATURE_SUPPORT_VALUE, BS_RT);
    var r0 := SetVar(vars, SIGNATURE_SUPPORT, SIGNATURE_SUPPORT_VALUE, BS_RT);
    if Initialise(c, host, vars, files).status == Success {
      InitialMode(r0.vars, host);
      var r1 := UpdateMode(r0.vars, true, host);
      LoadKeeps(c, host, r1.platform, files);
      var r2 := LoadAuthFiles(c, host, r1.platform, files);
      FinalMode(host, r2.platform);
      var r3 := if PK in r2.platform.vars then UpdateMode(r2.platform.vars, false, host) else r2;
      AuditKeepsInv(host, r3.platform);
    }
  }

  lemma AuditKeepsInv(host: bool, p: Platform)
    requires Inv(host, p)
    ensures Inv(host, Platform(SetVar(p.vars, AUDIT_MODE, [0], BS_RT).vars, p.setup))
  {
    hide ValidVars, DatabasesWell, SetVar;
    OtherNames();
    DistinctKeys();
    PlainStep(p, AUDIT_MODE, [0], BS_RT);
    var r := SetVar(p.vars, AUDIT_MODE, [0], BS_RT);
    LocalKeepsInv(host, p, Step(r.status, Platform(r.vars, p.setup)), AUDIT_MODE);
  }
}
