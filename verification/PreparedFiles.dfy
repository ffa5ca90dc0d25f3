/** What start-up does with prepared files: each is processed in its turn, and what it stores is there at the end. */
module PreparedFiles {
  import opened Bytes
  import opened Uefi
  import opened SignatureWalks
  import opened Crypto
  import opened VariableMap
  import opened AuthSpec
  import opened AuthProofs
  import opened PlatformSteps
  import opened PlatformRuns
  import opened SignedWrites
  import opened RestoredHistory

  // ---- Turn by turn

  /** A file is passed over when its variable is stored already or it has no data. */
  predicate PassedOver(p: Platform, f: Request) {
    f.key in p.vars || f.data == []
  }

  /** The platform when the turn of file `i` comes. */
  function Turn(c: Crypto, host: bool, p: Platform, files: seq<Request>, i: nat): Platform
    requires i <= |files|
  {
    if i == 0 then p else
      var q := Turn(c, host, p, files, i - 1);
      if PassedOver(q, files[i - 1]) then q else Dispatch(c, host, q, files[i - 1]).platform
  }

  /** File `i` is passed over, or processed with success. */
  predicate TurnSucceeds(c: Crypto, host: bool, p: Platform, files: seq<Request>, i: nat)
    requires i < |files|
  {
    var q := Turn(c, host, p, files, i);
    PassedOver(q, files[i]) || Dispatch(c, host, q, files[i]).status == Success
  }

  lemma {:induction false} LoadFrom(c: Crypto, host: bool, p: Platform, files: seq<Request>, i: nat)
    requires i <= |files| && forall j :: 0 <= j < i ==> TurnSucceeds(c, host, p, files, j)
    ensures LoadAuthFiles(c, host, p, files) == LoadAuthFiles(c, host, Turn(c, host, p, files, i), files[i..])
  {
    hide Dispatch;
    if i == 0 {
      assert files[0..] == files;
    } else {
      LoadFrom(c, host, p, files, i - 1);
      assert TurnSucceeds(c, host, p, files, i - 1);
      assert files[i - 1..][0] == files[i - 1] && files[i - 1..][1..] == files[i..];
    }
  }

  /** Loading succeeds exactly when every file in its turn is passed over or processed with success. */
  lemma LoadIff(c: Crypto, host: bool, p: Platform, files: seq<Request>)
    ensures var r := LoadAuthFiles(c, host, p, files);
            && (r.status == Success <==> forall i :: 0 <= i < |files| ==> TurnSucceeds(c, host, p, files, i))
            && (r.status == Success ==> r.platform == Turn(c, host, p, files, |files|))
  {
    hide Dispatch, Turn;
    if forall i :: 0 <= i < |files| ==> TurnSucceeds(c, host, p, files, i) {
      LoadFrom(c, host, p, files, |files|);
    } else {
      var i := FirstFailure(c, host, p, files, 0);
      LoadFrom(c, host, p, files, i);
      assert files[i..][0] == files[i];
    }
  }

  lemma {:induction false} FirstFailure(c: Crypto, host: bool, p: Platform, files: seq<Request>, low: nat)
    returns (i: nat)
    requires low <= |files| && forall j :: 0 <= j < low ==> TurnSucceeds(c, host, p, files, j)
    requires exists j :: 0 <= j < |files| && !TurnSucceeds(c, host, p, files, j)
    ensures i < |files| && !TurnSucceeds(c, host, p, files, i)
    ensures forall j :: 0 <= j < i ==> TurnSucceeds(c, host, p, files, j)
    decreases |files| - low
  {
    hide TurnSucceeds;
    if low < |files| && TurnSucceeds(c, host, p, files, low) {
      i := FirstFailure(c, host, p, files, low + 1);
    } else {
      i := low;
    }
  }

  // ---- What one file does

  lemma {:induction false} TurnKeeps(c: Crypto, host: bool, p: Platform, files: seq<Request>, i: nat)
    requires VerifiedHasDigest(c) && LoadInv(host, p) && i <= |files| && forall f <- files :: WellFormedName(f.key.name)
    ensures LoadInv(host, Turn(c, host, p, files, i))
  {
    hide LoadInv, WellFormedName, Dispatch, VerifiedHasDigest;
    if i > 0 {
      TurnKeeps(c, host, p, files, i - 1);
      var q := Turn(c, host, p, files, i - 1);
      assert files[i - 1] in files;
      if !PassedOver(q, files[i - 1]) {
        LoadOne(c, host, q, files[i - 1]);
      }
    }
  }

  lemma LoadInvParts(host: bool, p: Platform)
    requires LoadInv(host, p)
    ensures StoreWell(p) && (PK !in p.vars ==> p.setup && Inv(host, p))
  {
  }

  /** Processing a file touches no variable but its own and the mirrors. */
  lemma FileFrame(c: Crypto, host: bool, p: Platform, f: Request, k: Key)
    requires VerifiedHasDigest(c) && LoadInv(host, p) && WellFormedName(f.key.name) && f.key !in p.vars
    requires k != f.key && !IsMirror(k)
    ensures SameAt(p.vars, Dispatch(c, host, p, f).platform.vars, k)
  {
    hide LoadInv, Dispatch, WellFormedName, VerifiedHasDigest, Inv, IsMirror, ValidVars, DatabasesWell;
    LoadInvParts(host, p);
    if f.key == PK {
      PkFrame(c, host, p, f, k);
    } else {
      OtherRoutes(c, host, p, f);
      SameElsewhere(p.vars, Dispatch(c, host, p, f).platform.vars, f.key, k);
    }
  }

  lemma NewContent(vars: Vars, k: Key, payload: bytes, attrs: u32, time: Time)
    requires k !in vars && attrs != 0
    requires var u := Update(vars, k, payload, attrs, time); u.status == Success && k in u.vars
    ensures ContentOf(Update(vars, k, payload, attrs, time).vars[k]) == Content(payload, ClearAppend(attrs), time)
  {
    hide AppendWrite, ClearAppend, IsSignatureDatabase;
  }

  /** How a file that was processed with success was written. */
  lemma FileRoute(c: Crypto, host: bool, p: Platform, f: Request)
    requires VerifiedHasDigest(c) && LoadInv(host, p) && WellFormedName(f.key.name) && TimeBased(f.attrs)
    requires f.key !in p.vars
    requires var r := Dispatch(c, host, p, f); r.status == Success && f.key in r.platform.vars
    ensures PayloadFits(f.data)
    ensures var u := Update(p.vars, f.key, PayloadOf(f.data), f.attrs, TimestampOf(f.data));
            && u.status == Success && f.key in u.vars
            && ContentOf(Dispatch(c, host, p, f).platform.vars[f.key]) == ContentOf(u.vars[f.key])
  {
    hide LoadInv, WellFormedName, VerifiedHasDigest, VerifyAndUpdate, Update, TimeBased, LengthField, DecodeTime,
      FormatStatus, NamesPk, NamesKek, NamesDb, UpdateMode, SetVar, Inv, NonVolatile, ValidVars, DatabasesWell;
    LoadInvParts(host, p);
    Routes(f.key);
    DistinctKeys();
    if f.key == PK {
      KeyFile(c, host, p, f);
    } else if IsSignatureDatabase(f.key) {
      DatabaseStep(c, host, p, f);
      if !p.setup {
        if VerifyAndUpdate(c, p.vars, f, ByPk).status == Success {
          VerifiedContent(c, p.vars, f, ByPk);
        } else {
          VerifiedContent(c, p.vars, f, ByKek);
        }
      }
    } else {
      VerifiedContent(c, p.vars, f, ByPriv);
    }
  }

  lemma KeyFile(c: Crypto, host: bool, p: Platform, f: Request)
    requires Inv(host, p) && p.setup && f.key == PK
    requires var r := Dispatch(c, host, p, f); r.status == Success && PK in r.platform.vars
    ensures PayloadFits(f.data)
    ensures var u := Update(p.vars, PK, PayloadOf(f.data), f.attrs, TimestampOf(f.data));
            && u.status == Success && PK in u.vars
            && ContentOf(Dispatch(c, host, p, f).platform.vars[PK]) == ContentOf(u.vars[PK])
  {
    hide WellFormedName, VerifyAndUpdate, Update, LengthField, DecodeTime, NamesPk, UpdateMode, Inv, ValidVars;
    OtherNames();
    Routes(PK);
    InvStore(host, p);
    if HasDatabaseAttrs(f.attrs) {
      var u := VerifyAndUpdate(c, p.vars, f, ByPayload);
      VerifyAndUpdateFrame(c, p.vars, f, ByPayload);
      ModeKeepsKey(u.vars, false, host);
      if u.status == Success && PK in u.vars {
        VerifiedContent(c, p.vars, f, ByPayload);
      }
    }
  }

  lemma InvStore(host: bool, p: Platform)
    requires Inv(host, p)
    ensures ValidVars(p.vars)
  {
  }

  /** A file processed with success that leaves its variable stored has stored its payload, attributes and timestamp. */
  lemma FileContent(c: Crypto, host: bool, p: Platform, f: Request)
    requires VerifiedHasDigest(c) && LoadInv(host, p) && WellFormedName(f.key.name) && TimeBased(f.attrs)
    requires f.key !in p.vars
    requires var r := Dispatch(c, host, p, f); r.status == Success && f.key in r.platform.vars
    ensures PayloadFits(f.data)
    ensures ContentOf(Dispatch(c, host, p, f).platform.vars[f.key])
            == Content(PayloadOf(f.data), ClearAppend(f.attrs), TimestampOf(f.data))
  {
    hide LoadInv, WellFormedName, VerifiedHasDigest, Dispatch, Update, TimeBased, LengthField, DecodeTime;
    FileRoute(c, host, p, f);
    TimeBasedIsNotZero(f.attrs);
    NewContent(p.vars, f.key, PayloadOf(f.data), f.attrs, TimestampOf(f.data));
  }

  // ---- The whole start

  /** A variable that is stored when some turn comes is the same in every later turn. */
  lemma {:induction false} StaysStored(
      c: Crypto, host: bool, p: Platform, files: seq<Request>, i: nat, j: nat, k: Key)
    requires VerifiedHasDigest(c) && LoadInv(host, p) && forall f <- files :: WellFormedName(f.key.name)
    requires i <= j <= |files| && k in Turn(c, host, p, files, i).vars && !IsMirror(k)
    ensures SameAt(Turn(c, host, p, files, i).vars, Turn(c, host, p, files, j).vars, k)
  {
    hide LoadInv, WellFormedName, VerifiedHasDigest, Dispatch, IsMirror;
    if i < j {
      StaysStored(c, host, p, files, i, j - 1, k);
      TurnKeeps(c, host, p, files, j - 1);
      var q, f := Turn(c, host, p, files, j - 1), files[j - 1];
      assert f in files;
      if !PassedOver(q, f) {
        FileFrame(c, host, q, f, k);
      }
    }
  }

  /** The start-up around the files: it succeeds only if loading does, and keeps what the files stored. */
  lemma StartKeepsLoaded(c: Crypto, host: bool, vars: Vars, files: seq<Request>)
    requires VerifiedHasDigest(c) && ValidVars(vars) && DatabasesWell(vars)
    requires forall f <- files :: WellFormedName(f.key.name)
    requires Initialise(c, host, vars, files).status == Success
    ensures var p, end := BeforeFiles(vars, host), Initialise(c, host, vars, files).platform;
            && LoadInv(host, p) && LoadAuthFiles(c, host, p, files).status == Success
            && forall k :: !IsMirror(k) && k != AUDIT_MODE ==>
                 SameAt(LoadAuthFiles(c, host, p, files).platform.vars, end.vars, k)
  {
    hide SetVar, UpdateMode, LoadAuthFiles, LoadInv, ValidVars, DatabasesWell, WellFormedName, VerifiedHasDigest,
      IsMirror;
    OtherNames();
    PlainStep(Platform(vars, true), SIGNATURE_SUPPORT, SIGNATURE_SUPPORT_VALUE, BS_RT);
    var m0 := SetVar(vars, SIGNATURE_SUPPORT, SIGNATURE_SUPPORT_VALUE, BS_RT).vars;
    InitialMode(m0, host);
    var p := BeforeFiles(vars, host);
    LoadKeeps(c, host, p, files);
    var m := LoadAuthFiles(c, host, p, files).platform.vars;
    LoadInvParts(host, LoadAuthFiles(c, host, p, files).platform);
    ModeFrame(m, false, host);
    var m' := if PK in m then UpdateMode(m, false, host).platform.vars else m;
    SetVarFrame(m', AUDIT_MODE, [0], BS_RT);
    var end := SetVar(m', AUDIT_MODE, [0], BS_RT).vars;
    forall k | !IsMirror(k) && k != AUDIT_MODE
      ensures SameAt(m, end, k)
    {
      assert SameAt(m, m', k);
      SameElsewhere(m', end, AUDIT_MODE, k);
    }
  }

  /**
   Start-up with prepared files: when it succeeds, every file with data whose variable was not stored in its turn was
   processed with success; and if that left its variable stored, the variable has the file's payload, attributes and
   timestamp when start-up is over.
   */
  lemma FilesAreLoaded(c: Crypto, host: bool, vars: Vars, files: seq<Request>, i: nat)
    requires VerifiedHasDigest(c) && ValidVars(vars) && DatabasesWell(vars) && i < |files|
    requires forall f <- files :: WellFormedName(f.key.name)
    requires Initialise(c, host, vars, files).status == Success
    ensures var f, q, end := files[i], Turn(c, host, BeforeFiles(vars, host), files, i),
                             Initialise(c, host, vars, files).platform;
            f.key !in q.vars && f.data != [] ==>
            && Dispatch(c, host, q, f).status == Success
            && (f.key in Dispatch(c, host, q, f).platform.vars && TimeBased(f.attrs)
                && !IsMirror(f.key) && f.key != AUDIT_MODE ==>
                && PayloadFits(f.data) && f.key in end.vars
                && ContentOf(end.vars[f.key]) == Content(PayloadOf(f.data), ClearAppend(f.attrs), TimestampOf(f.data)))
  {
    hide Initialise, BeforeFiles, LoadAuthFiles, LoadInv, ValidVars, DatabasesWell, WellFormedName, VerifiedHasDigest,
      Dispatch, TimeBased, IsMirror, LengthField, DecodeTime;
    var p, f := BeforeFiles(vars, host), files[i];
    StartKeepsLoaded(c, host, vars, files);
    LoadIff(c, host, p, files);
    assert TurnSucceeds(c, host, p, files, i);
    TurnKeeps(c, host, p, files, i);
    var q := Turn(c, host, p, files, i);
    assert f in files;
    if f.key !in q.vars && f.data != [] && f.key in Dispatch(c, host, q, f).platform.vars && TimeBased(f.attrs)
       && !IsMirror(f.key) && f.key != AUDIT_MODE {
      FileContent(c, host, q, f);
      StaysStored(c, host, p, files, i + 1, |files|, f.key);
    }
  }

  /** What start-up writes itself: the supported signature types, and an audit mode of zero. */
  lemma StartWrites(c: Crypto, host: bool, vars: Vars, files: seq<Request>)
    requires VerifiedHasDigest(c) && ValidVars(vars) && DatabasesWell(vars)
    requires forall f <- files :: WellFormedName(f.key.name)
    requires Initialise(c, host, vars, files).status == Success
    ensures var end := Initialise(c, host, vars, files).platform.vars;
            && SIGNATURE_SUPPORT in end && AUDIT_MODE in end
            && end[SIGNATURE_SUPPORT].data == SHA1_GUID + SHA256_GUID + RSA2048_GUID + X509_GUID
            && end[SIGNATURE_SUPPORT].attrs == 6 && end[AUDIT_MODE].data == [0] && end[AUDIT_MODE].attrs == 6
  {
    hide SetVar, UpdateMode, LoadAuthFiles, LoadInv, ValidVars, DatabasesWell, WellFormedName, VerifiedHasDigest;
    OtherNames();
    DistinctKeys();
    AttrsBsRt();
    PlainWritten(vars, SIGNATURE_SUPPORT, SIGNATURE_SUPPORT_VALUE);
    var m0 := SetVar(vars, SIGNATURE_SUPPORT, SIGNATURE_SUPPORT_VALUE, BS_RT).vars;
    SetVarFrame(vars, SIGNATURE_SUPPORT, SIGNATURE_SUPPORT_VALUE, BS_RT);
    ModeFrame(m0, true, host);
    var p := BeforeFiles(vars, host);
    assert SIGNATURE_SUPPORT != AUDIT_MODE && SameAt(m0, p.vars, SIGNATURE_SUPPORT);
    StartKeepsLoaded(c, host, vars, files);
    LoadIff(c, host, p, files);
    StaysStored(c, host, p, files, 0, |files|, SIGNATURE_SUPPORT);
    var m := LoadAuthFiles(c, host, p, files).platform.vars;
    var m' := if PK in m then UpdateMode(m, false, host).platform.vars else m;
    PlainWritten(m', AUDIT_MODE, [0]);
  }

  lemma PlainWritten(vars: Vars, k: Key, data: bytes)
    requires data != []
    ensures var r := SetVar(vars, k, data, BS_RT);
            r.status == Success ==> k in r.vars && r.vars[k].data == data && r.vars[k].attrs == BS_RT
  {
    AttrsBsRt();
    hide AppendWrite, ClearAppend;
  }

  // ---- First starts with one file

  /** The store of a first start before the files: SignatureSupport and the three mirrors, in setup mode. */
  lemma FirstStore(host: bool)
    ensures var p := BeforeFiles(map[], host);
            && p.setup && |p.vars| == 4 && PK !in p.vars && DB !in p.vars && AUDIT_MODE !in p.vars
            && ValidVars(p.vars) && MirrorsExist(p.vars)
  {
    hide SetVar, UpdateMode, ValidVars, WellFormedName, MirrorsAgree;
    DistinctKeys();
    OtherNames();
    EmptyIsWell();
    SetVarFrame(map[], SIGNATURE_SUPPORT, SIGNATURE_SUPPORT_VALUE, BS_RT);
    FirstWrite(map[], SIGNATURE_SUPPORT, SIGNATURE_SUPPORT_VALUE);
    var m := SetVar(map[], SIGNATURE_SUPPORT, SIGNATURE_SUPPORT_VALUE, BS_RT).vars;
    assert m.Keys == {SIGNATURE_SUPPORT};
    FirstModeWrite(m, host);
    ModeFrame(m, true, host);
    AgreeingMirrorsExist(host, UpdateMode(m, true, host).platform);
    assert DB != SIGNATURE_SUPPORT && SameAt(m, UpdateMode(m, true, host).platform.vars, DB);
  }

  lemma AgreeingMirrorsExist(host: bool, p: Platform)
    requires MirrorsAgree(host, p)
    ensures MirrorsExist(p.vars)
  {
  }

  lemma NewUpdate(vars: Vars, k: Key, payload: bytes, attrs: u32, time: Time)
    requires k !in vars && |vars| < MAX_VAR_COUNT && attrs != 0 && |k.name| <= MAX_NAME_SIZE
    requires 0 < |payload| <= MAX_DATA_SIZE
    ensures Update(vars, k, payload, attrs, time)
            == Outcome(Success, vars[k := Create(k, payload, ClearAppend(attrs)).(timestamp := time)])
  {
    hide AppendWrite, ClearAppend, IsSignatureDatabase;
    var v := Create(k, payload, ClearAppend(attrs));
    assert vars[k := v][k := v.(timestamp := time)] == vars[k := v.(timestamp := time)];
  }

  lemma NewVerified(c: Crypto, vars: Vars, f: Request, via: Authority)
    requires VerifiedHasDigest(c) && VerifyStatus(c, vars, f, via) == Success && TimeBased(f.attrs)
    requires f.key !in vars && |vars| < MAX_VAR_COUNT && |f.key.name| <= MAX_NAME_SIZE && |f.data| <= MAX_DATA_SIZE
    requires DescriptorFits(f.data) && PayloadOf(f.data) != []
    ensures var u := VerifyAndUpdate(c, vars, f, via);
            && u.status == Success && !u.deleted && u.vars.Keys == vars.Keys + {f.key}
            && |u.vars| == |vars| + 1
  {
    hide VerifyStatus, Update, LengthField, DecodeTime, TimeBased, AppendWrite, ClearAppend, VerifiedHasDigest,
      Verified;
    AcceptedIsVerified(c, vars, f, via);
    VerifiedDigest(c, vars, f, via);
    TimeBasedIsNotZero(f.attrs);
    NewUpdate(vars, f.key, PayloadOf(f.data), f.attrs, TimestampOf(f.data));
    var u := VerifyAndUpdate(c, vars, f, via);
    assert u.vars.Keys == vars.Keys + {f.key};
    OneKeyMore(vars, u.vars, f.key);
  }

  lemma OneKeyMore(m: Vars, m': Vars, k: Key)
    requires k !in m && m'.Keys == m.Keys + {k}
    ensures |m'| == |m| + 1
  {
    assert |m'.Keys| == |m.Keys| + 1;
  }

  /** Switching the mode on a store that has the mirrors succeeds and keeps the set of stored variables. */
  lemma ModeKeepsKeys(vars: Vars, setup: bool, host: bool)
    requires ValidVars(vars) && MirrorsExist(vars)
    ensures var r := UpdateMode(vars, setup, host);
            && r.status == Success && r.platform.setup == setup && ValidVars(r.platform.vars)
            && r.platform.vars.Keys == vars.Keys && MirrorsExist(r.platform.vars)
  {
    hide UpdateMode, ValidVars, MirrorsAgree;
    ModeFrame(vars, setup, host);
    var p := UpdateMode(vars, setup, host).platform;
    AgreeingMirrorsExist(host, p);
    forall k
      ensures k in vars <==> k in p.vars
    {
      assert !IsMirror(k) ==> SameAt(vars, p.vars, k);
    }
  }

  /** The last write of a start-up succeeds while there is room. */
  lemma AuditWrite(vars: Vars)
    requires AUDIT_MODE !in vars && |vars| < MAX_VAR_COUNT
    ensures SetVar(vars, AUDIT_MODE, [0], BS_RT).status == Success
  {
    FirstWrite(vars, AUDIT_MODE, [0]);
  }

  lemma KeyFileSucceeds(c: Crypto, host: bool, f: Request)
    requires VerifiedHasDigest(c) && f.key == PK && HasDatabaseAttrs(f.attrs) && |f.data| <= MAX_DATA_SIZE
    requires VerifyStatus(c, BeforeFiles(map[], host).vars, f, ByPayload) == Success
    requires DescriptorFits(f.data) && PayloadOf(f.data) != []
    ensures var r := Dispatch(c, host, BeforeFiles(map[], host), f);
            && r.status == Success && PK in r.platform.vars && AUDIT_MODE !in r.platform.vars && |r.platform.vars| == 5
            && ValidVars(r.platform.vars) && MirrorsExist(r.platform.vars)
  {
    hide BeforeFiles, VerifyStatus, VerifyAndUpdate, UpdateMode, ValidVars, WellFormedName, NamesPk, LengthField,
      VerifiedHasDigest, MirrorExists;
    FirstStore(host);
    OtherNames();
    Routes(PK);
    DistinctKeys();
    var vars := BeforeFiles(map[], host).vars;
    NewVerified(c, vars, f, ByPayload);
    VerifyAndUpdateFrame(c, vars, f, ByPayload);
    var u := VerifyAndUpdate(c, vars, f, ByPayload);
    MirrorsStay(vars, u.vars);
    ModeKeepsKeys(u.vars, false, host);
    SameKeysSameSize(u.vars, UpdateMode(u.vars, false, host).platform.vars);
  }

  lemma MirrorsStay(m: Vars, m': Vars)
    requires OnlyAt(PK, m, m') && MirrorsExist(m)
    ensures MirrorsExist(m')
  {
    DistinctKeys();
    SameElsewhere(m, m', PK, SECURE_BOOT);
    SameElsewhere(m, m', PK, SETUP_MODE);
    SameElsewhere(m, m', PK, DEPLOYED_MODE);
  }

  lemma SameKeysSameSize(m: Vars, m': Vars)
    requires m.Keys == m'.Keys
    ensures |m| == |m'|
  {
    assert |m.Keys| == |m'.Keys|;
  }

  /**
   A first start with a platform key file: one that passes the check against its own certificate leaves the platform in
   user mode, with that platform key stored.
   */
  lemma FirstStartWithKey(c: Crypto, host: bool, f: Request)
    requires VerifiedHasDigest(c) && f.key == PK && HasDatabaseAttrs(f.attrs) && |f.data| <= MAX_DATA_SIZE
    requires VerifyStatus(c, BeforeFiles(map[], host).vars, f, ByPayload) == Success
    requires DescriptorFits(f.data) && PayloadOf(f.data) != []
    ensures var r := Initialise(c, host, map[], [f]);
            && r.status == Success && !r.platform.setup && Inv(host, r.platform) && PK in r.platform.vars
            && ContentOf(r.platform.vars[PK]) == Content(PayloadOf(f.data), ClearAppend(f.attrs), TimestampOf(f.data))
  {
    hide VerifyStatus, Dispatch, UpdateMode, ValidVars, DatabasesWell, Inv, WellFormedName, LengthField, DecodeTime,
      VerifiedHasDigest, NonVolatile, MirrorsExist, ClearAppend, TimeBased, SetVar;
    OtherNames();
    DistinctKeys();
    EmptyIsWell();
    SupportWrite(host);
    KeyFileSucceeds(c, host, f);
    var q := Dispatch(c, host, BeforeFiles(map[], host), f).platform;
    OneFile(c, host, BeforeFiles(map[], host), f);
    ModeKeepsKeys(q.vars, false, host);
    var m := UpdateMode(q.vars, false, host).platform.vars;
    SameKeysSameSize(q.vars, m);
    AuditWrite(m);
    InitialiseEstablishesInv(c, host, map[], [f]);
    FilesAreLoaded(c, host, map[], [f], 0);
    UserMode(host, Initialise(c, host, map[], [f]).platform);
  }

  lemma UserMode(host: bool, p: Platform)
    requires Inv(host, p)
    ensures p.setup <==> PK !in p.vars
  {
  }

  /** The writes of a first start before its files succeed. */
  lemma SupportWrite(host: bool)
    ensures var r := SetVar(map[], SIGNATURE_SUPPORT, SIGNATURE_SUPPORT_VALUE, BS_RT);
            r.status == Success && UpdateMode(r.vars, true, host).status == Success
    ensures var p := BeforeFiles(map[], host); p.setup && PK !in p.vars && DB !in p.vars
  {
    hide UpdateMode, ValidVars;
    FirstStore(host);
    FirstWrite(map[], SIGNATURE_SUPPORT, SIGNATURE_SUPPORT_VALUE);
    var m := SetVar(map[], SIGNATURE_SUPPORT, SIGNATURE_SUPPORT_VALUE, BS_RT).vars;
    assert m.Keys == {SIGNATURE_SUPPORT};
    FirstModeWrite(m, host);
  }

  lemma OneFile(c: Crypto, host: bool, p: Platform, f: Request)
    requires f.key !in p.vars && f.data != [] && Dispatch(c, host, p, f).status == Success
    ensures LoadAuthFiles(c, host, p, [f]) == Step(Success, Dispatch(c, host, p, f).platform)
  {
    hide Dispatch;
    assert [f][1..] == [];
  }

  lemma DatabaseFileSucceeds(c: Crypto, host: bool, f: Request)
    requires f.key == DB && HasDatabaseAttrs(f.attrs) && |f.data| <= MAX_DATA_SIZE && PayloadFits(f.data)
    requires PayloadOf(f.data) != [] && FormatStatus(c, DB, PayloadOf(f.data)) == Success
    ensures var r := Dispatch(c, host, BeforeFiles(map[], host), f);
            && r.status == Success && r.platform.setup && DB in r.platform.vars
            && PK !in r.platform.vars && AUDIT_MODE !in r.platform.vars && |r.platform.vars| == 5
  {
    hide BeforeFiles, Update, ValidVars, NoNul, NamesPk, NamesKek, NamesDb, LengthField, DecodeTime, FormatStatus,
      MirrorExists, NonVolatile, TimeBased, ClearAppend;
    FirstStore(host);
    assert WellFormedName(DB_NAME) by {
      DatabaseName();
    }
    Routes(DB);
    DistinctKeys();
    TimeBasedIsNotZero(f.attrs);
    var vars := BeforeFiles(map[], host).vars;
    NewUpdate(vars, DB, PayloadOf(f.data), f.attrs, TimestampOf(f.data));
    var m := Update(vars, DB, PayloadOf(f.data), f.attrs, TimestampOf(f.data)).vars;
    assert m.Keys == vars.Keys + {DB};
    OneKeyMore(vars, m, DB);
  }

  lemma DatabaseName()
    ensures WellFormedName(DB_NAME)
  {
  }

  /** A first start with a db file: one of acceptable format leaves the platform in setup mode, with that db stored. */
  lemma FirstStartWithDatabase(c: Crypto, host: bool, f: Request)
    requires VerifiedHasDigest(c) && f.key == DB && HasDatabaseAttrs(f.attrs) && |f.data| <= MAX_DATA_SIZE
    requires PayloadFits(f.data) && PayloadOf(f.data) != [] && FormatStatus(c, DB, PayloadOf(f.data)) == Success
    ensures var r := Initialise(c, host, map[], [f]);
            && r.status == Success && r.platform.setup && Inv(host, r.platform) && DB in r.platform.vars
            && ContentOf(r.platform.vars[DB]) == Content(PayloadOf(f.data), ClearAppend(f.attrs), TimestampOf(f.data))
  {
    hide Dispatch, UpdateMode, ValidVars, DatabasesWell, Inv, WellFormedName, LengthField, DecodeTime, FormatStatus,
      VerifiedHasDigest, NonVolatile, ClearAppend, TimeBased, SetVar;
    DatabaseName();
    DistinctKeys();
    EmptyIsWell();
    SupportWrite(host);
    DatabaseFileSucceeds(c, host, f);
    OneFile(c, host, BeforeFiles(map[], host), f);
    AuditWrite(Dispatch(c, host, BeforeFiles(map[], host), f).platform.vars);
    InitialiseEstablishesInv(c, host, map[], [f]);
    FilesAreLoaded(c, host, map[], [f], 0);
  }
}
