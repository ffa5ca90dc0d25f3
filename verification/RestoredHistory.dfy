/** What a save and restore forgets: timestamps and recorded signers. */
module RestoredHistory {
  import opened Bytes
  import opened Uefi
  import opened Crypto
  import opened VariableMap
  import opened Storage
  import opened Persistence
  import opened SignatureWalks
  import opened AuthSpec
  import opened AuthProofs
  import opened PlatformSteps

  /** The store of a guest that starts from what was saved of a table. */
  ghost function RestoredVars(s: seq<Variable>): Vars {
    RestoreAll(map[], Saved(s, 0)).vars
  }

  /** A restored variable has the data and attributes it was saved with, no timestamp and no signer. */
  lemma RestoredIsCopy(s: seq<Variable>, k: Key)
    requires TableWell(s) && |s| == MAX_VAR_COUNT && k in RestoredVars(s)
    ensures k in AsMap(s) && RestoredVars(s)[k] == Copied(AsMap(s)[k])
    ensures var v, w := AsMap(s)[k], RestoredVars(s)[k];
            && w.name == v.name && w.guid == v.guid && w.data == v.data && w.attrs == v.attrs
            && w.timestamp == ZERO_TIME && w.cert == ZERO_DIGEST
  {
    hide RestoreAll, Saved, TableWell, NonVolatile;
    var last := |s| - 1;
    RestoreIsPrefix(s);
    if s[last] != FREE {
      NewKey(s, last);
    }
  }

  /**
   The timestamp rule after a restore: the descriptor that wrote a variable is too old for it before, and fresh again
   afterwards exactly when its timestamp is not zero.
   */
  lemma RestoredIsFresh(s: seq<Variable>, req: Request)
    requires TableWell(s) && |s| == MAX_VAR_COUNT && req.key in RestoredVars(s)
    requires DescriptorFits(req.data) && !AppendWrite(req.attrs)
    requires req.key in AsMap(s) ==> TimestampOf(req.data) == AsMap(s)[req.key].timestamp
    ensures !Fresher(AsMap(s), req)
    ensures Fresher(RestoredVars(s), req) <==> Rank(TimestampOf(req.data)) > 0
  {
    hide TableWell, AsMap, RestoredVars, DecodeTime, LengthField, AppendWrite, NotLater, Rank;
    RestoredIsCopy(s, req.key);
    var t := TimestampOf(req.data);
    NotLaterIsRankOrder(t, t);
    NotLaterIsRankOrder(t, ZERO_TIME);
    ZeroRank();
  }

  lemma ZeroRank()
    ensures Rank(ZERO_TIME) == 0
  {
  }

  /** The recorded signer after a restore: signed data of that signer still verifies exactly when its digest is zero. */
  lemma RestoredSignerIff(c: Crypto, s: seq<Variable>, k: Key, sig: bytes, blob: bytes)
    requires TableWell(s) && |s| == MAX_VAR_COUNT && k in RestoredVars(s)
    requires VerifiedBySigner(c, AsMap(s), k, sig, blob)
    ensures k in AsMap(s)
    ensures VerifiedBySigner(c, RestoredVars(s), k, sig, blob) <==> AsMap(s)[k].cert == ZERO_DIGEST
  {
    hide TableWell, AsMap, RestoredVars;
    RestoredIsCopy(s, k);
  }

  // ---- The platform mode after a restart

  /** A variable is restored exactly when it is non-volatile and does not lie in the last slot. */
  lemma RestoredIff(s: seq<Variable>, k: Key)
    requires TableWell(s) && |s| == MAX_VAR_COUNT
    ensures k in RestoredVars(s) <==>
            k in AsMap(s) && NonVolatile(AsMap(s)[k].attrs) && !Holds(s, k, MAX_VAR_COUNT - 1)
  {
    hide RestoreAll, Saved, TableWell, NonVolatile;
    var last := |s| - 1;
    RestoreIsPrefix(s);
    if s[last] != FREE {
      NewKey(s, last);
    }
  }

  lemma RestoredWell(s: seq<Variable>)
    requires TableWell(s) && |s| == MAX_VAR_COUNT && DatabasesWell(AsMap(s))
    ensures ValidVars(RestoredVars(s)) && DatabasesWell(RestoredVars(s))
  {
    hide TableWell, AsMap, RestoredVars, NonVolatile, WellFormedLists, WellFormedName, AppendWrite;
    var m := RestoredVars(s);
    MapIsValid(s);
    RestoredIsSmall(s);
    forall k | k in m
      ensures StoredWell(k, m[k]) && (IsSecureBootVariable(k) ==> WellFormedLists(m[k].data))
    {
      RestoredIsCopy(s, k);
      assert StoredWell(k, AsMap(s)[k]);
    }
  }

  lemma RestoredIsSmall(s: seq<Variable>)
    requires TableWell(s) && |s| == MAX_VAR_COUNT
    ensures |RestoredVars(s)| <= MAX_VAR_COUNT
  {
    hide RestoreAll, Saved, TableWell, AsMap, NonVolatilePart;
    RestoreIsPrefix(s);
    PrefixWell(s, |s| - 1);
    PartIsSmall(s[..|s| - 1]);
  }

  /** A start without prepared files keeps the platform key. */
  lemma StartKeepsKey(c: Crypto, host: bool, vars: Vars)
    requires ValidVars(vars)
    ensures SameAt(vars, Initialise(c, host, vars, []).platform.vars, PK)
  {
    hide ValidVars, SetVar, UpdateMode, WellFormedName, OnlyMirrors;
    DistinctKeys();
    OtherNames();
    KeepsKey(vars, SIGNATURE_SUPPORT, SIGNATURE_SUPPORT_VALUE);
    var m0 := SetVar(vars, SIGNATURE_SUPPORT, SIGNATURE_SUPPORT_VALUE, BS_RT).vars;
    ModeKeepsKey(m0, true, host);
    var m1 := UpdateMode(m0, true, host).platform.vars;
    ModeKeepsKey(m1, false, host);
    var m2 := UpdateMode(m1, false, host).platform.vars;
    KeepsKey(m1, AUDIT_MODE, [0]);
    KeepsKey(m2, AUDIT_MODE, [0]);
  }

  lemma KeepsKey(vars: Vars, k: Key, data: bytes)
    requires ValidVars(vars) && WellFormedName(k.name) && k != PK
    ensures var m := SetVar(vars, k, data, BS_RT).vars; ValidVars(m) && SameAt(vars, m, PK)
  {
    hide ValidVars, SetVar, WellFormedName;
    SetVarFrame(vars, k, data, BS_RT);
    SameElsewhere(vars, SetVar(vars, k, data, BS_RT).vars, k, PK);
  }

  lemma ModeKeepsKey(vars: Vars, setup: bool, host: bool)
    requires ValidVars(vars)
    ensures var m := UpdateMode(vars, setup, host).platform.vars; ValidVars(m) && SameAt(vars, m, PK)
  {
    hide ValidVars, UpdateMode;
    DistinctKeys();
    ModeFrame(vars, setup, host);
    assert SameAt(vars, UpdateMode(vars, setup, host).platform.vars, PK);
  }

  /**
   The mode after a restart without prepared files: user mode exactly when a non-volatile platform key was stored and
   did not lie in the last slot.
   */
  lemma ModeAfterRestart(c: Crypto, host: bool, s: seq<Variable>)
    requires VerifiedHasDigest(c) && TableWell(s) && |s| == MAX_VAR_COUNT && DatabasesWell(AsMap(s))
    ensures var r := Initialise(c, host, RestoredVars(s), []);
            r.status == Success ==>
            && Inv(host, r.platform)
            && (r.platform.setup <==>
                !(PK in AsMap(s) && NonVolatile(AsMap(s)[PK].attrs) && !Holds(s, PK, MAX_VAR_COUNT - 1)))
  {
    hide TableWell, AsMap, RestoredVars, NonVolatile, Initialise, ValidVars, DatabasesWell, MirrorsAgree, Holds;
    RestoredWell(s);
    InitialiseEstablishesInv(c, host, RestoredVars(s), []);
    StartKeepsKey(c, host, RestoredVars(s));
    RestoredIff(s, PK);
  }

  /** A first start on an empty store succeeds, and leaves the platform in setup mode. */
  lemma FirstStart(c: Crypto, host: bool)
    requires VerifiedHasDigest(c)
    ensures var r := Initialise(c, host, map[], []); r.status == Success && r.platform.setup && Inv(host, r.platform)
  {
    hide SetVar, UpdateMode, ValidVars, DatabasesWell, Inv, WellFormedName, MirrorsExist;
    DistinctKeys();
    OtherNames();
    AttrsBsRt();
    var m0 := map[SIGNATURE_SUPPORT := Create(SIGNATURE_SUPPORT, SIGNATURE_SUPPORT_VALUE, BS_RT)];
    FirstWrite(map[], SIGNATURE_SUPPORT, SIGNATURE_SUPPORT_VALUE);
    FirstModeWrite(m0, host);
    var m1 := UpdateMode(m0, true, host).platform.vars;
    FirstWrite(m1, AUDIT_MODE, [0]);
    assert ValidVars(map[]) && DatabasesWell(map[]) by {
      EmptyIsWell();
    }
    InitialiseEstablishesInv(c, host, map[], []);
  }

  lemma EmptyIsWell()
    ensures ValidVars(map[]) && DatabasesWell(map[])
  {
  }

  lemma FirstWrite(vars: Vars, k: Key, data: bytes)
    requires k !in vars && |vars| < MAX_VAR_COUNT && 0 < |data| <= MAX_DATA_SIZE && |k.name| <= MAX_NAME_SIZE
    ensures SetVar(vars, k, data, BS_RT) == Outcome(Success, vars[k := Create(k, data, BS_RT)])
  {
    AttrsBsRt();
    hide AppendWrite, ClearAppend;
  }

  lemma FirstModeWrite(vars: Vars, host: bool)
    requires vars.Keys == {SIGNATURE_SUPPORT}
    ensures var r := UpdateMode(vars, true, host);
            && r.status == Success && r.platform.setup && PK !in r.platform.vars && AUDIT_MODE !in r.platform.vars
            && |r.platform.vars| == 4
  {
    hide SetVar;
    DistinctKeys();
    var m1 := vars[SECURE_BOOT := Create(SECURE_BOOT, [SecureBootByte(host, true)], BS_RT)];
    var m2 := m1[SETUP_MODE := Create(SETUP_MODE, [ModeByte(true)], BS_RT)];
    assert |vars| == |vars.Keys| == 1;
    FirstWrite(vars, SECURE_BOOT, [SecureBootByte(host, true)]);
    assert m1.Keys == {SIGNATURE_SUPPORT, SECURE_BOOT};
    FirstWrite(m1, SETUP_MODE, [ModeByte(true)]);
    assert m2.Keys == {SIGNATURE_SUPPORT, SECURE_BOOT, SETUP_MODE};
    FirstWrite(m2, DEPLOYED_MODE, [ModeByte(true)]);
    var m3 := m2[DEPLOYED_MODE := Create(DEPLOYED_MODE, [ModeByte(true)], BS_RT)];
    assert m3.Keys == {SIGNATURE_SUPPORT, SECURE_BOOT, SETUP_MODE, DEPLOYED_MODE};
    assert AUDIT_MODE != SIGNATURE_SUPPORT && PK != SIGNATURE_SUPPORT;
  }
}
