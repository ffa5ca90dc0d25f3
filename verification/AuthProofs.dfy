/** What one authenticated SetVariable keeps, changes and proves about its sender. */
module AuthProofs {
  import opened Bytes
  import opened Uefi
  import opened SignatureLists
  import opened SignatureWalks
  import opened Crypto
  import opened VariableMap
  import opened AuthSpec

  // ---- Well-formed names are routed by their exact key

  lemma Routes(k: Key)
    requires WellFormedName(k.name)
    ensures NamesPk(k) <==> k == PK
    ensures NamesKek(k) <==> k == KEK
    ensures NamesDb(k) <==> k == DB || k == DBX || k == DBT
    ensures IsReadOnly(k) <==> k == SECURE_BOOT || k == SETUP_MODE || k == AUDIT_MODE
                               || k == DEPLOYED_MODE || k == SIGNATURE_SUPPORT
  {
    UpToNulIdentity(k.name);
  }

  /** A name with a NUL behind it names no secure-boot and no read-only variable, whatever it is without the NUL. */
  lemma TrailingNulIsPlain(k: Key)
    requires WellFormedName(k.name)
    ensures var long := Key(k.name + [0, 0], k.guid); !IsSecureBootVariable(long) && !IsReadOnly(long)
  {
    hide UpToNul;
    var long := k.name + [0, 0];
    assert long[|long| - 2] == 0 && long[|long| - 1] == 0;
    CutAtNul(k.name);
  }

  lemma {:induction false} CutAtNul(name: bytes)
    requires |name| % 2 == 0
    ensures |UpToNul(name + [0, 0])| < |name + [0, 0]|
  {
    if |name| >= 2 {
      assert (name + [0, 0])[2..] == name[2..] + [0, 0];
      CutAtNul(name[2..]);
    }
  }

  predicate IsMirror(k: Key) {
    k == SECURE_BOOT || k == SETUP_MODE || k == DEPLOYED_MODE
  }

  lemma DistinctKeys()
    ensures SECURE_BOOT != SETUP_MODE && SECURE_BOOT != DEPLOYED_MODE && SETUP_MODE != DEPLOYED_MODE
    ensures !IsMirror(PK) && !IsMirror(KEK) && !IsMirror(DB) && !IsMirror(DBX) && !IsMirror(DBT)
    ensures !IsMirror(AUDIT_MODE) && !IsMirror(SIGNATURE_SUPPORT)
    ensures PK != KEK && PK != DB && PK != DBX && PK != DBT && PK != AUDIT_MODE
  {
  }

  lemma MirrorNames()
    ensures WellFormedName(SECURE_BOOT_NAME) && WellFormedName(SETUP_MODE_NAME) && WellFormedName(DEPLOYED_MODE_NAME)
  {
  }

  lemma OtherNames()
    ensures WellFormedName(PK_NAME) && WellFormedName(SIGNATURE_SUPPORT_NAME) && WellFormedName(AUDIT_MODE_NAME)
  {
  }

  // ---- One update

  /** The variables differ at most at `k`. */
  predicate OnlyAt(k: Key, m: Vars, m': Vars) {
    m - {k} == m' - {k}
  }

  lemma UpdateFrame(vars: Vars, k: Key, payload: bytes, attrs: u32, time: Time)
    requires ValidVars(vars) && WellFormedName(k.name)
    ensures var r := Update(vars, k, payload, attrs, time);
            && ValidVars(r.vars) && OnlyAt(k, vars, r.vars)
            && (r.status != Success ==> r.vars == vars)
  {
    hide ValidVars, SetVarWithTimestamp, FilterBytes, WellFormedName, AppendWrite;
    var rest := if k in vars then FilterBytes(vars[k].data, payload) else [];
    SetVarWithTimestampFrame(vars, k, rest, attrs, time);
    SetVarWithTimestampFrame(vars, k, payload, attrs, time);
  }

  /** An update with attributes deletes exactly when it carries no data and is no append. */
  lemma UpdatePresence(vars: Vars, k: Key, payload: bytes, attrs: u32, time: Time)
    requires attrs != 0 && Update(vars, k, payload, attrs, time).status == Success
    ensures k in Update(vars, k, payload, attrs, time).vars <==> !(payload == [] && !AppendWrite(attrs))
  {
    hide FilterBytes;
  }

  lemma TimeBasedIsNotZero(attrs: u32)
    requires TimeBased(attrs)
    ensures attrs != 0
  {
  }

  // ---- Verification

  lemma {:induction false} ReachHasDigest(c: Crypto, sig: bytes, blob: bytes, es: seq<bytes>)
    requires VerifiedHasDigest(c) && Reaches(c, sig, blob, es)
    ensures c.digest(sig).Some?
  {
    if EntryVerifies(c, sig, blob, es[0]) {
      assert c.verify(sig, es[0][16..], blob);
    } else {
      ReachHasDigest(c, sig, blob, es[1..]);
    }
  }

  lemma {:induction false} ListsReachHasDigest(c: Crypto, sig: bytes, blob: bytes, ls: seq<SigList>)
    requires VerifiedHasDigest(c) && ListsReach(c, sig, blob, ls)
    ensures c.digest(sig).Some?
  {
    if ls[0].sigType == X509_GUID && Reaches(c, sig, blob, ls[0].entries) {
      ReachHasDigest(c, sig, blob, ls[0].entries);
    } else {
      ListsReachHasDigest(c, sig, blob, ls[1..]);
    }
  }

  lemma VerifiedDigest(c: Crypto, vars: Vars, req: Request, via: Authority)
    requires VerifiedHasDigest(c) && DescriptorFits(req.data) && Verified(c, vars, req, via)
    ensures c.digest(SignedDataOf(req.data)).Some?
  {
    if via == ByKek {
      ListsReachHasDigest(c, SignedDataOf(req.data), SignedBlob(req), Parse(vars[KEK].data));
    }
  }

  lemma StaysPresent(vars: Vars, req: Request)
    requires DescriptorFits(req.data) && req.attrs != 0 && !IsDeletion(vars, req)
    requires Update(vars, req.key, PayloadOf(req.data), req.attrs, TimestampOf(req.data)).status == Success
    ensures !(PayloadOf(req.data) == [] && !AppendWrite(req.attrs))
  {
    hide FilterBytes, DescriptorFits;
  }

  lemma AcceptedIsVerified(c: Crypto, vars: Vars, req: Request, via: Authority)
    requires VerifyStatus(c, vars, req, via) == Success
    ensures DescriptorFits(req.data) && Verified(c, vars, req, via)
  {
    hide FormatStatus, Verified, IsPkcs7, LengthField, DecodeTime;
  }

  /** A verified update touches one key, keeps the store valid, and is all or nothing. */
  lemma VerifyAndUpdateFrame(c: Crypto, vars: Vars, req: Request, via: Authority)
    requires ValidVars(vars) && WellFormedName(req.key.name) && TimeBased(req.attrs)
    ensures var r := VerifyAndUpdate(c, vars, req, via);
            && ValidVars(r.vars) && OnlyAt(req.key, vars, r.vars)
            && (VerifiedHasDigest(c) && r.status != Success ==> r.vars == vars)
            && (r.status == Success ==> (req.key in r.vars <==> !r.deleted))
  {
    hide VerifyStatus, Update, ValidVars, LengthField, DecodeTime, AppendWrite, TimeBased, WellFormedName, Verified;
    if VerifyStatus(c, vars, req, via) == Success {
      AcceptedIsVerified(c, vars, req, via);
      var payload, time := PayloadOf(req.data), TimestampOf(req.data);
      var u := Update(vars, req.key, payload, req.attrs, time);
      UpdateFrame(vars, req.key, payload, req.attrs, time);
      TimeBasedIsNotZero(req.attrs);
      if u.status == Success {
        UpdatePresence(vars, req.key, payload, req.attrs, time);
        if !IsDeletion(vars, req) {
          StaysPresent(vars, req);
        }
      }
      if VerifiedHasDigest(c) {
        VerifiedDigest(c, vars, req, via);
      }
      SignerFrame(c, u, req.key, SignedDataOf(req.data));
    }
  }

  lemma SignerFrame(c: Crypto, u: Outcome, k: Key, sig: bytes)
    requires ValidVars(u.vars)
    ensures var r := RecordSigner(c, u, k, sig);
            && ValidVars(r.vars) && OnlyAt(k, u.vars, r.vars) && !r.deleted
            && (k in r.vars <==> k in u.vars)
            && (k in u.vars && c.digest(sig).Some? ==> r.status == Success)
  {
    if k in u.vars && c.digest(sig).Some? {
      var v := u.vars[k].(cert := c.digest(sig).value);
      assert StoredWell(k, v);
      PutFrame(u.vars, k, v);
    }
  }

  // ---- The platform mode and its mirrors

  /** A one-byte mirror variable with the attributes the service gives it. */
  predicate MirrorIs(vars: Vars, k: Key, b: byte) {
    k in vars && vars[k].attrs == BS_RT && vars[k].data == [b]
  }

  predicate MirrorExists(vars: Vars, k: Key) {
    k in vars && vars[k].attrs == BS_RT
  }

  predicate MirrorsExist(vars: Vars) {
    MirrorExists(vars, SECURE_BOOT) && MirrorExists(vars, SETUP_MODE) && MirrorExists(vars, DEPLOYED_MODE)
  }

  /** The mirrors say what the mode is: SecureBoot is the host's flag in user mode and 0 in setup mode. */
  predicate MirrorsAgree(host: bool, p: Platform) {
    && MirrorIs(p.vars, SECURE_BOOT, SecureBootByte(host, p.setup))
    && MirrorIs(p.vars, SETUP_MODE, ModeByte(p.setup))
    && MirrorIs(p.vars, DEPLOYED_MODE, ModeByte(p.setup))
  }

  lemma AttrsBsRt()
    ensures !AppendWrite(BS_RT) && ClearAppend(BS_RT) == BS_RT
  {
  }

  predicate SameAt(m: Vars, m': Vars, k: Key) {
    (k in m <==> k in m') && (k in m ==> m[k] == m'[k])
  }

  lemma AgreeElsewhere(m: Vars, m': Vars, k: Key)
    requires OnlyAt(k, m, m')
    ensures forall other :: other != k ==> SameAt(m, m', other)
  {
    forall other | other != k
      ensures SameAt(m, m', other)
    {
      SameElsewhere(m, m', k, other);
    }
  }

  /** The variables differ at most at the mirrors. */
  ghost predicate OnlyMirrors(m: Vars, m': Vars) {
    forall k :: !IsMirror(k) ==> SameAt(m, m', k)
  }

  /** Writing one mirror: a success leaves it as asked; it cannot fail on a mirror that exists. */
  lemma WriteMirror(vars: Vars, k: Key, b: byte)
    requires ValidVars(vars) && WellFormedName(k.name) && IsMirror(k)
    ensures var r := SetVar(vars, k, [b], BS_RT);
            && ValidVars(r.vars) && (forall other :: other != k ==> SameAt(vars, r.vars, other))
            && OnlyMirrors(vars, r.vars)
            && (r.status == Success ==> MirrorIs(r.vars, k, b))
            && (MirrorExists(vars, k) ==> r.status == Success)
  {
    hide ValidVars, WellFormedName, ClearAppend, AppendWrite, SameAt;
    AttrsBsRt();
    SetVarFrame(vars, k, [b], BS_RT);
    AgreeElsewhere(vars, SetVar(vars, k, [b], BS_RT).vars, k);
  }

  lemma OnlyMirrorsTransitive(m1: Vars, m2: Vars, m3: Vars)
    requires OnlyMirrors(m1, m2) && OnlyMirrors(m2, m3)
    ensures OnlyMirrors(m1, m3)
  {
    forall k | !IsMirror(k)
      ensures SameAt(m1, m3, k)
    {
      assert SameAt(m1, m2, k) && SameAt(m2, m3, k);
    }
  }

  /** Setting the mode touches only the mirrors, makes them agree, and succeeds whenever the mirrors exist. */
  lemma ModeFrame(vars: Vars, setup: bool, host: bool)
    requires ValidVars(vars)
    ensures var r := UpdateMode(vars, setup, host);
            && ValidVars(r.platform.vars) && r.platform.setup == setup && OnlyMirrors(vars, r.platform.vars)
            && (r.status == Success ==> MirrorsAgree(host, r.platform))
            && (MirrorsExist(vars) ==> r.status == Success)
  {
    DistinctKeys();
    MirrorNames();
    var r1 := SetVar(vars, SECURE_BOOT, [SecureBootByte(host, setup)], BS_RT);
    var r2 := SetVar(r1.vars, SETUP_MODE, [ModeByte(setup)], BS_RT);
    var r3 := SetVar(r2.vars, DEPLOYED_MODE, [ModeByte(setup)], BS_RT);
    hide ValidVars, SetVar, WellFormedName, OnlyMirrors;
    WriteMirror(vars, SECURE_BOOT, SecureBootByte(host, setup));
    WriteMirror(r1.vars, SETUP_MODE, ModeByte(setup));
    WriteMirror(r2.vars, DEPLOYED_MODE, ModeByte(setup));
    OnlyMirrorsTransitive(vars, r1.vars, r2.vars);
    OnlyMirrorsTransitive(vars, r2.vars, r3.vars);
    assert SameAt(vars, r1.vars, SETUP_MODE) && SameAt(vars, r1.vars, DEPLOYED_MODE);
    assert SameAt(r1.vars, r2.vars, SECURE_BOOT) && SameAt(r1.vars, r2.vars, DEPLOYED_MODE);
    assert SameAt(r2.vars, r3.vars, SECURE_BOOT) && SameAt(r2.vars, r3.vars, SETUP_MODE);
  }

  // ---- Stored signature databases stay well formed

  predicate DatabasesWell(vars: Vars) {
    forall k :: k in vars && IsSecureBootVariable(k) ==> WellFormedLists(vars[k].data)
  }

  lemma WrittenData(vars: Vars, k: Key, data: bytes, attrs: u32, time: Time)
    ensures var r := SetVarWithTimestamp(vars, k, data, attrs, time).vars;
            k in r ==> r[k].data == data
                       || (k in vars && (r[k].data == vars[k].data || r[k].data == vars[k].data + data))
  {
  }

  lemma UpdateKeepsForm(vars: Vars, k: Key, payload: bytes, attrs: u32, time: Time)
    requires k in vars ==> WellFormedLists(vars[k].data)
    requires WellFormedLists(payload)
    ensures var r := Update(vars, k, payload, attrs, time).vars;
            k in r ==> WellFormedLists(r[k].data)
  {
    var rest := if k in vars then FilterBytes(vars[k].data, payload) else [];
    if k in vars {
      WellFormedFilter(vars[k].data, payload);
      WellFormedConcat(vars[k].data, rest);
      WellFormedConcat(vars[k].data, payload);
    }
    WrittenData(vars, k, rest, attrs, time);
    WrittenData(vars, k, payload, attrs, time);
    hide WellFormedLists, SetVarWithTimestamp, FilterBytes;
  }

  lemma AcceptedForm(c: Crypto, k: Key, payload: bytes)
    requires WellFormedName(k.name) && IsSecureBootVariable(k) && FormatStatus(c, k, payload) == Success
    ensures WellFormedLists(payload)
  {
    Routes(k);
    hide UpToNul, HeadsHaveKeys;
  }

  lemma KeepForm(vars: Vars, vars': Vars, k: Key)
    requires DatabasesWell(vars) && OnlyAt(k, vars, vars')
    requires k in vars' && IsSecureBootVariable(k) ==> WellFormedLists(vars'[k].data)
    ensures DatabasesWell(vars')
  {
    hide WellFormedLists;
    AgreeElsewhere(vars, vars', k);
    forall other | other in vars' && IsSecureBootVariable(other)
      ensures WellFormedLists(vars'[other].data)
    {
      assert other != k ==> SameAt(vars, vars', other);
    }
  }

  /** Setting the mode keeps the databases well formed. */
  lemma ModeKeepsDatabases(vars: Vars, setup: bool, host: bool)
    requires ValidVars(vars) && DatabasesWell(vars)
    ensures DatabasesWell(UpdateMode(vars, setup, host).platform.vars)
  {
    hide UpdateMode, ValidVars, WellFormedLists;
    DistinctKeys();
    ModeFrame(vars, setup, host);
    var after := UpdateMode(vars, setup, host).platform.vars;
    forall k | k in after && IsSecureBootVariable(k)
      ensures WellFormedLists(after[k].data)
    {
      assert SameAt(vars, after, k);
    }
  }

  lemma VerifiedFormat(c: Crypto, vars: Vars, req: Request, via: Authority)
    requires VerifyStatus(c, vars, req, via) == Success
    ensures DescriptorFits(req.data) && FormatStatus(c, req.key, PayloadOf(req.data)) == Success
  {
    hide FormatStatus, Verified, IsPkcs7, Fresher, PadsAreZero;
  }

  lemma VerifyAndUpdateForm(c: Crypto, vars: Vars, req: Request, via: Authority)
    requires ValidVars(vars) && DatabasesWell(vars) && WellFormedName(req.key.name) && TimeBased(req.attrs)
    ensures DatabasesWell(VerifyAndUpdate(c, vars, req, via).vars)
  {
    hide WellFormedLists, ValidVars, Update, VerifyStatus, IsSecureBootVariable, FormatStatus, AppendWrite,
      LengthField, TimeBased, WellFormedName;
    VerifyAndUpdateFrame(c, vars, req, via);
    var k := req.key;
    if VerifyStatus(c, vars, req, via) == Success && DescriptorFits(req.data) && IsSecureBootVariable(k) {
      VerifiedFormat(c, vars, req, via);
      AcceptedForm(c, k, PayloadOf(req.data));
      UpdateKeepsForm(vars, k, PayloadOf(req.data), req.attrs, TimestampOf(req.data));
    }
    KeepForm(vars, VerifyAndUpdate(c, vars, req, via).vars, k);
  }

  lemma UnverifiedFrame(c: Crypto, vars: Vars, req: Request)
    requires ValidVars(vars) && DatabasesWell(vars) && WellFormedName(req.key.name)
    requires IsSecureBootVariable(req.key)
    ensures var r := UpdateUnverified(c, vars, req);
            && ValidVars(r.vars) && OnlyAt(req.key, vars, r.vars) && DatabasesWell(r.vars)
            && (r.status != Success ==> r.vars == vars)
  {
    if PayloadFits(req.data) {
      var k, payload, time := req.key, PayloadOf(req.data), TimestampOf(req.data);
      UpdateFrame(vars, k, payload, req.attrs, time);
      if FormatStatus(c, k, payload) == Success {
        AcceptedForm(c, k, payload);
        UpdateKeepsForm(vars, k, payload, req.attrs, time);
      }
      hide WellFormedLists, ValidVars, Update, FormatStatus;
      KeepForm(vars, UpdateUnverified(c, vars, req).vars, k);
    }
  }
}
