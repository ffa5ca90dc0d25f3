/** The life of one variable over a run: its signer never changes, accepted timestamps only grow, appends settle. */
module VariableHistory {
  import opened Bytes
  import opened Uefi
  import opened SignatureLists
  import opened SignatureWalks
  import opened Crypto
  import opened VariableMap
  import opened AuthSpec
  import opened AuthProofs
  import opened PlatformSteps
  import opened PlatformRuns
  import opened Verdicts

  // ---- The recorded signer of a private variable

  predicate IsPrivate(k: Key) {
    !IsSecureBootVariable(k) && !IsMirror(k)
  }

  /** Writes never change the attributes or the signer digest of an existing variable. */
  lemma WriteKeepsOwner(vars: Vars, k: Key, data: bytes, attrs: u32, time: Time)
    requires k in vars
    ensures var r := SetVar(vars, k, data, attrs).vars;
            k in r ==> r[k].cert == vars[k].cert && r[k].attrs == vars[k].attrs
    ensures var r := SetVarWithTimestamp(vars, k, data, attrs, time).vars;
            k in r ==> r[k].cert == vars[k].cert && r[k].attrs == vars[k].attrs
  {
    hide AppendWrite, ClearAppend;
  }

  lemma UpdateKeepsOwner(vars: Vars, k: Key, payload: bytes, attrs: u32, time: Time)
    requires k in vars
    ensures var r := Update(vars, k, payload, attrs, time).vars;
            k in r ==> r[k].cert == vars[k].cert && r[k].attrs == vars[k].attrs
  {
    WriteKeepsOwner(vars, k, payload, attrs, time);
    WriteKeepsOwner(vars, k, FilterBytes(vars[k].data, payload), attrs, time);
    hide SetVarWithTimestamp, FilterBytes, AppendWrite;
  }

  lemma SignedByOwner(c: Crypto, vars: Vars, req: Request)
    requires VerifyStatus(c, vars, req, ByPriv) == Success && req.key in vars
    ensures DescriptorFits(req.data) && c.digest(SignedDataOf(req.data)) == Some(vars[req.key].cert)
  {
    hide FormatStatus, IsPkcs7, LengthField, DecodeTime, Fresher, PadsAreZero;
  }

  lemma SignedWriteKeepsOwner(c: Crypto, vars: Vars, req: Request)
    requires req.key in vars
    ensures var r := VerifyAndUpdate(c, vars, req, ByPriv).vars;
            req.key in r ==> r[req.key].cert == vars[req.key].cert && r[req.key].attrs == vars[req.key].attrs
  {
    hide Update, VerifyStatus, AppendWrite, LengthField, DecodeTime, VerifiedBySigner;
    if VerifyStatus(c, vars, req, ByPriv) == Success {
      SignedByOwner(c, vars, req);
      UpdateKeepsOwner(vars, req.key, PayloadOf(req.data), req.attrs, TimestampOf(req.data));
    }
  }

  function PlainWrite(p: Platform, req: Request): Step {
    var r := SetVar(p.vars, req.key, req.data, req.attrs);
    Step(r.status, Platform(r.vars, p.setup))
  }

  /** A request for a private variable is refused, takes the private route when authenticated, or is a plain write. */
  lemma PrivateRoute(c: Crypto, host: bool, p: Platform, req: Request)
    requires WellFormedName(req.key.name) && IsPrivate(req.key)
    ensures var r := SetVariable(c, host, p, req);
            || (r.platform == p && r.status != Success)
            || r == (if TimeBased(req.attrs) then ProcessVariable(c, p, req) else PlainWrite(p, req))
  {
    Routes(req.key);
    hide ProcessVariable, SetVar, WellFormedName, UpToNul;
  }

  lemma OwnStepKeepsOwner(c: Crypto, host: bool, p: Platform, req: Request)
    requires WellFormedName(req.key.name) && IsPrivate(req.key) && req.key in p.vars
    ensures var r := SetVariable(c, host, p, req).platform.vars;
            req.key in r ==> r[req.key].cert == p.vars[req.key].cert && r[req.key].attrs == p.vars[req.key].attrs
  {
    hide SetVariable, WellFormedName, IsPrivate;
    hide SetVar, VerifyAndUpdate, IsDeleteAuth;
    PrivateRoute(c, host, p, req);
    WriteKeepsOwner(p.vars, req.key, [], 0, ZERO_TIME);
    WriteKeepsOwner(p.vars, req.key, req.data, req.attrs, ZERO_TIME);
    SignedWriteKeepsOwner(c, p.vars, req);
  }

  lemma StepKeepsOwner(c: Crypto, host: bool, p: Platform, req: Request, k: Key)
    requires VerifiedHasDigest(c) && Inv(host, p) && WellFormedName(req.key.name) && IsPrivate(k) && k in p.vars
    ensures var r := SetVariable(c, host, p, req).platform.vars;
            k in r ==> r[k].cert == p.vars[k].cert && r[k].attrs == p.vars[k].attrs
  {
    hide SetVariable, Inv, WellFormedName;
    if req.key != k {
      StepFrame(c, host, p, req, k);
    } else {
      OwnStepKeepsOwner(c, host, p, req);
    }
  }

  /** The variable is stored throughout requests `i` to `j` of a run. */
  predicate LivesThrough(c: Crypto, host: bool, p: Platform, reqs: seq<Request>, k: Key, i: nat, j: nat)
    requires i <= j <= |reqs|
  {
    forall t :: i <= t <= j ==> k in After(c, host, p, reqs, t).vars
  }

  /**
   Between creation and deletion of a private variable its recorded signer digest and its attributes never change,
   whatever authenticated and plain writes a run mixes.
   */
  lemma {:induction false} OwnerNeverChanges(
      c: Crypto, host: bool, p: Platform, reqs: seq<Request>, k: Key, i: nat, j: nat)
    requires VerifiedHasDigest(c) && Inv(host, p) && WellNamed(reqs) && IsPrivate(k)
    requires i <= j <= |reqs| && LivesThrough(c, host, p, reqs, k, i, j)
    ensures var before, now := After(c, host, p, reqs, i).vars, After(c, host, p, reqs, j).vars;
            now[k].cert == before[k].cert && now[k].attrs == before[k].attrs
  {
    hide Inv, SetVariable, After, WellFormedName;
    if i < j {
      OwnerNeverChanges(c, host, p, reqs, k, i, j - 1);
      RunKeepsInv(c, host, p, reqs, j - 1);
      OneMore(c, host, p, reqs, j - 1);
      assert reqs[j - 1] in reqs;
      StepKeepsOwner(c, host, After(c, host, p, reqs, j - 1), reqs[j - 1], k);
    }
  }

  /**
   An authenticated private variable comes into being by signed data that the library verifies under its own top
   certificate over the bytes of the request, and with the digest of that signer.
   */
  lemma CreatedBySigner(c: Crypto, host: bool, p: Platform, req: Request)
    requires WellFormedName(req.key.name) && IsPrivate(req.key) && TimeBased(req.attrs)
    requires req.key !in p.vars && req.key in SetVariable(c, host, p, req).platform.vars
    ensures DescriptorFits(req.data)
    ensures var sig := SignedDataOf(req.data);
            && c.topCert(sig).Some? && c.verify(sig, c.topCert(sig).value, SignedBlob(req))
            && c.digest(sig) == Some(SetVariable(c, host, p, req).platform.vars[req.key].cert)
  {
    hide SetVariable, WellFormedName, IsPrivate, Update, VerifyStatus, SignedBlob, LengthField, DecodeTime, AppendWrite,
      HeaderIsRight, TimeBased, SetVar, FormatStatus;
    PrivateRoute(c, host, p, req);
    VerdictIff(c, p.vars, req, ByPriv);
    if DescriptorFits(req.data) {
      FailedStaysAbsent(p.vars, req.key, PayloadOf(req.data), req.attrs, TimestampOf(req.data));
    }
  }

  lemma FailedStaysAbsent(vars: Vars, k: Key, payload: bytes, attrs: u32, time: Time)
    requires k !in vars
    ensures var u := Update(vars, k, payload, attrs, time); u.status != Success ==> k !in u.vars
  {
    hide AppendWrite, ClearAppend;
  }

  /** A plain write to an authenticated private variable fails without effect or deletes the variable. */
  lemma PlainWriteOnAuthenticated(c: Crypto, host: bool, p: Platform, req: Request)
    requires WellFormedName(req.key.name) && IsPrivate(req.key) && !TimeBased(req.attrs)
    requires req.key in p.vars && TimeBased(p.vars[req.key].attrs)
    ensures var r := SetVariable(c, host, p, req);
            || (r.status != Success && r.platform == p)
            || (r.status == Success && r.platform == Platform(p.vars - {req.key}, p.setup))
  {
    hide SetVariable, WellFormedName, IsPrivate;
    PrivateRoute(c, host, p, req);
  }

  // ---- Authority over private variables

  /**
   The library verifies the signed data under its own top certificate over the bytes of the request, and the signer is
   the one recorded for the variable.
   */
  predicate SignedByRecorded(c: Crypto, vars: Vars, req: Request)
    requires req.key in vars
  {
    && DescriptorFits(req.data)
    && var sig := SignedDataOf(req.data);
       && c.topCert(sig).Some? && c.verify(sig, c.topCert(sig).value, SignedBlob(req))
       && c.digest(sig) == Some(vars[req.key].cert)
  }

  /** A request that changes an authenticated private variable and leaves it stored is signed by its recorded signer. */
  lemma ChangeIsSigned(c: Crypto, host: bool, p: Platform, req: Request)
    requires WellFormedName(req.key.name) && IsPrivate(req.key)
    requires req.key in p.vars && TimeBased(p.vars[req.key].attrs)
    ensures var r := SetVariable(c, host, p, req).platform.vars;
            req.key in r && r[req.key] != p.vars[req.key] ==> SignedByRecorded(c, p.vars, req)
  {
    hide SetVariable, WellFormedName, IsPrivate, VerifyStatus, Update, TimeBased, IsDeleteAuth, VerifiedBySigner,
      DescriptorFits;
    PrivateRoute(c, host, p, req);
    if TimeBased(req.attrs) {
      SignedStatus(c, p.vars, req);
      DeletedIsGone(p.vars, req.key);
    } else {
      PlainWriteOnAuthenticated(c, host, p, req);
    }
  }

  lemma SignedStatus(c: Crypto, vars: Vars, req: Request)
    requires req.key in vars
    ensures VerifyStatus(c, vars, req, ByPriv) == Success ==> SignedByRecorded(c, vars, req)
  {
    hide VerifyStatus, FormatStatus, LengthField, HeaderIsRight, SignedBlob;
    VerdictIff(c, vars, req, ByPriv);
  }

  lemma DeletedIsGone(vars: Vars, k: Key)
    ensures SetVar(vars, k, [], 0).vars == vars || k !in SetVar(vars, k, [], 0).vars
  {
  }

  /** Over whole runs: whoever changes a living authenticated private variable is the signer recorded for it. */
  lemma PrivateAuthority(c: Crypto, host: bool, p: Platform, reqs: seq<Request>, i: nat, k: Key)
    requires VerifiedHasDigest(c) && Inv(host, p) && WellNamed(reqs) && i < |reqs| && IsPrivate(k)
    requires LivesThrough(c, host, p, reqs, k, i, i + 1) && TimeBased(After(c, host, p, reqs, i).vars[k].attrs)
    requires After(c, host, p, reqs, i).vars[k] != After(c, host, p, reqs, i + 1).vars[k]
    ensures reqs[i].key == k && SignedByRecorded(c, After(c, host, p, reqs, i).vars, reqs[i])
  {
    hide Inv, SetVariable, After, WellFormedName, TimeBased, SignedByRecorded;
    RunKeepsInv(c, host, p, reqs, i);
    OneMore(c, host, p, reqs, i);
    assert reqs[i] in reqs;
    assert k in After(c, host, p, reqs, i).vars && k in After(c, host, p, reqs, i + 1).vars;
    if reqs[i].key != k {
      StepFrame(c, host, After(c, host, p, reqs, i), reqs[i], k);
    }
    ChangeIsSigned(c, host, After(c, host, p, reqs, i), reqs[i]);
  }

  /** What removes an authenticated private variable, once the request is not turned down from its header. */
  predicate Removes(c: Crypto, vars: Vars, req: Request)
    requires req.key in vars
  {
    if TimeBased(req.attrs) then
      || (req.attrs == vars[req.key].attrs && |req.data| == 16 + LengthField(req.data))
      || (VerifyStatus(c, vars, req, ByPriv) == Success && DescriptorFits(req.data) && IsDeletion(vars, req))
    else req.attrs == 0 || (req.data == [] && !AppendWrite(req.attrs))
  }

  /**
   Deletion of an authenticated private variable, exactly: by a bare descriptor with the variable's own attributes,
   which is not verified, by a verified empty payload, or by a plain delete.
   */
  lemma PrivateDeletionIff(c: Crypto, host: bool, p: Platform, req: Request)
    requires WellFormedName(req.key.name) && IsPrivate(req.key) && |req.data| <= MAX_DATA_SIZE
    requires req.key in p.vars && TimeBased(p.vars[req.key].attrs)
    ensures req.key !in SetVariable(c, host, p, req).platform.vars <==> !RefusedEarly(req) && Removes(c, p.vars, req)
  {
    hide SetVariable, NoNul, IsPrivate, VerifyStatus, VerifyAndUpdate, TimeBased, LengthField, DescriptorFits, SetVar,
      RefusedEarly, AppendWrite, CounterAuth;
    PrivateConsidered(c, host, p, req);
    PlainRemoval(p.vars, req);
    if TimeBased(req.attrs) {
      VerifiedRemoval(c, p.vars, req);
    }
  }

  lemma PrivateConsidered(c: Crypto, host: bool, p: Platform, req: Request)
    requires WellFormedName(req.key.name) && IsPrivate(req.key)
    ensures var r := SetVariable(c, host, p, req);
            if RefusedEarly(req) then r.platform == p
            else !CounterAuth(req.attrs)
                 && r == if TimeBased(req.attrs) then ProcessVariable(c, p, req) else PlainWrite(p, req)
  {
    hide ProcessVariable, SetVar, WellFormedName, UpToNul;
    Routes(req.key);
  }

  lemma VerifiedRemoval(c: Crypto, vars: Vars, req: Request)
    requires req.key in vars && |req.key.name| <= MAX_NAME_SIZE && TimeBased(req.attrs)
    ensures req.key !in VerifyAndUpdate(c, vars, req, ByPriv).vars
            <==> VerifyStatus(c, vars, req, ByPriv) == Success && DescriptorFits(req.data) && IsDeletion(vars, req)
  {
    hide VerifyStatus, AppendWrite, FilterBytes, LengthField, DecodeTime, DescriptorFits, TimeBased, ClearAppend;
    TimeBasedIsNotZero(req.attrs);
  }

  lemma PlainRemoval(vars: Vars, req: Request)
    requires req.key in vars && |req.key.name| <= MAX_NAME_SIZE && |req.data| <= MAX_DATA_SIZE
    ensures req.key !in SetVar(vars, req.key, [], 0).vars
    ensures req.key !in SetVar(vars, req.key, req.data, req.attrs).vars
            <==> req.attrs == 0 || (req.data == [] && !AppendWrite(req.attrs))
  {
    hide AppendWrite, ClearAppend;
  }

  // ---- Timestamps

  /** A verified write that is no append leaves the descriptor's timestamp, strictly later than the one before. */
  lemma VerifiedWriteIsLater(c: Crypto, vars: Vars, req: Request, via: Authority)
    requires TimeBased(req.attrs) && !AppendWrite(req.attrs) && req.key in vars
    requires var r := VerifyAndUpdate(c, vars, req, via); r.status == Success && req.key in r.vars
    ensures DescriptorFits(req.data)
    ensures VerifyAndUpdate(c, vars, req, via).vars[req.key].timestamp == TimestampOf(req.data)
    ensures Rank(vars[req.key].timestamp) < Rank(TimestampOf(req.data))
  {
    hide Rank, NotLater, FormatStatus, Verified, IsPkcs7, TimeBased, AppendWrite, ClearAppend, SetVar;
    TimeBasedIsNotZero(req.attrs);
    NotLaterIsRankOrder(TimestampOf(req.data), vars[req.key].timestamp);
    WrittenUnless(vars, req);
  }

  lemma WrittenUnless(vars: Vars, req: Request)
    requires !AppendWrite(req.attrs) && req.attrs != 0 && req.key in vars && DescriptorFits(req.data)
    ensures PayloadOf(req.data) == [] ==>
              req.key !in SetVarWithTimestamp(vars, req.key, [], req.attrs, TimestampOf(req.data)).vars
              || SetVarWithTimestamp(vars, req.key, [], req.attrs, TimestampOf(req.data)).status != Success
  {
  }

  /** Writes that are checked against a stored authority: all authenticated ones but database writes in setup mode. */
  predicate IsVerifiedWrite(p: Platform, req: Request) {
    TimeBased(req.attrs) && !AppendWrite(req.attrs) && (!p.setup || !IsSecureBootVariable(req.key))
  }

  /** A successful verified write that keeps the variable is one verified update of it. */
  lemma VerifiedRoute(c: Crypto, host: bool, p: Platform, req: Request) returns (via: Authority)
    requires VerifiedHasDigest(c) && Inv(host, p) && WellFormedName(req.key.name) && !IsMirror(req.key)
    requires IsVerifiedWrite(p, req) && req.key in p.vars
    requires var r := SetVariable(c, host, p, req); r.status == Success && req.key in r.platform.vars
    ensures var u := VerifyAndUpdate(c, p.vars, req, via);
            u.status == Success && req.key in u.vars
            && SetVariable(c, host, p, req).platform.vars[req.key] == u.vars[req.key]
  {
    if IsPrivate(req.key) {
      via := ByPriv;
      PrivateRoute(c, host, p, req);
      hide SetVariable, WellFormedName, IsPrivate, VerifyAndUpdate, Inv;
    } else if req.key == PK {
      via := ByPk;
      PkRewrite(c, host, p, req);
    } else {
      via := DatabaseRoute(c, host, p, req);
    }
  }

  /** A successful write that leaves a platform key is one verified update of it. */
  lemma PkRewrite(c: Crypto, host: bool, p: Platform, req: Request)
    requires VerifiedHasDigest(c) && Inv(host, p) && req.key == PK
    requires var r := SetVariable(c, host, p, req); r.status == Success && PK in r.platform.vars
    ensures var u := VerifyAndUpdate(c, p.vars, req, if p.setup then ByPayload else ByPk);
            && HasDatabaseAttrs(req.attrs) && u.status == Success && PK in u.vars
            && SetVariable(c, host, p, req).platform.vars[PK] == u.vars[PK]
  {
    DistinctKeys();
    OtherNames();
    Routes(PK);
    if HasDatabaseAttrs(req.attrs) {
      var via := if p.setup then ByPayload else ByPk;
      var u := VerifyAndUpdate(c, p.vars, req, via);
      VerifyAndUpdateFrame(c, p.vars, req, via);
      ModeFrame(u.vars, !p.setup, host);
      hide VerifyAndUpdate, UpdateMode, ValidVars, Inv, WellFormedName, EvaluateAttrs;
      assert SameAt(u.vars, UpdateMode(u.vars, !p.setup, host).platform.vars, PK);
    }
  }

  lemma DatabaseRoute(c: Crypto, host: bool, p: Platform, req: Request) returns (via: Authority)
    requires VerifiedHasDigest(c) && Inv(host, p) && WellFormedName(req.key.name)
    requires IsSignatureDatabase(req.key) && !p.setup && SetVariable(c, host, p, req).status == Success
    ensures var u := VerifyAndUpdate(c, p.vars, req, via);
            u.status == Success && SetVariable(c, host, p, req).platform.vars == u.vars
            && (via == ByPk || (via == ByKek && req.key != KEK))
  {
    hide VerifyAndUpdate, Inv, WellFormedName, EvaluateAttrs, IsReadOnly, UpToNul, VerifiedHasDigest, ValidVars,
      DatabasesWell;
    InvParts(host, p);
    Routes(req.key);
    DatabaseStep(c, host, p, req);
    via := if VerifyAndUpdate(c, p.vars, req, ByPk).status == Success then ByPk else ByKek;
  }

  lemma StepTimestamp(c: Crypto, host: bool, p: Platform, req: Request, k: Key)
    requires VerifiedHasDigest(c) && Inv(host, p) && WellFormedName(req.key.name) && !IsMirror(k)
    requires req.key == k ==> IsVerifiedWrite(p, req)
    requires k in p.vars && k in SetVariable(c, host, p, req).platform.vars
    ensures var r := SetVariable(c, host, p, req);
            && Rank(p.vars[k].timestamp) <= Rank(r.platform.vars[k].timestamp)
            && (req.key == k && r.status == Success ==>
                  && DescriptorFits(req.data) && r.platform.vars[k].timestamp == TimestampOf(req.data)
                  && Rank(p.vars[k].timestamp) < Rank(TimestampOf(req.data)))
  {
    hide SetVariable, Inv, Rank, WellFormedName, VerifyAndUpdate;
    if req.key != k {
      StepFrame(c, host, p, req, k);
    } else {
      StepKeepsInv(c, host, p, req);
      if SetVariable(c, host, p, req).status == Success {
        var via := VerifiedRoute(c, host, p, req);
        VerifiedWriteIsLater(c, p.vars, req, via);
      }
    }
  }

  /** From request `i` to `j` the variable stays stored and is written only by verified writes that are no appends. */
  predicate OnlyVerifiedWrites(c: Crypto, host: bool, p: Platform, reqs: seq<Request>, k: Key, i: nat, j: nat)
    requires i <= j <= |reqs|
  {
    && LivesThrough(c, host, p, reqs, k, i, j)
    && forall t :: i <= t < j && reqs[t].key == k ==> IsVerifiedWrite(After(c, host, p, reqs, t), reqs[t])
  }

  /** The rank of the stored timestamp before request `t`. */
  function RankAt(c: Crypto, host: bool, p: Platform, reqs: seq<Request>, k: Key, t: nat): nat
    requires t <= |reqs| && k in After(c, host, p, reqs, t).vars
  {
    Rank(After(c, host, p, reqs, t).vars[k].timestamp)
  }

  lemma TimestampStep(c: Crypto, host: bool, p: Platform, reqs: seq<Request>, k: Key, t: nat)
    requires VerifiedHasDigest(c) && Inv(host, p) && WellNamed(reqs) && !IsMirror(k) && t < |reqs|
    requires OnlyVerifiedWrites(c, host, p, reqs, k, t, t + 1)
    ensures LivesThrough(c, host, p, reqs, k, t, t + 1)
    ensures RankAt(c, host, p, reqs, k, t) <= RankAt(c, host, p, reqs, k, t + 1)
    ensures reqs[t].key == k && SetVariable(c, host, After(c, host, p, reqs, t), reqs[t]).status == Success ==>
              && DescriptorFits(reqs[t].data)
              && RankAt(c, host, p, reqs, k, t + 1) == Rank(TimestampOf(reqs[t].data))
              && RankAt(c, host, p, reqs, k, t) < RankAt(c, host, p, reqs, k, t + 1)
  {
    hide SetVariable, Inv, Rank, After, WellFormedName, IsVerifiedWrite;
    RunKeepsInv(c, host, p, reqs, t);
    OneMore(c, host, p, reqs, t);
    assert reqs[t] in reqs;
    assert k in After(c, host, p, reqs, t).vars && k in After(c, host, p, reqs, t + 1).vars;
    StepTimestamp(c, host, After(c, host, p, reqs, t), reqs[t], k);
  }

  lemma {:induction false} TimestampGrows(
      c: Crypto, host: bool, p: Platform, reqs: seq<Request>, k: Key, i: nat, j: nat)
    requires VerifiedHasDigest(c) && Inv(host, p) && WellNamed(reqs) && !IsMirror(k)
    requires i <= j <= |reqs| && OnlyVerifiedWrites(c, host, p, reqs, k, i, j)
    ensures RankAt(c, host, p, reqs, k, i) <= RankAt(c, host, p, reqs, k, j)
  {
    hide Inv, Rank, After, WellFormedName, IsVerifiedWrite, SetVariable;
    if i < j {
      TimestampGrows(c, host, p, reqs, k, i, j - 1);
      TimestampStep(c, host, p, reqs, k, j - 1);
    }
  }

  // ---- Repeating an append

  /** The store after a successful append, with any signer digest recorded. */
  function Appended(vars: Vars, k: Key, payload: bytes, attrs: u32, time: Time, cert: Digest): Vars
    requires k in Update(vars, k, payload, attrs, time).vars
  {
    var m := Update(vars, k, payload, attrs, time).vars;
    m[k := m[k].(cert := cert)]
  }

  lemma NothingNew(m: Vars, k: Key, payload: bytes, attrs: u32, time: Time)
    requires k in m && IsSignatureDatabase(k) && AppendWrite(attrs) && FilterBytes(m[k].data, payload) == []
    ensures Update(m, k, payload, attrs, time) == Outcome(Success, m)
  {
  }

  /** What a successful append to an existing database stores: old and new entries, or the old ones if refused. */
  lemma AppendedData(vars: Vars, k: Key, rest: bytes, attrs: u32, time: Time)
    requires k in vars && rest != [] && attrs != 0 && AppendWrite(attrs)
    requires |k.name| <= MAX_NAME_SIZE && |rest| <= MAX_DATA_SIZE
    ensures var r := SetVarWithTimestamp(vars, k, rest, attrs, time);
            && r.status == Success && k in r.vars
            && if OverwriteEffect(vars[k], rest, attrs).Put? then r.vars[k].data == vars[k].data + rest
               else r.vars[k] == vars[k].(timestamp := time)
  {
  }

  /** A refused append is refused again, and sets the same timestamp again. */
  lemma RefusedAgain(m: Vars, k: Key, rest: bytes, attrs: u32, time: Time)
    requires k in m && m[k].timestamp == time && rest != [] && attrs != 0 && AppendWrite(attrs)
    requires |k.name| <= MAX_NAME_SIZE && |rest| <= MAX_DATA_SIZE
    requires !OverwriteEffect(m[k], rest, attrs).Put?
    ensures SetVarWithTimestamp(m, k, rest, attrs, time) == Outcome(Success, m)
  {
    assert m[k := m[k].(timestamp := time)] == m;
  }

  /** Whether a write is refused does not depend on the timestamp or the recorded signer. */
  lemma SameRefusal(v: Variable, w: Variable, rest: bytes, attrs: u32)
    requires w == v.(timestamp := w.timestamp, cert := w.cert)
    ensures OverwriteEffect(v, rest, attrs).Put? <==> OverwriteEffect(w, rest, attrs).Put?
  {
    hide AppendWrite;
  }

  lemma AppendSettlesNew(vars: Vars, k: Key, payload: bytes, attrs: u32, time: Time, cert: Digest)
    requires IsSignatureDatabase(k) && AppendWrite(attrs) && attrs != 0 && k !in vars && Complete(payload)
    requires Update(vars, k, payload, attrs, time).status == Success
    ensures k in Update(vars, k, payload, attrs, time).vars
    ensures var m := Appended(vars, k, payload, attrs, time, cert);
            Update(m, k, payload, attrs, time) == Outcome(Success, m)
  {
    hide FilterBytes, Complete;
    UpdatePresence(vars, k, payload, attrs, time);
    FilterKnown(payload, payload);
    NothingNew(Appended(vars, k, payload, attrs, time, cert), k, payload, attrs, time);
  }

  /**
   After a successful append every entry of its payload is stored, or the append was refused behind the reported
   success; in both cases repeating it reports success and changes nothing.
   */
  lemma AppendSettles(vars: Vars, k: Key, payload: bytes, attrs: u32, time: Time, cert: Digest)
    requires IsSignatureDatabase(k) && AppendWrite(attrs) && attrs != 0 && |payload| <= MAX_DATA_SIZE
    requires Complete(payload) && (k in vars ==> Complete(vars[k].data))
    requires Update(vars, k, payload, attrs, time).status == Success
    ensures k in Update(vars, k, payload, attrs, time).vars
    ensures var m := Appended(vars, k, payload, attrs, time, cert);
            Update(m, k, payload, attrs, time) == Outcome(Success, m)
  {
    hide FilterBytes, Complete, AppendWrite, SetVarWithTimestamp, OverwriteEffect;
    UpdatePresence(vars, k, payload, attrs, time);
    if k !in vars {
      AppendSettlesNew(vars, k, payload, attrs, time, cert);
    } else {
      var rest := FilterBytes(vars[k].data, payload);
      FilterBytesMeaning(vars[k].data, payload);
      FilterIdempotent(vars[k].data, payload);
      var m := Appended(vars, k, payload, attrs, time, cert);
      if rest == [] {
        NothingNew(m, k, payload, attrs, time);
      } else {
        AppendedData(vars, k, rest, attrs, time);
        if OverwriteEffect(vars[k], rest, attrs).Put? {
          NothingNew(m, k, payload, attrs, time);
        } else {
          SameRefusal(vars[k], m[k], rest, attrs);
          RefusedAgain(m, k, rest, attrs, time);
        }
      }
    }
  }

  lemma OtherKeysOfAppend(c: Crypto, vars: Vars, req: Request, via: Authority, k: Key)
    requires ValidVars(vars) && WellFormedName(req.key.name) && TimeBased(req.attrs) && k != req.key
    ensures SameAt(vars, VerifyAndUpdate(c, vars, req, via).vars, k)
  {
    VerifyAndUpdateFrame(c, vars, req, via);
    SameElsewhere(vars, VerifyAndUpdate(c, vars, req, via).vars, req.key, k);
  }

  /** Verification of an append does not look at the variable it appends to. */
  lemma SameVerdict(c: Crypto, vars: Vars, vars': Vars, req: Request, via: Authority)
    requires AppendWrite(req.attrs) && (via == ByPk || via == ByKek)
    requires SameAt(vars, vars', PK) && (via == ByKek ==> SameAt(vars, vars', KEK))
    ensures VerifyStatus(c, vars, req, via) == VerifyStatus(c, vars', req, via)
  {
    hide Complete, ListsReach, Parse, CertAt, FormatStatus, AppendWrite;
  }

  lemma FormIsComplete(vars: Vars, k: Key, payload: bytes)
    requires DatabasesWell(vars) && IsSignatureDatabase(k) && WellFormedLists(payload)
    ensures Complete(payload) && (k in vars ==> Complete(vars[k].data))
  {
  }

  lemma VerifiedAppendAgain(c: Crypto, vars: Vars, req: Request, via: Authority, via': Authority)
    requires DatabasesWell(vars) && WellFormedName(req.key.name) && |req.data| <= MAX_DATA_SIZE
    requires IsSignatureDatabase(req.key) && TimeBased(req.attrs) && AppendWrite(req.attrs)
    requires VerifyAndUpdate(c, vars, req, via).status == Success
    ensures var m := VerifyAndUpdate(c, vars, req, via).vars;
            VerifyStatus(c, m, req, via') == Success ==> VerifyAndUpdate(c, m, req, via') == Updated(Success, m, false)
  {
    hide Update, VerifyStatus, AppendWrite, WellFormedLists, WellFormedName, FormatStatus, LengthField, DecodeTime,
      TimeBased, Complete;
    VerifiedFormat(c, vars, req, via);
    var k, payload, time := req.key, PayloadOf(req.data), TimestampOf(req.data);
    var sig := SignedDataOf(req.data);
    TimeBasedIsNotZero(req.attrs);
    AcceptedForm(c, k, payload);
    FormIsComplete(vars, k, payload);
    var cert := if c.digest(sig).Some? then c.digest(sig).value else ZERO_DIGEST;
    AppendSettles(vars, k, payload, req.attrs, time, cert);
    var m := VerifyAndUpdate(c, vars, req, via).vars;
    assert m == Appended(vars, k, payload, req.attrs, time, cert);
    if VerifyStatus(c, m, req, via') == Success {
      assert m[k := m[k].(cert := cert)] == m;
    }
  }

  lemma VerdictAgain(c: Crypto, vars: Vars, req: Request, via: Authority)
    requires ValidVars(vars) && WellFormedName(req.key.name) && TimeBased(req.attrs) && AppendWrite(req.attrs)
    requires IsSignatureDatabase(req.key) && (via == ByPk || (via == ByKek && req.key != KEK))
    ensures VerifyStatus(c, VerifyAndUpdate(c, vars, req, via).vars, req, via) == VerifyStatus(c, vars, req, via)
  {
    hide VerifyAndUpdate, ValidVars, WellFormedName;
    DistinctKeys();
    OtherKeysOfAppend(c, vars, req, via, PK);
    if via == ByKek {
      OtherKeysOfAppend(c, vars, req, via, KEK);
    }
    SameVerdict(c, vars, VerifyAndUpdate(c, vars, req, via).vars, req, via);
  }

  lemma UnverifiedAppendAgain(c: Crypto, vars: Vars, req: Request)
    requires DatabasesWell(vars) && WellFormedName(req.key.name) && |req.data| <= MAX_DATA_SIZE
    requires IsSignatureDatabase(req.key) && TimeBased(req.attrs) && AppendWrite(req.attrs)
    requires UpdateUnverified(c, vars, req).status == Success
    ensures var m := UpdateUnverified(c, vars, req).vars; UpdateUnverified(c, m, req) == Outcome(Success, m)
  {
    var k, payload, time := req.key, PayloadOf(req.data), TimestampOf(req.data);
    TimeBasedIsNotZero(req.attrs);
    AcceptedForm(c, k, payload);
    UpdatePresence(vars, k, payload, req.attrs, time);
    var m := Update(vars, k, payload, req.attrs, time).vars;
    AppendSettles(vars, k, payload, req.attrs, time, m[k].cert);
    hide Update, AppendWrite, WellFormedLists, WellFormedName;
    assert m[k := m[k].(cert := m[k].cert)] == m;
  }

  /** How an accepted write to a signature database was made. */
  lemma AcceptedDatabaseWrite(c: Crypto, host: bool, p: Platform, req: Request)
    requires VerifiedHasDigest(c) && Inv(host, p) && WellFormedName(req.key.name) && IsSignatureDatabase(req.key)
    requires p.setup && SetVariable(c, host, p, req).status == Success
    ensures HasDatabaseAttrs(req.attrs) && UpdateUnverified(c, p.vars, req).status == Success
    ensures SetVariable(c, host, p, req).platform == Platform(UpdateUnverified(c, p.vars, req).vars, true)
  {
    Routes(req.key);
    UnverifiedStep(c, p, req);
    hide UpdateUnverified, Inv, WellFormedName, EvaluateAttrs, IsReadOnly, UpToNul, ValidVars, DatabasesWell;
  }

  /** The answer to a database write in setup mode, from the unverified update. */
  lemma SetupAnswer(c: Crypto, host: bool, p: Platform, q: Platform, req: Request)
    requires WellFormedName(req.key.name) && IsSignatureDatabase(req.key) && p.setup && q.setup
    requires SetVariable(c, host, p, req).status == Success && HasDatabaseAttrs(req.attrs)
    requires UpdateUnverified(c, q.vars, req) == Outcome(Success, q.vars)
    ensures SetVariable(c, host, q, req) == Step(Success, q)
  {
    hide UpdateUnverified, WellFormedName, UpToNul;
    Routes(req.key);
  }

  /** The answer to a database write in user mode, from the verified updates. */
  lemma UserAnswer(c: Crypto, host: bool, p: Platform, q: Platform, req: Request, via: Authority)
    requires WellFormedName(req.key.name) && IsSignatureDatabase(req.key) && !p.setup && !q.setup
    requires SetVariable(c, host, p, req).status == Success && HasDatabaseAttrs(req.attrs)
    requires via == ByPk || (via == ByKek && req.key != KEK)
    requires VerifyAndUpdate(c, q.vars, req, via) == Updated(Success, q.vars, false)
    requires VerifyAndUpdate(c, q.vars, req, ByPk).vars == q.vars
    ensures SetVariable(c, host, q, req) == Step(Success, q)
  {
    hide VerifyAndUpdate, WellFormedName, UpToNul;
    Routes(req.key);
  }

  /**
   Repeating an append: when an append to KEK, db, dbx or dbt has been answered with success, the same request again
   is answered with success and leaves the whole platform as it is.
   */
  lemma AppendIsIdempotent(c: Crypto, host: bool, p: Platform, req: Request)
    requires VerifiedHasDigest(c) && Inv(host, p) && WellFormedName(req.key.name) && |req.data| <= MAX_DATA_SIZE
    requires IsSignatureDatabase(req.key) && AppendWrite(req.attrs)
    ensures var r := SetVariable(c, host, p, req);
            r.status == Success ==> SetVariable(c, host, r.platform, req) == r
  {
    var q := SetVariable(c, host, p, req).platform;
    if SetVariable(c, host, p, req).status != Success {
    } else if p.setup {
      AcceptedDatabaseWrite(c, host, p, req);
      UnverifiedAppendAgain(c, p.vars, req);
      hide SetVariable, UpdateUnverified, Inv, WellFormedName;
      SetupAnswer(c, host, p, q, req);
    } else {
      UserAppendAgain(c, host, p, req);
    }
  }

  lemma UserAppendAgain(c: Crypto, host: bool, p: Platform, req: Request)
    requires VerifiedHasDigest(c) && Inv(host, p) && WellFormedName(req.key.name) && |req.data| <= MAX_DATA_SIZE
    requires IsSignatureDatabase(req.key) && AppendWrite(req.attrs) && !p.setup
    requires SetVariable(c, host, p, req).status == Success
    ensures var q := SetVariable(c, host, p, req).platform; SetVariable(c, host, q, req) == Step(Success, q)
  {
    hide SetVariable, VerifyAndUpdate, VerifyStatus, WellFormedName, ValidVars, DatabasesWell;
    AcceptedAttrs(c, host, p, req);
    OtherStep(c, host, p, req);
    var via := DatabaseRoute(c, host, p, req);
    var q := SetVariable(c, host, p, req).platform;
    VerdictAgain(c, p.vars, req, via);
    VerifiedAppendAgain(c, p.vars, req, via, via);
    VerifiedAppendAgain(c, p.vars, req, via, ByPk);
    VerifyAndUpdateFrame(c, q.vars, req, ByPk);
    AcceptedVerdict(c, p.vars, req, via);
    RefusedVerdict(c, q.vars, req, ByPk);
    UserAnswer(c, host, p, q, req, via);
  }

  lemma AcceptedVerdict(c: Crypto, vars: Vars, req: Request, via: Authority)
    requires VerifyAndUpdate(c, vars, req, via).status == Success
    ensures VerifyStatus(c, vars, req, via) == Success
  {
    hide Update;
  }

  lemma RefusedVerdict(c: Crypto, vars: Vars, req: Request, via: Authority)
    ensures VerifyStatus(c, vars, req, via) != Success ==> VerifyAndUpdate(c, vars, req, via).vars == vars
  {
  }

  lemma AcceptedAttrs(c: Crypto, host: bool, p: Platform, req: Request)
    requires WellFormedName(req.key.name) && IsSignatureDatabase(req.key)
    requires SetVariable(c, host, p, req).status == Success
    ensures HasDatabaseAttrs(req.attrs)
  {
    hide VerifyAndUpdate, UpdateUnverified, WellFormedName, UpToNul;
    Routes(req.key);
  }
}
