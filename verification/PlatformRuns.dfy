/** Safety of the secure-boot state over whole runs of SetVariable requests. */
module PlatformRuns {
  import opened Bytes
  import opened Uefi
  import opened SignatureWalks
  import opened Crypto
  import opened VariableMap
  import opened AuthSpec
  import opened AuthProofs
  import opened PlatformSteps
  import opened Verdicts

  /** The platform after a run of requests. */
  function Run(c: Crypto, host: bool, p: Platform, reqs: seq<Request>): Platform
    decreases reqs
  {
    if reqs == [] then p else
      var last := |reqs| - 1;
      SetVariable(c, host, Run(c, host, p, reqs[..last]), reqs[last]).platform
  }

  /** The platform after the first `i` requests of a run. */
  function After(c: Crypto, host: bool, p: Platform, reqs: seq<Request>, i: nat): Platform
    requires i <= |reqs|
  {
    Run(c, host, p, reqs[..i])
  }

  predicate WellNamed(reqs: seq<Request>) {
    forall req <- reqs :: WellFormedName(req.key.name)
  }

  lemma OneMore(c: Crypto, host: bool, p: Platform, reqs: seq<Request>, i: nat)
    requires i < |reqs|
    ensures After(c, host, p, reqs, i + 1) == SetVariable(c, host, After(c, host, p, reqs, i), reqs[i]).platform
  {
    var t := reqs[..i + 1];
    assert t[..i] == reqs[..i] && t[i] == reqs[i];
  }

  lemma {:induction false} RunKeepsInv(c: Crypto, host: bool, p: Platform, reqs: seq<Request>, i: nat)
    requires VerifiedHasDigest(c) && Inv(host, p) && WellNamed(reqs) && i <= |reqs|
    ensures Inv(host, After(c, host, p, reqs, i))
  {
    hide Inv, SetVariable;
    if i > 0 {
      RunKeepsInv(c, host, p, reqs, i - 1);
      OneMore(c, host, p, reqs, i - 1);
      assert reqs[i - 1] in reqs;
      StepKeepsInv(c, host, After(c, host, p, reqs, i - 1), reqs[i - 1]);
    }
  }

  /**
   After a successful initialisation and through every run of requests, the platform is in user mode exactly when
   a platform key is stored, and SecureBoot, SetupMode and DeployedMode say so.
   */
  lemma ModeFollowsPlatformKey(c: Crypto, host: bool, vars: Vars, files: seq<Request>, reqs: seq<Request>)
    requires VerifiedHasDigest(c) && ValidVars(vars) && DatabasesWell(vars)
    requires WellNamed(files) && WellNamed(reqs)
    ensures var start := Initialise(c, host, vars, files);
            var p := Run(c, host, start.platform, reqs);
            start.status == Success ==>
            && (p.setup <==> PK !in p.vars)
            && MirrorIs(p.vars, SETUP_MODE, if PK in p.vars then 0 else 1)
            && MirrorIs(p.vars, DEPLOYED_MODE, if PK in p.vars then 0 else 1)
            && MirrorIs(p.vars, SECURE_BOOT, if PK in p.vars && host then 1 else 0)
  {
    hide Initialise, ValidVars, DatabasesWell, Run, WellFormedName;
    InitialiseEstablishesInv(c, host, vars, files);
    if Initialise(c, host, vars, files).status == Success {
      RunKeepsInv(c, host, Initialise(c, host, vars, files).platform, reqs, |reqs|);
      assert reqs[..|reqs|] == reqs;
    }
  }

  // ---- Who may change the keys

  /**
   The signer's own certificate is the one at the front of the stored platform key, and the library verifies the signed
   data under it over the bytes of the request; when the stored key has a first entry, the certificate is that entry's.
   */
  ghost predicate SignedByPk(c: Crypto, vars: Vars, req: Request) {
    && DescriptorFits(req.data) && PK in vars
    && var sig, blob, pk := SignedDataOf(req.data), SignedBlob(req), vars[PK].data;
       && KeySigned(c, pk, sig, blob)
       && forall e :: FirstEntryIs(pk, e) ==>
            |e| >= 16 && c.topCert(sig) == Some(e[16..]) && c.verify(sig, e[16..], blob)
  }

  /** Some X.509 entry of the stored key exchange keys verifies the signed data over the bytes of the request. */
  ghost predicate SignedByKek(c: Crypto, vars: Vars, req: Request) {
    DescriptorFits(req.data) && KEK in vars && KekSigned(c, vars[KEK].data, SignedDataOf(req.data), SignedBlob(req))
  }

  ghost predicate Authorised(c: Crypto, vars: Vars, req: Request, k: Key) {
    req.key == k && (SignedByPk(c, vars, req) || (k != PK && k != KEK && SignedByKek(c, vars, req)))
  }

  lemma ChangedIsVerified(c: Crypto, vars: Vars, req: Request, via: Authority)
    requires VerifyAndUpdate(c, vars, req, via).vars != vars
    ensures DescriptorFits(req.data) && Verified(c, vars, req, via)
  {
    hide Update, RecordSigner;
  }

  lemma ChangedIsSigned(c: Crypto, vars: Vars, req: Request)
    ensures VerifyAndUpdate(c, vars, req, ByPk).vars != vars ==> SignedByPk(c, vars, req)
    ensures VerifyAndUpdate(c, vars, req, ByKek).vars != vars ==> SignedByKek(c, vars, req)
  {
    hide VerifyAndUpdate, LengthField, SignedBlob, FirstEntryIs, KeySigned, KekSigned, VerifiedByPk, VerifiedByKek;
    if VerifyAndUpdate(c, vars, req, ByPk).vars != vars {
      ChangedIsVerified(c, vars, req, ByPk);
      var sig, blob := SignedDataOf(req.data), SignedBlob(req);
      PkVerdictIff(c, vars, sig, blob);
      forall e | FirstEntryIs(vars[PK].data, e)
        ensures |e| >= 16 && c.topCert(sig) == Some(e[16..]) && c.verify(sig, e[16..], blob)
      {
        PkVerdictOnEntry(c, vars, sig, blob, e);
      }
    }
    if VerifyAndUpdate(c, vars, req, ByKek).vars != vars {
      ChangedIsVerified(c, vars, req, ByKek);
      KekVerdictIff(c, vars, SignedDataOf(req.data), SignedBlob(req));
    }
  }

  /** In user mode, a request that changes a secure-boot variable in any way was authorised by what was stored. */
  lemma StepAuthority(c: Crypto, host: bool, p: Platform, req: Request, k: Key)
    requires VerifiedHasDigest(c) && Inv(host, p) && WellFormedName(req.key.name)
    requires !p.setup && IsSecureBootVariable(k)
    requires !SameAt(p.vars, SetVariable(c, host, p, req).platform.vars, k)
    ensures Authorised(c, p.vars, req, k)
  {
    hide VerifyAndUpdate, SignedByPk, SignedByKek, SetVariable, WellFormedName, UpdateUnverified, UpdateMode, NamesPk,
      NamesKek, NamesDb;
    Routes(req.key);
    SameKey(c, host, p, req, k);
    ChangedIsSigned(c, p.vars, req);
    if VerifyAndUpdate(c, p.vars, req, ByPk).vars == p.vars {
      if HasDatabaseAttrs(req.attrs) {
        VerifyAndUpdateFrame(c, p.vars, req, ByPk);
      }
      if k != PK && k != KEK {
        DatabaseStep(c, host, p, req);
      }
    }
  }

  /** A secure-boot variable is only ever changed by a request that names it. */
  lemma SameKey(c: Crypto, host: bool, p: Platform, req: Request, k: Key)
    requires VerifiedHasDigest(c) && Inv(host, p) && WellFormedName(req.key.name) && IsSecureBootVariable(k)
    requires !SameAt(p.vars, SetVariable(c, host, p, req).platform.vars, k)
    ensures req.key == k && SetVariable(c, host, p, req) == Dispatch(c, host, p, req)
  {
    DistinctKeys();
    hide Dispatch, SetVar, Inv, WellFormedName;
    if req.key != k {
      StepFrame(c, host, p, req, k);
    }
  }

  /** A request touches the variable it names and, when it names the platform key, the mirrors. */
  lemma StepFrame(c: Crypto, host: bool, p: Platform, req: Request, k: Key)
    requires VerifiedHasDigest(c) && Inv(host, p) && WellFormedName(req.key.name)
    requires k != req.key && !IsMirror(k)
    ensures SameAt(p.vars, SetVariable(c, host, p, req).platform.vars, k)
  {
    hide ValidVars, DatabasesWell, Inv, Dispatch, SetVar, WellFormedName, VerifiedHasDigest, IsMirror;
    if req.key == PK {
      PkFrame(c, host, p, req, k);
    } else {
      InvParts(host, p);
      OtherStep(c, host, p, req);
      SameElsewhere(p.vars, SetVariable(c, host, p, req).platform.vars, req.key, k);
    }
  }

  lemma PkFrame(c: Crypto, host: bool, p: Platform, req: Request, k: Key)
    requires Inv(host, p) && req.key == PK && k != PK && !IsMirror(k)
    ensures SameAt(p.vars, Dispatch(c, host, p, req).platform.vars, k)
  {
    OtherNames();
    Routes(PK);
    if HasDatabaseAttrs(req.attrs) {
      var via := if p.setup then ByPayload else ByPk;
      var r := VerifyAndUpdate(c, p.vars, req, via);
      VerifyAndUpdateFrame(c, p.vars, req, via);
      SameElsewhere(p.vars, r.vars, PK, k);
      ModeFrame(r.vars, true, host);
      ModeFrame(r.vars, false, host);
      hide VerifyAndUpdate, ValidVars, NamesPk, UpdateMode, WellFormedName;
      assert SameAt(r.vars, UpdateMode(r.vars, true, host).platform.vars, k);
      assert SameAt(r.vars, UpdateMode(r.vars, false, host).platform.vars, k);
    }
  }

  /**
   Chain of authority over whole runs: whenever a request handled in user mode changes the platform key or the key
   exchange keys, it verified against the platform key stored before it; whenever it changes db, dbx or dbt, it
   verified against that platform key or the key exchange keys stored before it.
   */
  lemma ChainOfAuthority(c: Crypto, host: bool, p: Platform, reqs: seq<Request>, i: nat, k: Key)
    requires VerifiedHasDigest(c) && Inv(host, p) && WellNamed(reqs) && i < |reqs| && IsSecureBootVariable(k)
    requires !After(c, host, p, reqs, i).setup
    requires !SameAt(After(c, host, p, reqs, i).vars, After(c, host, p, reqs, i + 1).vars, k)
    ensures Authorised(c, After(c, host, p, reqs, i).vars, reqs[i], k)
  {
    hide Inv, SetVariable, Run, SameAt;
    RunKeepsInv(c, host, p, reqs, i);
    OneMore(c, host, p, reqs, i);
    assert reqs[i] in reqs;
    StepAuthority(c, host, After(c, host, p, reqs, i), reqs[i], k);
  }
}
