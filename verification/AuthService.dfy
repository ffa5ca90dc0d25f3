/** The authentication service with its variable table and platform mode, refining the platform specification. */
module AuthService {
  import opened Bytes
  import opened Uefi
  import opened SignatureLists
  import opened SignatureWalks
  import opened Crypto
  import opened VariableMap
  import opened Storage
  import opened AuthSpec
  import opened AuthProofs
  import opened PlatformSteps
  import opened Verdicts
  import opened PreparedFiles

  /**
   What the C code needs of a request to stay inside its buffers, given the route it takes: for a signature database
   records that cover their headers, in setup mode behind a descriptor of any size, and otherwise a whole descriptor,
   unless its fixed part is refused. A bare descriptor that deletes a private variable is not looked into, and neither
   are attributes that are refused.
   */
  predicate Readable(c: Crypto, p: Platform, req: Request) {
    && WellFormedName(req.key.name)
    && if IsSecureBootVariable(req.key) then HasDatabaseAttrs(req.attrs) ==> DatabaseReadable(c, p, req)
       else TimeBased(req.attrs) ==> DeletesPrivate(p.vars, req) || Verifiable(c, p.vars, req, ByPriv)
  }

  predicate DatabaseReadable(c: Crypto, p: Platform, req: Request) {
    if p.setup && req.key != PK then PayloadFits(req.data) && ListsCoverHeaders(PayloadOf(req.data))
    else if p.setup then Verifiable(c, p.vars, req, ByPayload)
    else Verifiable(c, p.vars, req, ByPk) && (req.key != PK && req.key != KEK ==> Verifiable(c, p.vars, req, ByKek))
  }

  /**
   The verified routes use the sizes of a descriptor only once its fixed part has passed, and walk the lists of a
   signature database only once its signature has verified.
   */
  predicate Verifiable(c: Crypto, vars: Vars, req: Request, via: Authority) {
    || HeaderRefused(vars, req)
    || (DescriptorFits(req.data) && ListsWalkable(c, vars, req, via))
  }

  predicate ListsWalkable(c: Crypto, vars: Vars, req: Request, via: Authority)
    requires DescriptorFits(req.data)
  {
    IsSecureBootVariable(req.key) && Verified(c, vars, req, via) ==> ListsCoverHeaders(PayloadOf(req.data))
  }

  predicate DeletesPrivate(vars: Vars, req: Request) {
    req.key in vars && IsDeleteAuth(vars[req.key].attrs, req.data, req.attrs)
  }

  /** A prepared file lies in a buffer of its own size, so it must also hold the fields its route reads. */
  predicate FileReadable(c: Crypto, p: Platform, f: Request) {
    && Readable(c, p, f)
    && (TimeBased(f.attrs) ==> |f.data| >= if p.setup && IsSignatureDatabase(f.key) then 20 else CERT_DATA_OFFSET)
  }

  predicate WellNames(files: seq<Request>) {
    forall f <- files :: WellFormedName(f.key.name)
  }

  /** Each prepared file is readable in the platform it is loaded in. */
  predicate FilesReadable(c: Crypto, host: bool, p: Platform, files: seq<Request>)
    decreases files
  {
    files == [] ||
    if files[0].key in p.vars || files[0].data == [] then FilesReadable(c, host, p, files[1..])
    else
      var r := Dispatch(c, host, p, files[0]);
      FileReadable(c, p, files[0]) && (r.status == Success ==> FilesReadable(c, host, r.platform, files[1..]))
  }

  class Service {
    const table: VariableTable
    const crypto: Crypto
    const secureBootEnabled: bool
    var setupMode: bool

    constructor (table: VariableTable, crypto: Crypto, secureBootEnabled: bool)
      ensures this.table == table && this.crypto == crypto && this.secureBootEnabled == secureBootEnabled
      ensures setupMode
    {
      this.table, this.crypto, this.secureBootEnabled := table, crypto, secureBootEnabled;
      setupMode := true;
    }

    /** The stored databases can be walked. */
    ghost predicate Valid()
      reads this, table, table.slots
    {
      table.Valid() && DatabasesWell(table.Contents())
    }

    ghost function State(): Platform
      reads this, table, table.slots
    {
      Platform(table.Contents(), setupMode)
    }

    /**
     Writes a payload that lies in `data` from `offset` on. Appends to a signature database first drop, in the
     buffer, the entries that are already stored.
     */
    method UpdateVariable(k: Key, data: array<byte>, offset: nat, attrs: u32, time: Time) returns (status: Status)
      requires Valid() && WellFormedName(k.name) && offset <= data.Length && attrs != 0
      requires IsSignatureDatabase(k) ==> Complete(data[offset..])
      modifies table`total, table`used, table.slots, data
      ensures table.Valid()
      ensures Outcome(status, table.Contents()) == Update(old(table.Contents()), k, old(data[offset..]), attrs, time)
      ensures status != Success ==> table.State() == old(table.State()) && data[..] == old(data[..])
    {
      hide FilterBytes, SetVarWithTimestamp, Complete, AppendWrite, AsMap, TableWell, WellFormedName;
      NameIsNotEmpty(k.name);
      var i := table.Find(k);
      if i < table.slots.Length && AppendWrite(attrs) && IsSignatureDatabase(k) {
        StoredIsComplete(table.Contents(), k);
        assert data[offset..offset + (data.Length - offset)] == data[offset..];
        var size := FilterSignatureList(table.slots[i].data, data, offset, data.Length - offset);
        if size == 0 {
          return Success;
        }
        RewriteSucceeds(table.Contents(), k, data[offset..offset + size], attrs, time);
        status := table.SetWithTimestamp(k, data[offset..offset + size], attrs, time);
      } else {
        status := table.SetWithTimestamp(k, data[offset..], attrs, time);
      }
    }

    method VerifyPk(sig: bytes, blob: bytes) returns (ok: bool)
      requires table.Valid()
      ensures ok == VerifiedByPk(crypto, table.Contents(), sig, blob)
      ensures var vars := table.Contents();
              ok <==> crypto.parses(sig) && PK in vars && KeySigned(crypto, vars[PK].data, sig, blob)
    {
      hide AsMap, TableWell, CertAt, KeySigned;
      OtherNames();
      PkVerdictIff(crypto, table.Contents(), sig, blob);
      if !crypto.parses(sig) {
        return false;
      }
      var top := crypto.topCert(sig);
      if top.None? {
        return false;
      }
      var i := table.Find(PK);
      if i == table.slots.Length {
        return false;
      }
      if CertAt(table.slots[i].data) != top {
        return false;
      }
      ok := crypto.verify(sig, top.value, blob);
    }

    method VerifyKek(sig: bytes, blob: bytes) returns (ok: bool)
      requires Valid()
      ensures ok == VerifiedByKek(crypto, table.Contents(), sig, blob)
    {
      hide AsMap, TableWell, Complete, Parse, ListsReach;
      DatabaseNames();
      var i := table.Find(KEK);
      if i == table.slots.Length {
        return false;
      }
      if !crypto.parses(sig) {
        return false;
      }
      StoredIsComplete(table.Contents(), KEK);
      ok := VerifyKekLists(crypto, table.slots[i].data, sig, blob);
    }

    method VerifySigner(k: Key, sig: bytes, blob: bytes) returns (ok: bool)
      requires table.Valid() && WellFormedName(k.name)
      ensures ok == VerifiedBySigner(crypto, table.Contents(), k, sig, blob)
      ensures var vars := table.Contents();
              ok <==>
              && crypto.parses(sig) && crypto.topCert(sig).Some? && crypto.verify(sig, crypto.topCert(sig).value, blob)
              && crypto.digest(sig).Some? && (k in vars ==> crypto.digest(sig) == Some(vars[k].cert))
    {
      hide AsMap, TableWell;
      if !crypto.parses(sig) {
        return false;
      }
      var top, digest := crypto.topCert(sig), crypto.digest(sig);
      if top.None? || digest.None? {
        return false;
      }
      var i := table.Find(k);
      if i < table.slots.Length && digest.value != table.slots[i].cert {
        return false;
      }
      ok := crypto.verify(sig, top.value, blob);
    }

    /** All the checks a time-based authenticated write must pass, in order. */
    method VerifyTimeBasedPayload(req: Request, via: Authority) returns (status: Status)
      requires Valid() && WellFormedName(req.key.name) && Verifiable(crypto, table.Contents(), req, via)
      ensures status == VerifyStatus(crypto, table.Contents(), req, via)
    {
      hide AsMap, TableWell, DatabasesWell, WellFormedName, VerifyStatus, Verifiable, HeaderOf, FromLE,
        AppendWrite, NotLater, IsSecureBootVariable;
      NameIsNotEmpty(req.key.name);
      HeaderVerdict(crypto, table.Contents(), req, via);
      var header := HeaderOf(req.data);
      var time := DecodeTime(header[..16]);
      if time.pad1 != 0 || time.nanosecond != 0 || time.timeZone != 0 || time.daylight != 0 || time.pad2 != 0 {
        return SecurityViolation;
      }
      var i := table.Find(req.key);
      if i < table.slots.Length && !AppendWrite(req.attrs) {
        if NotLater(time, table.slots[i].timestamp) {
          return SecurityViolation;
        }
      }
      if Read16(header[22..24]) != WIN_CERT_TYPE_EFI_GUID || header[24..40] != PKCS7_GUID {
        return SecurityViolation;
      }
      status := VerifyBody(req, via);
    }

    /** The checks behind the fixed part of the descriptor. */
    method VerifyBody(req: Request, via: Authority) returns (status: Status)
      requires Valid() && WellFormedName(req.key.name) && !HeaderRefused(table.Contents(), req)
      requires DescriptorFits(req.data) && ListsWalkable(crypto, table.Contents(), req, via)
      ensures status == VerifyStatus(crypto, table.Contents(), req, via)
    {
      hide AsMap, TableWell, DatabasesWell, WellFormedName, FormatStatus, ListsCoverHeaders, HeaderRefused, Verified,
        LengthField, DecodeTime, Fresher, PadsAreZero, IsPkcs7, TimeBased, UpToNul;
      HeaderPassed(table.Contents(), req);
      Routes(req.key);
      var sig := SignedDataOf(req.data);
      if TimeBased(req.attrs) && !crypto.usesSha256(sig) {
        return SecurityViolation;
      }
      var ok := VerifyAgainst(req, via);
      if !ok {
        return SecurityViolation;
      }
      status := CheckSignatureListFormat(crypto, req.key, PayloadOf(req.data));
    }

    method VerifyAgainst(req: Request, via: Authority) returns (ok: bool)
      requires Valid() && WellFormedName(req.key.name) && DescriptorFits(req.data)
      ensures ok == Verified(crypto, table.Contents(), req, via)
    {
      hide AsMap, TableWell, WellFormedName, CertAt, VerifiedByPk, VerifiedByKek, VerifiedBySigner, FromLE;
      var sig, blob := SignedDataOf(req.data), SignedBlob(req);
      match via
      case ByPk => ok := VerifyPk(sig, blob);
      case ByPayload =>
        var cert := CertAt(PayloadOf(req.data));
        ok := cert.Some? && crypto.parsesX509(cert.value) && crypto.parses(sig) && crypto.verify(sig, cert.value, blob);
      case ByKek => ok := VerifyKek(sig, blob);
      case ByPriv => ok := VerifySigner(req.key, sig, blob);
    }

    /** Verifies an authenticated write, performs it, and records who signed it. */
    method VerifyAndUpdateVariable(k: Key, data: array<byte>, attrs: u32, via: Authority)
      returns (status: Status, deleted: bool)
      requires Valid() && TimeBased(attrs) && WellFormedName(k.name)
      requires Verifiable(crypto, table.Contents(), Request(k, data[..], attrs), via)
      modifies table`total, table`used, table.slots, data
      ensures Valid()
      ensures Updated(status, table.Contents(), deleted)
              == VerifyAndUpdate(crypto, old(table.Contents()), Request(k, old(data[..]), attrs), via)
      ensures VerifiedHasDigest(crypto) && status != Success ==>
                table.State() == old(table.State()) && data[..] == old(data[..])
    {
      hide AsMap, TableWell, WellFormedName, VerifyStatus, Update, Complete, DatabasesWell, TimeBased, AppendWrite,
        Verifiable, LengthField, ValidVars, VerifiedHasDigest, DecodeTime, IsSecureBootVariable;
      var req := Request(k, data[..], attrs);
      ghost var before := table.Contents();
      TimeBasedIsNotZero(attrs);
      NameIsNotEmpty(k.name);
      MapIsValid(table.slots[..]);
      VerifyAndUpdateForm(crypto, before, req, via);
      if VerifyStatus(crypto, before, req, via) == Success {
        VerifiedFormat(crypto, before, req, via);
        UpdateNeeds(crypto, before, req, via);
      }
      deleted := false;
      status := VerifyTimeBasedPayload(req, via);
      if status != Success {
        return;
      }
      var i := table.Find(k);
      var isDel := i < table.slots.Length && PayloadOf(req.data) == [] && !AppendWrite(attrs);
      assert data[DescriptorSize(req.data)..] == PayloadOf(req.data);
      status := UpdateVariable(k, data, DescriptorSize(req.data), attrs, TimestampOf(req.data));
      if status == Success && !isDel {
        // the variable was just written, so it is found again
        var digest := crypto.digest(SignedDataOf(req.data));
        if digest.None? {
          return SecurityViolation, false;
        }
        table.SetCert(k, digest.value);
        return;
      }
      deleted := isDel && status == Success;
    }

    /** Switches the platform mode and rewrites the mirror variables. */
    method UpdatePlatformMode(setup: bool) returns (status: Status)
      requires table.Valid()
      modifies this`setupMode, table`total, table`used, table.slots
      ensures table.Valid()
      ensures Step(status, State()) == UpdateMode(old(table.Contents()), setup, secureBootEnabled)
    {
      hide AsMap, TableWell, SetVar;
      MirrorNames();
      setupMode := setup;
      status := table.Set(SECURE_BOOT, [SecureBootByte(secureBootEnabled, setup)], BS_RT);
      if status != Success {
        return;
      }
      status := table.Set(SETUP_MODE, [ModeByte(setup)], BS_RT);
      if status != Success {
        return;
      }
      status := table.Set(DEPLOYED_MODE, [ModeByte(setup)], BS_RT);
    }

    /** The setup-mode route of a signature database: no verification, only the format is checked. */
    method UpdateWithoutVerification(k: Key, data: array<byte>, attrs: u32) returns (status: Status)
      requires Valid() && IsSecureBootVariable(k) && TimeBased(attrs) && WellFormedName(k.name)
      requires PayloadFits(data[..]) && ListsCoverHeaders(PayloadOf(data[..]))
      modifies table`total, table`used, table.slots, data
      ensures Valid()
      ensures Outcome(status, table.Contents())
              == UpdateUnverified(crypto, old(table.Contents()), Request(k, old(data[..]), attrs))
      ensures status != Success ==> table.State() == old(table.State()) && data[..] == old(data[..])
    {
      hide AsMap, TableWell, WellFormedName, Update, Complete, DatabasesWell, TimeBased, AppendWrite,
        ListsCoverHeaders, LengthField, ValidVars, FormatStatus, WellFormedLists, DecodeTime;
      var req := Request(k, data[..], attrs);
      TimeBasedIsNotZero(attrs);
      MapIsValid(table.slots[..]);
      UnverifiedFrame(crypto, table.Contents(), req);
      status := CheckSignatureListFormat(crypto, k, PayloadOf(req.data));
      if status != Success {
        return;
      }
      AcceptedForm(crypto, k, PayloadOf(req.data));
      WellFormedIsComplete(PayloadOf(req.data));
      assert data[DescriptorSize(req.data)..] == PayloadOf(req.data);
      status := UpdateVariable(k, data, DescriptorSize(req.data), attrs, TimestampOf(req.data));
    }

    /** PK, KEK and db/dbx/dbt against the stored platform key; in setup mode against the payload or not at all. */
    method ProcessVarWithPk(k: Key, data: array<byte>, attrs: u32, isPk: bool) returns (status: Status)
      requires Valid() && IsSecureBootVariable(k) && (isPk <==> k == PK)
      requires Readable(crypto, State(), Request(k, data[..], attrs))
      modifies this`setupMode, table`total, table`used, table.slots, data
      ensures Valid()
      ensures Step(status, State())
              == ProcessWithPk(crypto, secureBootEnabled, old(State()), Request(k, old(data[..]), attrs), isPk)
      ensures VerifiedHasDigest(crypto) && (isPk ==> MirrorsExist(old(table.Contents()))) && status != Success ==>
                table.State() == old(table.State()) && setupMode == old(setupMode) && data[..] == old(data[..])
    {
      hide AsMap, TableWell, WellFormedName, TimeBased, DescriptorFits, ListsCoverHeaders, LengthField,
        VerifyAndUpdate, UpdateUnverified, UpdateMode, DatabasesWell, NonVolatile, ValidVars;
      if !NonVolatile(attrs) || !TimeBased(attrs) {
        return InvalidParameter;
      }
      var del := false;
      if setupMode {
        if isPk {
          status, del := VerifyAndUpdateVariable(k, data, attrs, ByPayload);
        } else {
          status := UpdateWithoutVerification(k, data, attrs);
          return;
        }
      } else {
        status, del := VerifyAndUpdateVariable(k, data, attrs, ByPk);
      }
      if status == Success && isPk && setupMode != del {
        ghost var before, vars := old(table.Contents()), table.Contents();
        ghost var req := Request(k, old(data[..]), attrs);
        MapIsValid(old(table.slots[..]));
        VerifyAndUpdateFrame(crypto, before, req, if setupMode then ByPayload else ByPk);
        ModeKeepsForm(before, vars, !setupMode, secureBootEnabled);
        status := UpdatePlatformMode(!setupMode);
      }
    }

    method ProcessVarWithKek(k: Key, data: array<byte>, attrs: u32) returns (status: Status)
      requires Valid() && (k == DB || k == DBX || k == DBT) && Readable(crypto, State(), Request(k, data[..], attrs))
      modifies table`total, table`used, table.slots, data
      ensures Valid()
      ensures Step(status, State()) == ProcessWithKek(crypto, old(State()), Request(k, old(data[..]), attrs))
      ensures VerifiedHasDigest(crypto) && status != Success ==> table.State() == old(table.State())
    {
      hide AsMap, TableWell, WellFormedName, TimeBased, PayloadFits, ListsCoverHeaders, LengthField,
        VerifyAndUpdate, UpdateUnverified, DatabasesWell, NonVolatile;
      if !NonVolatile(attrs) || !TimeBased(attrs) {
        return InvalidParameter;
      }
      if !setupMode {
        var del;
        status, del := VerifyAndUpdateVariable(k, data, attrs, ByKek);
      } else {
        status := UpdateWithoutVerification(k, data, attrs);
      }
    }

    /** Variables outside the secure-boot set: authenticated ones answer to their own signer. */
    method ProcessPrivate(k: Key, data: array<byte>, attrs: u32) returns (status: Status)
      requires Valid() && !IsSecureBootVariable(k) && Readable(crypto, State(), Request(k, data[..], attrs))
      modifies table`total, table`used, table.slots, data
      ensures Valid()
      ensures Step(status, State()) == ProcessVariable(crypto, old(State()), Request(k, old(data[..]), attrs))
      ensures VerifiedHasDigest(crypto) && status != Success ==> table.State() == old(table.State())
    {
      MapIsValid(table.slots[..]);
      PlainStep(State(), k, [], 0);
      PlainStep(State(), k, data[..], attrs);
      hide AsMap, TableWell, WellFormedName, TimeBased, DescriptorFits, ListsCoverHeaders, LengthField,
        VerifyAndUpdate, DatabasesWell, CounterAuth, SetVar, ValidVars;
      var i := table.Find(k);
      if i < table.slots.Length && IsDeleteAuth(table.slots[i].attrs, data[..], attrs) {
        status := table.Set(k, [], 0);
      } else if CounterAuth(attrs) {
        status := Unsupported;
      } else if TimeBased(attrs) {
        var del;
        status, del := VerifyAndUpdateVariable(k, data, attrs, ByPriv);
      } else {
        status := table.Set(k, data[..], attrs);
      }
    }

    /** Chooses the route by name; db, dbx and dbt try the platform key and then the key exchange keys. */
    method Process(k: Key, data: array<byte>, attrs: u32) returns (status: Status)
      requires Valid() && VerifiedHasDigest(crypto) && Readable(crypto, State(), Request(k, data[..], attrs))
      modifies this`setupMode, table`total, table`used, table.slots, data
      ensures Valid()
      ensures Step(status, State())
              == Dispatch(crypto, secureBootEnabled, old(State()), Request(k, old(data[..]), attrs))
      ensures (k == PK ==> MirrorsExist(old(table.Contents()))) && status != Success ==>
                table.State() == old(table.State()) && setupMode == old(setupMode)
    {
      Routes(k);
      DistinctKeys();
      hide AsMap, TableWell, ProcessWithPk, ProcessWithKek, ProcessVariable, UpToNul, Readable, DatabasesWell;
      if NamesPk(k) {
        status := ProcessVarWithPk(k, data, attrs, true);
      } else if NamesKek(k) {
        status := ProcessVarWithPk(k, data, attrs, false);
      } else if NamesDb(k) {
        status := ProcessVarWithPk(k, data, attrs, false);
        if status != Success {
          status := ProcessVarWithKek(k, data, attrs);
        }
      } else {
        status := ProcessPrivate(k, data, attrs);
      }
    }

    /**
     SetVariable as the guest calls it. Anything but success leaves every slot, both counters and the platform mode
     exactly as they were.
     */
    method HandleSetVariable(k: Key, data: array<byte>, attrs: u32) returns (status: Status)
      requires table.Valid() && Inv(secureBootEnabled, State())
      requires VerifiedHasDigest(crypto)
      requires RefusedEarly(Request(k, data[..], attrs)) || Readable(crypto, State(), Request(k, data[..], attrs))
      modifies this`setupMode, table`total, table`used, table.slots, data
      ensures table.Valid() && Inv(secureBootEnabled, State())
      ensures Step(status, State())
              == SetVariable(crypto, secureBootEnabled, old(State()), Request(k, old(data[..]), attrs))
      ensures status != Success ==> table.State() == old(table.State()) && setupMode == old(setupMode)
    {
      hide AsMap, TableWell, Dispatch, UpToNul, Readable, DatabasesWell, SetVar, Runtime, BootService, TimeBased,
        EvaluateAttrs, IsReadOnly, WellFormedName, ValidVars, Inv, VerifiedHasDigest, MirrorsExist;
      if !RefusedEarly(Request(k, data[..], attrs)) {
        ReadableName(crypto, State(), Request(k, data[..], attrs));
        StepKeepsInv(crypto, secureBootEnabled, State(), Request(k, data[..], attrs));
      }
      InvParts(secureBootEnabled, State());
      if NameStartsWithZero(k.name) || (Runtime(attrs) && !BootService(attrs)) {
        return InvalidParameter;
      }
      if IsReadOnly(k) {
        return WriteProtected;
      }
      status := EvaluateAttrs(attrs);
      if status != Success {
        return;
      }
      if TimeBased(attrs) || IsSecureBootVariable(k) {
        status := Process(k, data, attrs);
      } else {
        status := table.Set(k, data[..], attrs);
      }
    }

    /** Loads the prepared writes of variables that are not stored yet, stopping at the first failure. */
    method LoadFiles(files: seq<Request>) returns (status: Status)
      requires Valid() && VerifiedHasDigest(crypto) && WellNames(files)
      requires FilesReadable(crypto, secureBootEnabled, State(), files)
      modifies this`setupMode, table`total, table`used, table.slots
      ensures Valid()
      ensures Step(status, State()) == LoadAuthFiles(crypto, secureBootEnabled, old(State()), files)
      ensures status == Success <==>
              forall i :: 0 <= i < |files| ==> TurnSucceeds(crypto, secureBootEnabled, old(State()), files, i)
      ensures status == Success ==> State() == Turn(crypto, secureBootEnabled, old(State()), files, |files|)
    {
      hide AsMap, TableWell, Dispatch, DatabasesWell, FileReadable, WellFormedName, TurnSucceeds, Turn;
      status := Success;
      ghost var start := State();
      LoadIff(crypto, secureBootEnabled, start, files);
      for i := 0 to |files|
        invariant Valid() && status == Success
        invariant FilesReadable(crypto, secureBootEnabled, State(), files[i..])
        invariant LoadAuthFiles(crypto, secureBootEnabled, start, files)
               == LoadAuthFiles(crypto, secureBootEnabled, State(), files[i..])
      {
        var f := files[i];
        NameIsNotEmpty(f.key.name);
        assert files[i..][0] == f && files[i..][1..] == files[i + 1..];
        var at := table.Find(f.key);
        if at < table.slots.Length || |f.data| == 0 {
          continue;
        }
        FileIsReadable(crypto, State(), f);
        var data := CopyOf(f.data);
        status := Process(f.key, data, f.attrs);
        if status != Success {
          return;
        }
      }
    }

    /** Start-up on a restored table: setup mode first, prepared files next, user mode if a platform key is there. */
    method InitialiseService(files: seq<Request>) returns (status: Status)
      requires Valid() && VerifiedHasDigest(crypto) && WellNames(files)
      requires FilesReadable(crypto, secureBootEnabled, BeforeFiles(table.Contents(), secureBootEnabled), files)
      modifies this`setupMode, table`total, table`used, table.slots
      ensures table.Valid()
      ensures status == Success ==>
                Step(status, State()) == Initialise(crypto, secureBootEnabled, old(table.Contents()), files)
                && Inv(secureBootEnabled, State())
      ensures status != Success ==>
                status == Initialise(crypto, secureBootEnabled, old(table.Contents()), files).status
    {
      hide AsMap, TableWell, UpdateMode, LoadAuthFiles, SetVar, DatabasesWell, FilesReadable, Inv, ValidVars,
        WellFormedName, VerifiedHasDigest;
      OtherNames();
      ghost var before := table.Contents();
      MapIsValid(table.slots[..]);
      InitialiseEstablishesInv(crypto, secureBootEnabled, before, files);
      PlainStep(Platform(before, true), SIGNATURE_SUPPORT, SIGNATURE_SUPPORT_VALUE, BS_RT);
      status := table.Set(SIGNATURE_SUPPORT, SIGNATURE_SUPPORT_VALUE, BS_RT);
      if status != Success {
        return;
      }
      ModeKeepsDatabases(table.Contents(), true, secureBootEnabled);
      status := UpdatePlatformMode(true);
      if status != Success {
        return;
      }
      status := LoadFiles(files);
      if status != Success {
        return;
      }
      var pk := table.Find(PK);
      if pk < table.slots.Length {
        status := UpdatePlatformMode(false);
        if status != Success {
          return;
        }
      }
      status := table.Set(AUDIT_MODE, [0], BS_RT);
    }
  }

  method CopyOf(s: bytes) returns (a: array<byte>)
    ensures fresh(a) && a[..] == s
  {
    a := new byte[|s|];
    forall i | 0 <= i < |s| {
      a[i] := s[i];
    }
  }

  lemma FileIsReadable(c: Crypto, p: Platform, f: Request)
    requires FileReadable(c, p, f)
    ensures Readable(c, p, f)
  {
    hide Readable;
  }

  /** The fixed part of a whole descriptor is its front. */
  lemma HeaderIsFront(data: bytes)
    requires DescriptorFits(data)
    ensures var h := HeaderOf(data); h[..16] == data[..16] && h[22..24] == data[22..24] && h[24..40] == data[24..40]
  {
    hide LengthField;
  }

  lemma HeaderVerdict(c: Crypto, vars: Vars, req: Request, via: Authority)
    requires Verifiable(c, vars, req, via)
    ensures HeaderRefused(vars, req) ==> VerifyStatus(c, vars, req, via) == SecurityViolation
    ensures !HeaderRefused(vars, req) ==>
              DescriptorFits(req.data) && ListsWalkable(c, vars, req, via)
  {
    hide LengthField, DecodeTime, AppendWrite, NotLater, FromLE, HeaderOf, Verified, FormatStatus, ListsWalkable;
    if DescriptorFits(req.data) {
      HeaderIsFront(req.data);
    }
  }

  lemma HeaderPassed(vars: Vars, req: Request)
    requires DescriptorFits(req.data) && !HeaderRefused(vars, req)
    ensures PadsAreZero(TimestampOf(req.data)) && Fresher(vars, req) && IsPkcs7(req.data)
  {
    hide LengthField, DecodeTime, AppendWrite, NotLater, FromLE, HeaderOf;
    HeaderIsFront(req.data);
  }

  lemma ReadableName(c: Crypto, p: Platform, req: Request)
    requires Readable(c, p, req)
    ensures WellFormedName(req.key.name) && req.key.name != []
  {
  }

  lemma NameIsNotEmpty(name: bytes)
    requires WellFormedName(name)
    ensures name != []
  {
  }

  lemma WellFormedIsComplete(s: bytes)
    requires WellFormedLists(s)
    ensures Complete(s)
  {
  }

  /** Switching the mode after a platform key write keeps the databases and cannot fail once the mirrors exist. */
  lemma ModeKeepsForm(before: Vars, vars: Vars, setup: bool, host: bool)
    requires ValidVars(vars) && DatabasesWell(vars) && OnlyAt(PK, before, vars)
    ensures DatabasesWell(UpdateMode(vars, setup, host).platform.vars)
    ensures MirrorsExist(before) ==> UpdateMode(vars, setup, host).status == Success
  {
    hide UpdateMode, ValidVars, DatabasesWell;
    DistinctKeys();
    ModeFrame(vars, setup, host);
    ModeKeepsDatabases(vars, setup, host);
    AgreeElsewhere(before, vars, PK);
    assert SameAt(before, vars, SECURE_BOOT) && SameAt(before, vars, SETUP_MODE) && SameAt(before, vars, DEPLOYED_MODE);
  }

  /** What a verified request guarantees about the update that follows. */
  lemma UpdateNeeds(c: Crypto, vars: Vars, req: Request, via: Authority)
    requires WellFormedName(req.key.name) && TimeBased(req.attrs) && DescriptorFits(req.data)
    ensures VerifyStatus(c, vars, req, via) == Success ==>
              && (VerifiedHasDigest(c) ==> c.digest(SignedDataOf(req.data)).Some?)
              && (IsSignatureDatabase(req.key) ==> Complete(PayloadOf(req.data)))
              && var u := Update(vars, req.key, PayloadOf(req.data), req.attrs, TimestampOf(req.data));
                 u.status == Success && !IsDeletion(vars, req) ==> req.key in u.vars
  {
    if VerifyStatus(c, vars, req, via) == Success {
      if VerifiedHasDigest(c) {
        VerifiedDigest(c, vars, req, via);
      }
      TimeBasedIsNotZero(req.attrs);
      if IsSignatureDatabase(req.key) {
        AcceptedForm(c, req.key, PayloadOf(req.data));
      }
      hide Update, FormatStatus, Verified, WellFormedName;
      var u := Update(vars, req.key, PayloadOf(req.data), req.attrs, TimestampOf(req.data));
      if u.status == Success && !IsDeletion(vars, req) {
        UpdatePresence(vars, req.key, PayloadOf(req.data), req.attrs, TimestampOf(req.data));
        StaysPresent(vars, req);
      }
    }
  }

  lemma DatabaseNames()
    ensures WellFormedName(KEK_NAME) && WellFormedName(DB_NAME) && WellFormedName(DBX_NAME) && WellFormedName(DBT_NAME)
  {
  }

  lemma StoredIsComplete(vars: Vars, k: Key)
    requires DatabasesWell(vars) && k in vars && IsSecureBootVariable(k)
    ensures Complete(vars[k].data)
  {
  }

  /** Writing data to a variable that exists is always reported as a success. */
  lemma RewriteSucceeds(vars: Vars, k: Key, data: bytes, attrs: u32, time: Time)
    requires k in vars && data != [] && attrs != 0
    ensures SetVarWithTimestamp(vars, k, data, attrs, time).status == Success
  {
  }
}
