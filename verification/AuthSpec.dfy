/**
 SetVariable with authentication, as a function on the platform state: the variable map and the platform mode.
 A descriptor that does not fit the data it arrived in is refused here; reading past the data is not modelled.
 */
module AuthSpec {
  import opened Bytes
  import opened Uefi
  import opened SignatureLists
  import opened SignatureWalks
  import opened Crypto
  import opened VariableMap

  /** The platform is in setup mode or in user mode. */
  datatype Platform = Platform(vars: Vars, setup: bool)

  datatype Step = Step(status: Status, platform: Platform)

  datatype Request = Request(key: Key, data: bytes, attrs: u32)

  // ---- The authentication descriptor in front of the payload

  const TIME_SIZE: nat := 16
  const CERT_DATA_OFFSET: nat := 40
  const CERT_HEADER_SIZE: nat := 24
  const WIN_CERT_TYPE_EFI_GUID: nat := 0x0EF1
  const COUNTER_AUTH_INFO_SIZE: nat := 560

  /** Requests are read into a zeroed buffer, so bytes behind the data are zero. */
  function ByteAt(data: bytes, i: nat): byte {
    if i < |data| then data[i] else 0
  }

  function LengthField(data: bytes): u32 {
    Read32([ByteAt(data, 16), ByteAt(data, 17), ByteAt(data, 18), ByteAt(data, 19)])
  }

  function DescriptorSize(data: bytes): nat {
    TIME_SIZE + LengthField(data)
  }

  /** The payload starts inside the data it arrived in; the unverified routes ask no more of the length field. */
  predicate PayloadFits(data: bytes) {
    DescriptorSize(data) <= |data|
  }

  predicate DescriptorFits(data: bytes) {
    LengthField(data) >= CERT_HEADER_SIZE && PayloadFits(data)
  }

  function TimestampOf(data: bytes): Time
    requires PayloadFits(data)
  {
    DecodeTime(data[..16])
  }

  function SignedDataOf(data: bytes): bytes
    requires DescriptorFits(data)
  {
    data[CERT_DATA_OFFSET..DescriptorSize(data)]
  }

  function PayloadOf(data: bytes): bytes
    requires PayloadFits(data)
  {
    data[DescriptorSize(data)..]
  }

  predicate IsPkcs7(data: bytes)
    requires DescriptorFits(data)
  {
    Read16(data[22..24]) == WIN_CERT_TYPE_EFI_GUID && data[24..40] == PKCS7_GUID
  }

  predicate PadsAreZero(t: Time) {
    t.pad1 == 0 && t.nanosecond == 0 && t.timeZone == 0 && t.daylight == 0 && t.pad2 == 0
  }

  /** What the signature is made over: name, GUID, attributes, timestamp and payload. */
  function SignedBlob(req: Request): bytes
    requires DescriptorFits(req.data)
  {
    UpToNul(req.key.name) + req.key.guid + ToLE(req.attrs, 4) + req.data[..16] + PayloadOf(req.data)
  }

  // ---- The four ways to verify

  datatype Authority = ByPk | ByKek | ByPriv | ByPayload

  predicate VerifiedByPk(c: Crypto, vars: Vars, sig: bytes, blob: bytes) {
    && c.parses(sig)
    && c.topCert(sig).Some?
    && PK in vars
    && CertAt(vars[PK].data) == c.topCert(sig)
    && c.verify(sig, c.topCert(sig).value, blob)
  }

  predicate VerifiedByKek(c: Crypto, vars: Vars, sig: bytes, blob: bytes) {
    && KEK in vars
    && c.parses(sig)
    && Complete(vars[KEK].data)
    && ListsReach(c, sig, blob, Parse(vars[KEK].data))
  }

  predicate VerifiedBySigner(c: Crypto, vars: Vars, k: Key, sig: bytes, blob: bytes) {
    && c.parses(sig)
    && c.topCert(sig).Some?
    && c.digest(sig).Some?
    && (k in vars ==> c.digest(sig).value == vars[k].cert)
    && c.verify(sig, c.topCert(sig).value, blob)
  }

  predicate VerifiedByPayload(c: Crypto, payload: bytes, sig: bytes, blob: bytes) {
    && CertAt(payload).Some?
    && c.parsesX509(CertAt(payload).value)
    && c.parses(sig)
    && c.verify(sig, CertAt(payload).value, blob)
  }

  predicate Verified(c: Crypto, vars: Vars, req: Request, via: Authority)
    requires DescriptorFits(req.data)
  {
    var sig, blob := SignedDataOf(req.data), SignedBlob(req);
    match via
    case ByPk => VerifiedByPk(c, vars, sig, blob)
    case ByKek => VerifiedByKek(c, vars, sig, blob)
    case ByPriv => VerifiedBySigner(c, vars, req.key, sig, blob)
    case ByPayload => VerifiedByPayload(c, PayloadOf(req.data), sig, blob)
  }

  /** The timestamp rule: a write that is not an append must be later than the stored variable. */
  predicate Fresher(vars: Vars, req: Request)
    requires DescriptorFits(req.data)
  {
    req.key in vars && !AppendWrite(req.attrs) ==> !NotLater(TimestampOf(req.data), vars[req.key].timestamp)
  }

  const ZERO_HEADER: bytes :=
    [0, 0, 0, 0, 0, 0, 0, 0, 0, 0, 0, 0, 0, 0, 0, 0, 0, 0, 0, 0,
     0, 0, 0, 0, 0, 0, 0, 0, 0, 0, 0, 0, 0, 0, 0, 0, 0, 0, 0, 0]

  /** The fixed part of a descriptor as it lies in the zeroed buffer. */
  function HeaderOf(data: bytes): (h: bytes)
    ensures |h| == CERT_DATA_OFFSET
  {
    if |data| >= CERT_DATA_OFFSET then data[..CERT_DATA_OFFSET] else data + ZERO_HEADER[|data|..]
  }

  /** Requests turned down from the fixed part of their descriptor, before any of its sizes is used. */
  predicate HeaderRefused(vars: Vars, req: Request) {
    var h := HeaderOf(req.data);
    var time := DecodeTime(h[..16]);
    || !PadsAreZero(time)
    || (req.key in vars && !AppendWrite(req.attrs) && NotLater(time, vars[req.key].timestamp))
    || Read16(h[22..24]) != WIN_CERT_TYPE_EFI_GUID || h[24..40] != PKCS7_GUID
  }

  function VerifyStatus(c: Crypto, vars: Vars, req: Request, via: Authority): Status {
    if !DescriptorFits(req.data) then SecurityViolation
    else if !PadsAreZero(TimestampOf(req.data)) then SecurityViolation
    else if !Fresher(vars, req) then SecurityViolation
    else if !IsPkcs7(req.data) then SecurityViolation
    else if TimeBased(req.attrs) && !c.usesSha256(SignedDataOf(req.data)) then SecurityViolation
    else if !Verified(c, vars, req, via) then SecurityViolation
    else FormatStatus(c, req.key, PayloadOf(req.data))
  }

  // ---- Updating

  /** Appends to these variables drop the entries that are already stored. */
  predicate IsSignatureDatabase(k: Key) {
    k == KEK || k == DB || k == DBX || k == DBT
  }

  function Update(vars: Vars, k: Key, payload: bytes, attrs: u32, time: Time): Outcome {
    if k in vars && AppendWrite(attrs) && IsSignatureDatabase(k) then
      var rest := FilterBytes(vars[k].data, payload);
      if rest == [] then Outcome(Success, vars) else SetVarWithTimestamp(vars, k, rest, attrs, time)
    else SetVarWithTimestamp(vars, k, payload, attrs, time)
  }

  predicate IsDeletion(vars: Vars, req: Request)
    requires DescriptorFits(req.data)
  {
    req.key in vars && PayloadOf(req.data) == [] && !AppendWrite(req.attrs)
  }

  datatype Updated = Updated(status: Status, vars: Vars, deleted: bool)

  /** Records the signer digest of a written variable; without a digest the write stays but is reported as failed. */
  function RecordSigner(c: Crypto, u: Outcome, k: Key, sig: bytes): Updated {
    if k !in u.vars then Updated(NotFound, u.vars, false)
    else match c.digest(sig)
      case None => Updated(SecurityViolation, u.vars, false)
      case Some(d) => Updated(Success, u.vars[k := u.vars[k].(cert := d)], false)
  }

  function VerifyAndUpdate(c: Crypto, vars: Vars, req: Request, via: Authority): Updated {
    var status := VerifyStatus(c, vars, req, via);
    if status != Success || !DescriptorFits(req.data) then Updated(status, vars, false)
    else
      var u := Update(vars, req.key, PayloadOf(req.data), req.attrs, TimestampOf(req.data));
      if u.status == Success && !IsDeletion(vars, req) then
        RecordSigner(c, u, req.key, SignedDataOf(req.data))
      else
        Updated(u.status, u.vars, u.status == Success)
  }

  // ---- The platform mode and its mirror variables

  function SecureBootByte(host: bool, setup: bool): byte {
    if !setup && host then 1 else 0
  }

  function ModeByte(setup: bool): byte {
    if setup then 1 else 0
  }

  /** Sets the mode, then rewrites SecureBoot, SetupMode and DeployedMode, stopping at the first write that fails. */
  function UpdateMode(vars: Vars, setup: bool, host: bool): Step {
    var r1 := SetVar(vars, SECURE_BOOT, [SecureBootByte(host, setup)], BS_RT);
    if r1.status != Success then Step(r1.status, Platform(r1.vars, setup))
    else
      var r2 := SetVar(r1.vars, SETUP_MODE, [ModeByte(setup)], BS_RT);
      if r2.status != Success then Step(r2.status, Platform(r2.vars, setup))
      else
        var r3 := SetVar(r2.vars, DEPLOYED_MODE, [ModeByte(setup)], BS_RT);
        Step(r3.status, Platform(r3.vars, setup))
  }

  // ---- The routes

  predicate HasDatabaseAttrs(attrs: u32) {
    NonVolatile(attrs) && TimeBased(attrs)
  }

  /** In setup mode a signature database is written without verification, once its format is right. */
  function UpdateUnverified(c: Crypto, vars: Vars, req: Request): Outcome {
    if !PayloadFits(req.data) then Outcome(InvalidParameter, vars)
    else
      var payload := PayloadOf(req.data);
      var status := FormatStatus(c, req.key, payload);
      if status != Success then Outcome(status, vars)
      else Update(vars, req.key, payload, req.attrs, TimestampOf(req.data))
  }

  function ProcessWithPk(c: Crypto, host: bool, p: Platform, req: Request, isPk: bool): Step {
    if !HasDatabaseAttrs(req.attrs) then Step(InvalidParameter, p)
    else if p.setup && !isPk then
      var r := UpdateUnverified(c, p.vars, req);
      Step(r.status, Platform(r.vars, p.setup))
    else
      var r := VerifyAndUpdate(c, p.vars, req, if p.setup then ByPayload else ByPk);
      if r.status != Success || !isPk then Step(r.status, Platform(r.vars, p.setup))
      else if p.setup && !r.deleted then UpdateMode(r.vars, false, host)
      else if !p.setup && r.deleted then UpdateMode(r.vars, true, host)
      else Step(r.status, Platform(r.vars, p.setup))
  }

  function ProcessWithKek(c: Crypto, p: Platform, req: Request): Step {
    if !HasDatabaseAttrs(req.attrs) then Step(InvalidParameter, p)
    else if !p.setup then
      var r := VerifyAndUpdate(c, p.vars, req, ByKek);
      Step(r.status, Platform(r.vars, p.setup))
    else
      var r := UpdateUnverified(c, p.vars, req);
      Step(r.status, Platform(r.vars, p.setup))
  }

  /** A variable is deleted by a request with its own attributes and nothing behind the descriptor. */
  predicate IsDeleteAuth(orgAttrs: u32, data: bytes, attrs: u32) {
    attrs == orgAttrs &&
    if TimeBased(attrs) then |data| == DescriptorSize(data)
    else CounterAuth(attrs) && |data| == COUNTER_AUTH_INFO_SIZE
  }

  function ProcessVariable(c: Crypto, p: Platform, req: Request): Step {
    if req.key in p.vars && IsDeleteAuth(p.vars[req.key].attrs, req.data, req.attrs) then
      var r := SetVar(p.vars, req.key, [], 0);
      Step(r.status, Platform(r.vars, p.setup))
    else if CounterAuth(req.attrs) then Step(Unsupported, p)
    else if TimeBased(req.attrs) then
      var r := VerifyAndUpdate(c, p.vars, req, ByPriv);
      Step(r.status, Platform(r.vars, p.setup))
    else
      var r := SetVar(p.vars, req.key, req.data, req.attrs);
      Step(r.status, Platform(r.vars, p.setup))
  }

  function Dispatch(c: Crypto, host: bool, p: Platform, req: Request): Step {
    if NamesPk(req.key) then ProcessWithPk(c, host, p, req, true)
    else if NamesKek(req.key) then ProcessWithPk(c, host, p, req, false)
    else if NamesDb(req.key) then
      var r := ProcessWithPk(c, host, p, req, false);
      if r.status != Success then ProcessWithKek(c, r.platform, req) else r
    else ProcessVariable(c, p, req)
  }

  // ---- The request handler

  predicate SameName(name: bytes, lit: bytes) {
    |name| == |lit| && UpToNul(name) == lit
  }

  /** The mirrors of the platform mode cannot be written by the guest. */
  predicate IsReadOnly(k: Key) {
    k.guid == GLOBAL_GUID &&
    (SameName(k.name, SECURE_BOOT_NAME) || SameName(k.name, SETUP_MODE_NAME) || SameName(k.name, AUDIT_MODE_NAME)
     || SameName(k.name, DEPLOYED_MODE_NAME) || SameName(k.name, SIGNATURE_SUPPORT_NAME))
  }

  predicate IsSecureBootVariable(k: Key) {
    k == PK || k == KEK || k == DB || k == DBX || k == DBT
  }

  function EvaluateAttrs(attrs: u32): Status {
    if HardwareError(attrs) then Unsupported
    else if Runtime(attrs) && !BootService(attrs) then InvalidParameter
    else if TimeBased(attrs) && CounterAuth(attrs) then SecurityViolation
    else if CounterAuth(attrs) then Unsupported
    else Success
  }

  /** Only the first byte of the name is looked at. */
  predicate NameStartsWithZero(name: bytes) {
    ByteAt(name, 0) == 0
  }

  /** Requests turned down before their data is looked at. */
  predicate RefusedEarly(req: Request) {
    || NameStartsWithZero(req.key.name)
    || (Runtime(req.attrs) && !BootService(req.attrs))
    || IsReadOnly(req.key)
    || EvaluateAttrs(req.attrs) != Success
  }

  function SetVariable(c: Crypto, host: bool, p: Platform, req: Request): Step {
    if NameStartsWithZero(req.key.name) || (Runtime(req.attrs) && !BootService(req.attrs)) then
      Step(InvalidParameter, p)
    else if IsReadOnly(req.key) then Step(WriteProtected, p)
    else if EvaluateAttrs(req.attrs) != Success then Step(EvaluateAttrs(req.attrs), p)
    else if TimeBased(req.attrs) || IsSecureBootVariable(req.key) then Dispatch(c, host, p, req)
    else
      var r := SetVar(p.vars, req.key, req.data, req.attrs);
      Step(r.status, Platform(r.vars, p.setup))
  }

  // ---- Initialisation

  const SIGNATURE_SUPPORT_VALUE: bytes := SHA1_GUID + SHA256_GUID + RSA2048_GUID + X509_GUID

  /** Loads prepared writes for the variables that do not exist yet, stopping at the first failure. */
  function LoadAuthFiles(c: Crypto, host: bool, p: Platform, files: seq<Request>): Step
    decreases files
  {
    if files == [] then Step(Success, p)
    else if files[0].key in p.vars || files[0].data == [] then LoadAuthFiles(c, host, p, files[1..])
    else
      var r := Dispatch(c, host, p, files[0]);
      if r.status != Success then r else LoadAuthFiles(c, host, r.platform, files[1..])
  }

  /** The platform in which prepared files are loaded. */
  function BeforeFiles(vars: Vars, host: bool): Platform {
    UpdateMode(SetVar(vars, SIGNATURE_SUPPORT, SIGNATURE_SUPPORT_VALUE, BS_RT).vars, true, host).platform
  }

  function Initialise(c: Crypto, host: bool, vars: Vars, files: seq<Request>): Step {
    var r0 := SetVar(vars, SIGNATURE_SUPPORT, SIGNATURE_SUPPORT_VALUE, BS_RT);
    if r0.status != Success then Step(r0.status, Platform(r0.vars, true))
    else
      var r1 := UpdateMode(r0.vars, true, host);
      if r1.status != Success then r1
      else
        var r2 := LoadAuthFiles(c, host, r1.platform, files);
        if r2.status != Success then r2
        else
          var r3 := if PK in r2.platform.vars then UpdateMode(r2.platform.vars, false, host) else r2;
          if r3.status != Success then r3
          else
            var r4 := SetVar(r3.platform.vars, AUDIT_MODE, [0], BS_RT);
            Step(r4.status, Platform(r4.vars, r3.platform.setup))
  }
}
