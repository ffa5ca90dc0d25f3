/** What happens when a verified descriptor has no signer digest: the write is kept although failure is reported. */
module MissingDigest {
  import opened Bytes
  import opened Uefi
  import opened SignatureLists
  import opened SignatureWalks
  import opened Crypto
  import opened VariableMap
  import opened AuthSpec
  import opened AuthProofs
  import opened PlatformSteps

  /** A replacing write changes the store: it creates the variable or moves its timestamp. */
  lemma ReplacingWriteChanges(vars: Vars, req: Request)
    requires DescriptorFits(req.data) && TimeBased(req.attrs) && !AppendWrite(req.attrs) && Fresher(vars, req)
    requires PayloadOf(req.data) != [] && |req.data| <= MAX_DATA_SIZE && WellFormedName(req.key.name)
    requires req.key in vars || |vars| < MAX_VAR_COUNT
    ensures var u := Update(vars, req.key, PayloadOf(req.data), req.attrs, TimestampOf(req.data));
            u.status == Success && req.key in u.vars && (req.key in vars ==> u.vars[req.key] != vars[req.key])
  {
    TimeBasedIsNotZero(req.attrs);
    if req.key in vars {
      NotLaterIsRankOrder(TimestampOf(req.data), vars[req.key].timestamp);
      assert TimestampOf(req.data) != vars[req.key].timestamp;
    }
    hide Rank, NotLater, TimeBased;
  }

  /** A verified replacing write is all or nothing exactly when its descriptor has a signer digest. */
  lemma AllOrNothingIffDigest(c: Crypto, vars: Vars, req: Request, via: Authority)
    requires DescriptorFits(req.data) && TimeBased(req.attrs) && !AppendWrite(req.attrs)
    requires PayloadOf(req.data) != [] && |req.data| <= MAX_DATA_SIZE && WellFormedName(req.key.name)
    requires req.key in vars || |vars| < MAX_VAR_COUNT
    requires VerifyStatus(c, vars, req, via) == Success
    ensures var r := VerifyAndUpdate(c, vars, req, via);
            (r.status != Success ==> r.vars == vars) <==> c.digest(SignedDataOf(req.data)).Some?
  {
    hide Update, FormatStatus, Verified, WellFormedName, TimeBased, IsPkcs7;
    ReplacingWriteChanges(vars, req);
  }

  // ---- A concrete enrolment that shows it

  /** A library that accepts every signature but finds no common name to digest. */
  const NO_DIGEST := Crypto(_ => true, _ => true, _ => None, _ => None, (_, _, _) => true, _ => true, _ => true)

  const CERT_ENTRY: bytes := [0, 0, 0, 0, 0, 0, 0, 0, 0, 0, 0, 0, 0, 0, 0, 0, 0x30]

  /** One X.509 record with one entry. */
  const KEY_LIST := SigList(X509_GUID, [], 17, [CERT_ENTRY])

  const KEY_PAYLOAD: bytes := PrintList(KEY_LIST)

  /** Year 0 timestamp, length 24, WIN_CERT_TYPE_EFI_GUID, PKCS#7, and no SignedData. */
  const EMPTY_DESCRIPTOR: bytes :=
    [0, 0, 0, 0, 0, 0, 0, 0, 0, 0, 0, 0, 0, 0, 0, 0, 24, 0, 0, 0, 0, 2, 0xF1, 0x0E] + PKCS7_GUID

  /** NON_VOLATILE | BOOTSERVICE | RUNTIME | TIME_BASED. */
  const KEY_ATTRS: u32 := 0x27

  const ENROLMENT := Request(PK, EMPTY_DESCRIPTOR + KEY_PAYLOAD, KEY_ATTRS)

  lemma KeyListIsWhole()
    ensures WholeList(KEY_LIST) && ListSize(KEY_LIST) == 45 && Flatten(KEY_LIST.entries) == CERT_ENTRY
  {
    assert Flatten([CERT_ENTRY]) == CERT_ENTRY + Flatten([]);
  }

  lemma PayloadShape()
    ensures |KEY_PAYLOAD| == 45 && CompleteHead(KEY_PAYLOAD) && ParseHead(KEY_PAYLOAD) == KEY_LIST
    ensures ListSizeAt(KEY_PAYLOAD) == 45 && KEY_PAYLOAD[45..] == []
  {
    KeyListIsWhole();
    hide PrintList, Flatten, CompleteHead, FromLE;
    ParsePrintedHead(KEY_LIST, []);
    assert PrintList(KEY_LIST) + [] == PrintList(KEY_LIST);
  }

  lemma PayloadCert()
    ensures |KEY_PAYLOAD| == 45 && CertAt(KEY_PAYLOAD) == Some([0x30])
  {
    PayloadShape();
    KeyListIsWhole();
    hide FromLE, PrintList;
    assert SigSizeAt(KEY_PAYLOAD) == 17 && HeaderSizeAt(KEY_PAYLOAD) == 0;
    FlattenChop(BodyAt(KEY_PAYLOAD), 17);
    assert BodyAt(KEY_PAYLOAD) == CERT_ENTRY;
    assert KEY_PAYLOAD[44..45] == BodyAt(KEY_PAYLOAD)[16..17];
    assert CERT_ENTRY[16..17] == [0x30];
  }

  lemma PayloadParses()
    ensures Complete(KEY_PAYLOAD) && Parse(KEY_PAYLOAD) == [KEY_LIST]
  {
    PayloadShape();
    hide FromLE, PrintList, CompleteHead, ParseHead, ListSizeAt;
    assert Complete([]) && Parse([]) == [];
    ParseCons(KEY_PAYLOAD);
  }

  lemma PayloadIsAccepted()
    ensures FormatStatus(NO_DIGEST, PK, KEY_PAYLOAD) == Success
  {
    PayloadShape();
    PayloadCert();
    PayloadParses();
    hide FromLE, PrintList, CompleteHead, ParseHead, ListSizeAt, CertAt, Parse, Complete;
    assert SupportedList(KEY_LIST);
    assert HeadHasKey(NO_DIGEST, KEY_PAYLOAD);
    NothingLeft([]);
    assert HeadsHaveKeys(NO_DIGEST, []);
    assert HeadsHaveKeys(NO_DIGEST, KEY_PAYLOAD);
    assert Items([KEY_LIST]) == ListItems(X509_GUID, 17, [CERT_ENTRY]) + Items([]);
  }

  lemma EnrolmentFields()
    ensures DescriptorFits(ENROLMENT.data) && DescriptorSize(ENROLMENT.data) == 40
    ensures PayloadOf(ENROLMENT.data) == KEY_PAYLOAD && IsPkcs7(ENROLMENT.data)
    ensures PadsAreZero(TimestampOf(ENROLMENT.data))
    ensures |ENROLMENT.data| == 85
  {
    hide PrintList, FromLE, LengthField, DecodeTime;
    PayloadCert();
    DescriptorFields(KEY_PAYLOAD);
  }

  /** The empty descriptor in front of any payload. */
  lemma DescriptorFields(payload: bytes)
    ensures var data := EMPTY_DESCRIPTOR + payload;
            && DescriptorFits(data) && DescriptorSize(data) == 40 && |data| == 40 + |payload|
            && PayloadOf(data) == payload && IsPkcs7(data) && PadsAreZero(TimestampOf(data))
  {
    hide FromLE;
    var data := EMPTY_DESCRIPTOR + payload;
    FourBytes(24, 0, 0, 0);
    FourBytes(0, 0, 0, 0);
    TwoBytes(0xF1, 0x0E);
    TwoBytes(0, 0);
    assert LengthField(data) == 24;
    assert data[40..] == payload;
    assert data[22..24] == [0xF1, 0x0E] && data[24..40] == PKCS7_GUID;
    assert data[..16] == ZERO_GUID;
    assert ZERO_GUID[8..12] == [0, 0, 0, 0] && ZERO_GUID[12..14] == [0, 0];
  }

  lemma EnrolmentIsVerified(vars: Vars)
    requires PK !in vars
    ensures VerifyStatus(NO_DIGEST, vars, ENROLMENT, ByPayload) == Success
  {
    EnrolmentFields();
    PayloadCert();
    PayloadIsAccepted();
    hide CertAt, FormatStatus, DescriptorFits, PrintList, FromLE, TimestampOf, IsPkcs7;
  }

  lemma KeyAttrs()
    ensures HasDatabaseAttrs(KEY_ATTRS) && TimeBased(KEY_ATTRS) && !AppendWrite(KEY_ATTRS)
    ensures Runtime(KEY_ATTRS) && BootService(KEY_ATTRS) && EvaluateAttrs(KEY_ATTRS) == Success
  {
  }

  /**
   In every well-kept platform in setup mode with a free slot, this enrolment is answered with a security violation,
   and yet a platform key is stored afterwards while the mode stays setup: neither the reported failure nor the
   invariant holds up without signer digests.
   */
  lemma UndigestedEnrolment(host: bool, p: Platform)
    requires Inv(host, p) && p.setup && |p.vars| < MAX_VAR_COUNT
    ensures var r := SetVariable(NO_DIGEST, host, p, ENROLMENT);
            r.status == SecurityViolation && r.platform.setup && PK in r.platform.vars && !Inv(host, r.platform)
  {
    hide VerifyStatus, Update, DescriptorFits, PrintList, TimeBased, EvaluateAttrs, WellFormedName, DatabasesWell,
      ValidVars, UpToNul, AppendWrite, Runtime, BootService, NonVolatile;
    EnrolmentFields();
    EnrolmentIsVerified(p.vars);
    KeyAttrs();
    OtherNames();
    Routes(PK);
    DistinctKeys();
    PayloadCert();
    ReplacingWriteChanges(p.vars, ENROLMENT);
    assert !NameStartsWithZero(PK_NAME);
  }
}
