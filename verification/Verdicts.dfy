/** What a positive verdict on a signature means, in terms of the bytes and of the signature library alone. */
module Verdicts {
  import opened Bytes
  import opened Uefi
  import opened SignatureLists
  import opened SignatureWalks
  import opened Crypto
  import opened VariableMap
  import opened AuthSpec

  // ---- The parts of a descriptor

  /** Where the parts of a whole descriptor lie: timestamp, length field at 16, signed data from 40, payload behind. */
  lemma DescriptorLayout(data: bytes)
    ensures DescriptorFits(data) <==> |data| >= 20 && 24 <= Read32(data[16..20]) <= |data| - 16
    ensures DescriptorFits(data) ==>
              var n := Read32(data[16..20]);
              && SignedDataOf(data) == data[40..16 + n] && PayloadOf(data) == data[16 + n..]
              && TimestampOf(data) == DecodeTime(data[..16])
  {
    hide FromLE, DecodeTime;
    if |data| >= 20 {
      assert data[16..20] == [data[16], data[17], data[18], data[19]];
    } else {
      ShortLength(data);
    }
  }

  /** A length field that is not all there is small. */
  lemma ShortLength(data: bytes)
    requires |data| < 20
    ensures !DescriptorFits(data)
  {
    if |data| >= 16 && LengthField(data) >= 24 {
      assert DescriptorSize(data) >= 40;
    }
  }

  /** What is signed, field by field: name, GUID, attributes, timestamp and payload, one behind the other. */
  lemma BlobLayout(req: Request)
    requires WellFormedName(req.key.name) && DescriptorFits(req.data)
    ensures var b, n := SignedBlob(req), |req.key.name|;
            && |b| == n + 36 + |PayloadOf(req.data)|
            && b[..n] == req.key.name && b[n..n + 16] == req.key.guid && Read32(b[n + 16..n + 20]) == req.attrs
            && b[n + 20..n + 36] == req.data[..16] && b[n + 36..] == PayloadOf(req.data)
  {
    hide FromLE, ToLE, LengthField, NoNul;
    UpToNulIdentity(req.key.name);
    Widths();
    ReadWrite(req.attrs, 4);
    BlobParts(req.key.name, req.key.guid, ToLE(req.attrs, 4), req.data[..16], PayloadOf(req.data));
  }

  lemma BlobParts(a: bytes, b: bytes, c: bytes, d: bytes, e: bytes)
    requires |b| == 16 && |c| == 4 && |d| == 16
    ensures var s, n := a + b + c + d + e, |a|;
            && |s| == n + 36 + |e| && s[..n] == a && s[n..n + 16] == b && s[n + 16..n + 20] == c
            && s[n + 20..n + 36] == d && s[n + 36..] == e
  {
  }

  /** Requests for the same variable that are signed as the same bytes agree in attributes, timestamp and payload. */
  lemma BlobDeterminesRequest(r1: Request, r2: Request)
    requires WellFormedName(r1.key.name) && r1.key == r2.key && DescriptorFits(r1.data) && DescriptorFits(r2.data)
    requires SignedBlob(r1) == SignedBlob(r2)
    ensures r1.attrs == r2.attrs && r1.data[..16] == r2.data[..16] && PayloadOf(r1.data) == PayloadOf(r2.data)
  {
    hide SignedBlob, DescriptorFits, FromLE, NoNul;
    BlobLayout(r1);
    BlobLayout(r2);
  }

  // ---- The certificate at the front of a list

  /** The certificate in the first entry behind a record header: sizes at 20 and 24, and an owner of 16 bytes. */
  predicate CertificateIn(s: bytes, cert: bytes) {
    && |s| >= 28
    && var h, n := Read32(s[20..24]), Read32(s[24..28]);
       n >= 16 && 28 + h + n <= |s| && cert == s[44 + h..28 + h + n]
  }

  lemma CertificateIff(s: bytes, cert: bytes)
    ensures CertAt(s) == Some(cert) <==> CertificateIn(s, cert)
  {
    hide FromLE;
  }

  /** The first entry of complete lists, when the first list has one. */
  ghost predicate FirstEntryIs(s: bytes, e: bytes) {
    Complete(s) && s != [] && Parse(s)[0].entries != [] && Parse(s)[0].entries[0] == e
  }

  /** The certificate at the front is that of the first entry. */
  lemma FirstEntry(s: bytes, e: bytes, cert: bytes)
    requires FirstEntryIs(s, e)
    ensures CertificateIn(s, cert) <==> |e| >= 16 && cert == e[16..]
  {
    hide FromLE, Multiple, Chop;
    ParseCons(s);
    FirstChop(BodyAt(s), SigSizeAt(s));
    var h, n := HeaderSizeAt(s), SigSizeAt(s);
    assert e == BodyAt(s)[..n] == s[28 + h..28 + h + n];
    if n >= 16 {
      assert e[16..] == s[44 + h..28 + h + n];
    }
  }

  lemma FirstChop(body: bytes, size: nat)
    requires size > 0 && Multiple(|body|, size) && Chop(body, size) != []
    ensures |body| >= size && Chop(body, size)[0] == body[..size]
  {
  }

  // ---- The platform key

  /** The signer's top certificate is the stored one, and the signed data verifies under it. */
  predicate KeySigned(c: Crypto, pk: bytes, sig: bytes, blob: bytes) {
    && c.topCert(sig).Some?
    && CertificateIn(pk, c.topCert(sig).value)
    && c.verify(sig, c.topCert(sig).value, blob)
  }

  lemma PkVerdictIff(c: Crypto, vars: Vars, sig: bytes, blob: bytes)
    ensures VerifiedByPk(c, vars, sig, blob) <==> PK in vars && c.parses(sig) && KeySigned(c, vars[PK].data, sig, blob)
  {
    hide CertAt, CertificateIn;
    if PK in vars && c.topCert(sig).Some? {
      CertificateIff(vars[PK].data, c.topCert(sig).value);
    }
  }

  /** The same on entries: the signer's certificate is the first entry of the stored platform key. */
  lemma PkVerdictOnEntry(c: Crypto, vars: Vars, sig: bytes, blob: bytes, e: bytes)
    requires PK in vars && FirstEntryIs(vars[PK].data, e)
    ensures VerifiedByPk(c, vars, sig, blob) <==>
            c.parses(sig) && |e| >= 16 && c.topCert(sig) == Some(e[16..]) && c.verify(sig, e[16..], blob)
  {
    hide VerifiedByPk, CertificateIn, FirstEntryIs;
    PkVerdictIff(c, vars, sig, blob);
    if c.topCert(sig).Some? {
      FirstEntry(vars[PK].data, e, c.topCert(sig).value);
    }
  }

  // ---- The key exchange keys

  /** The signed data verifies under the certificate in this entry. */
  predicate EntrySigns(c: Crypto, e: bytes, sig: bytes, blob: bytes) {
    |e| >= 16 && c.parsesX509(e[16..]) && c.verify(sig, e[16..], blob)
  }

  /** Some certificate among the stored keys verifies the signed data. */
  ghost predicate KekSigned(c: Crypto, kek: bytes, sig: bytes, blob: bytes) {
    Complete(kek)
    && exists l, e :: l in Parse(kek) && l.sigType == X509_GUID && e in l.entries && EntrySigns(c, e, sig, blob)
  }

  /** Entry `j` of a list signs, and the walk comes to it: every entry before it parses. */
  ghost predicate SignsAt(c: Crypto, l: SigList, j: int, sig: bytes, blob: bytes) {
    && l.sigType == X509_GUID && 0 <= j < |l.entries| && EntrySigns(c, l.entries[j], sig, blob)
    && forall i :: 0 <= i < j ==> |l.entries[i]| >= 16 && c.parsesX509(l.entries[i][16..])
  }

  lemma KekVerdictIff(c: Crypto, vars: Vars, sig: bytes, blob: bytes)
    ensures VerifiedByKek(c, vars, sig, blob) <==>
            && KEK in vars && c.parses(sig) && Complete(vars[KEK].data)
            && exists l, j :: l in Parse(vars[KEK].data) && SignsAt(c, l, j, sig, blob)
    ensures VerifiedByKek(c, vars, sig, blob) ==> KekSigned(c, vars[KEK].data, sig, blob)
  {
    hide Complete, Parse, ListsReach;
    if KEK in vars && Complete(vars[KEK].data) {
      var ls := Parse(vars[KEK].data);
      KekVerdict(c, sig, blob, ls);
      if l, j :| l in ls && SignerAt(c, sig, blob, l, j) {
        assert SignsAt(c, l, j, sig, blob);
        assert l.entries[j] in l.entries;
      }
      if l, j :| l in ls && SignsAt(c, l, j, sig, blob) {
        assert SignerAt(c, sig, blob, l, j);
      }
    }
  }

  // ---- All four authorities

  /** The literal fixed part of an acceptable descriptor. */
  predicate HeaderIsRight(vars: Vars, req: Request)
    requires |req.data| >= 40
  {
    var data := req.data;
    && data[7] == 0 && Read32(data[8..12]) == 0 && Read16(data[12..14]) == 0 && data[14] == 0 && data[15] == 0
    && Read16(data[22..24]) == 0x0EF1
    && data[24..40] == [0x9D, 0xD2, 0xAF, 0x4A, 0xDF, 0x68, 0xEE, 0x49, 0x8A, 0xA9, 0x34, 0x7D, 0x37, 0x56, 0x65, 0xA7]
    && (req.key in vars && !AppendWrite(req.attrs) ==> Rank(vars[req.key].timestamp) < Rank(DecodeTime(data[..16])))
  }

  /** What each authority asks of the signed data, without the verdict of the service. */
  ghost predicate SignatureIsRight(
      c: Crypto, vars: Vars, k: Key, payload: bytes, sig: bytes, blob: bytes, via: Authority) {
    c.parses(sig) &&
    match via
    case ByPk => PK in vars && KeySigned(c, vars[PK].data, sig, blob)
    case ByKek =>
      KEK in vars && Complete(vars[KEK].data)
      && exists l, j :: l in Parse(vars[KEK].data) && SignsAt(c, l, j, sig, blob)
    case ByPriv =>
      && c.topCert(sig).Some? && c.verify(sig, c.topCert(sig).value, blob)
      && c.digest(sig).Some? && (k in vars ==> c.digest(sig) == Some(vars[k].cert))
    case ByPayload =>
      exists cert :: CertificateIn(payload, cert) && c.parsesX509(cert) && c.verify(sig, cert, blob)
  }

  lemma SignatureIff(c: Crypto, vars: Vars, req: Request, via: Authority)
    requires DescriptorFits(req.data)
    ensures Verified(c, vars, req, via) <==>
            SignatureIsRight(c, vars, req.key, PayloadOf(req.data), SignedDataOf(req.data), SignedBlob(req), via)
  {
    hide LengthField, SignedBlob, CertAt, CertificateIn, VerifiedByPk, VerifiedByKek, KeySigned, SignsAt, Complete;
    var payload, sig, blob := PayloadOf(req.data), SignedDataOf(req.data), SignedBlob(req);
    PkVerdictIff(c, vars, sig, blob);
    KekVerdictIff(c, vars, sig, blob);
    forall cert
      ensures CertAt(payload) == Some(cert) <==> CertificateIn(payload, cert)
    {
      CertificateIff(payload, cert);
    }
  }

  /** An authenticated write passes exactly when its fixed part, digest algorithm, signature and format do. */
  lemma VerdictIff(c: Crypto, vars: Vars, req: Request, via: Authority)
    ensures VerifyStatus(c, vars, req, via) == Success <==>
            && DescriptorFits(req.data) && HeaderIsRight(vars, req)
            && (TimeBased(req.attrs) ==> c.usesSha256(SignedDataOf(req.data)))
            && SignatureIsRight(c, vars, req.key, PayloadOf(req.data), SignedDataOf(req.data), SignedBlob(req), via)
            && FormatStatus(c, req.key, PayloadOf(req.data)) == Success
  {
    hide FromLE, LengthField, SignedBlob, FormatStatus, Verified, SignatureIsRight, Rank, NotLater, TimeBased,
      AppendWrite;
    if DescriptorFits(req.data) {
      SignatureIff(c, vars, req, via);
      if req.key in vars {
        NotLaterIsRankOrder(TimestampOf(req.data), vars[req.key].timestamp);
      }
      var t := req.data[..16];
      assert t[8..12] == req.data[8..12] && t[12..14] == req.data[12..14];
    }
  }

  /** A write that does not pass is a security violation, unless only its format is wrong. */
  lemma FailedVerdict(c: Crypto, vars: Vars, req: Request, via: Authority)
    ensures VerifyStatus(c, vars, req, via)
            == if && DescriptorFits(req.data) && HeaderIsRight(vars, req)
                  && (TimeBased(req.attrs) ==> c.usesSha256(SignedDataOf(req.data)))
                  && SignatureIsRight(c, vars, req.key, PayloadOf(req.data), SignedDataOf(req.data), SignedBlob(req),
                                      via)
               then FormatStatus(c, req.key, PayloadOf(req.data)) else SecurityViolation
  {
    hide FromLE, LengthField, SignedBlob, FormatStatus, Verified, SignatureIsRight, Rank, NotLater, TimeBased,
      AppendWrite;
    if DescriptorFits(req.data) {
      SignatureIff(c, vars, req, via);
      if req.key in vars {
        NotLaterIsRankOrder(TimestampOf(req.data), vars[req.key].timestamp);
      }
      var t := req.data[..16];
      assert t[8..12] == req.data[8..12] && t[12..14] == req.data[12..14];
    }
  }

  /** Whatever the authority, a write passes only if some certificate verifies its signed data over its own bytes. */
  lemma PassedIsVerified(c: Crypto, vars: Vars, req: Request, via: Authority) returns (cert: bytes)
    requires VerifyStatus(c, vars, req, via) == Success
    ensures DescriptorFits(req.data) && c.verify(SignedDataOf(req.data), cert, SignedBlob(req))
  {
    hide LengthField, SignedBlob, FormatStatus, VerifyStatus, CertificateIn, Complete, Parse, HeaderIsRight;
    VerdictIff(c, vars, req, via);
    var payload, sig, blob := PayloadOf(req.data), SignedDataOf(req.data), SignedBlob(req);
    match via
    case ByPk => cert := c.topCert(sig).value;
    case ByPriv => cert := c.topCert(sig).value;
    case ByPayload => cert :| CertificateIn(payload, cert) && c.parsesX509(cert) && c.verify(sig, cert, blob);
    case ByKek =>
      var l, j :| l in Parse(vars[KEK].data) && SignsAt(c, l, j, sig, blob);
      cert := l.entries[j][16..];
  }

  /**
   No altered request passes: when the library verifies signatures over one blob only, all requests for a variable that
   ever pass, in any store and by any authority, have the same attributes, timestamp and payload.
   */
  lemma NoAlteredRequest(
      c: Crypto, blob: bytes, vars: Vars, r1: Request, via1: Authority, vars': Vars, r2: Request, via2: Authority)
    requires forall sig, cert, b :: c.verify(sig, cert, b) ==> b == blob
    requires WellFormedName(r1.key.name) && r1.key == r2.key
    requires VerifyStatus(c, vars, r1, via1) == Success && VerifyStatus(c, vars', r2, via2) == Success
    ensures DescriptorFits(r1.data) && DescriptorFits(r2.data)
    ensures r1.attrs == r2.attrs && r1.data[..16] == r2.data[..16] && PayloadOf(r1.data) == PayloadOf(r2.data)
  {
    hide VerifyStatus, SignedBlob, WellFormedName;
    var cert1 := PassedIsVerified(c, vars, r1, via1);
    var cert2 := PassedIsVerified(c, vars', r2, via2);
    assert SignedBlob(r1) == blob == SignedBlob(r2);
    BlobDeterminesRequest(r1, r2);
  }
}
