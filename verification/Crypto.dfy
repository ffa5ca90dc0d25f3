/** What the service asks of the PKCS#7 and X.509 library, as arbitrary functions of the bytes it hands over. */
module Crypto {
  import opened Bytes
  import opened Uefi

  datatype Crypto = Crypto(
    // the SignedData of a descriptor parses
    parses: bytes -> bool,
    // its digest algorithm field names SHA-256
    usesSha256: bytes -> bool,
    // the DER form of the last signer certificate
    topCert: bytes -> Option<bytes>,
    // SHA-256 of the signer's common name and the top certificate
    digest: bytes -> Option<Digest>,
    // the SignedData verifies over a blob, trusting one certificate
    verify: (bytes, bytes, bytes) -> bool,
    // the bytes parse as a DER certificate
    parsesX509: bytes -> bool,
    // the bytes are a certificate with an RSA public key
    hasRsaKey: bytes -> bool)

  /** SignedData that verifies under some certificate has a signer digest. */
  ghost predicate VerifiedHasDigest(c: Crypto) {
    forall sig, cert, blob :: c.verify(sig, cert, blob) ==> c.digest(sig).Some?
  }
}
