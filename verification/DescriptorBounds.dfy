/** Where the C code looks for the payload of a descriptor, in its own arithmetic, which wraps. */
module DescriptorBounds {
  import opened Bytes
  import opened Uefi
  import opened AuthSpec

  const WRAP32: nat := 0x1_0000_0000
  const WRAP64: nat := 0x1_0000_0000_0000_0000

  /** A pointer into the data and a size, as the code passes them on. */
  datatype Stretch = Stretch(start: nat, size: nat)

  predicate Inside(w: Stretch, data: bytes) {
    w.start + w.size <= |data|
  }

  /** The routes without verification, and the test for a bare descriptor: a 64-bit difference of sizes. */
  function UnverifiedPayload(data: bytes): Stretch {
    Stretch(DescriptorSize(data), (|data| - DescriptorSize(data)) % WRAP64)
  }

  /** The verified routes: a 32-bit difference for the signed data, then a 64-bit one for the payload behind it. */
  function SignedSize(data: bytes): nat {
    (LengthField(data) - CERT_HEADER_SIZE) % WRAP32
  }

  function SignedStretch(data: bytes): Stretch {
    Stretch(CERT_DATA_OFFSET, SignedSize(data))
  }

  function VerifiedPayload(data: bytes): Stretch {
    Stretch(CERT_DATA_OFFSET + SignedSize(data), (|data| - CERT_DATA_OFFSET - SignedSize(data)) % WRAP64)
  }

  lemma WrappedDifference(a: nat, b: nat, wrap: nat)
    requires a < wrap && b < wrap
    ensures (a - b) % wrap == if b <= a then a - b else a - b + wrap
  {
  }

  /**
   Without verification the payload lies inside the data exactly when the descriptor is no longer than the data, and
   is then what follows the descriptor; its size is zero exactly for a bare descriptor.
   */
  lemma UnverifiedInsideIff(data: bytes)
    requires |data| < WRAP64
    ensures var w := UnverifiedPayload(data);
            && (Inside(w, data) <==> PayloadFits(data))
            && (w.size == 0 <==> |data| == DescriptorSize(data))
            && (PayloadFits(data) ==> data[w.start..w.start + w.size] == PayloadOf(data))
  {
    hide LengthField;
    WrappedDifference(|data|, DescriptorSize(data), WRAP64);
  }

  /**
   With verification signed data and payload lie inside the data exactly when the descriptor also covers its own
   header, and are then the two parts the signature is about.
   */
  lemma VerifiedInsideIff(data: bytes)
    requires |data| <= MAX_DATA_SIZE
    ensures Inside(SignedStretch(data), data) <==> DescriptorFits(data)
    ensures Inside(VerifiedPayload(data), data) <==> DescriptorFits(data)
    ensures DescriptorFits(data) ==>
              var v, w := SignedStretch(data), VerifiedPayload(data);
              && data[v.start..v.start + v.size] == SignedDataOf(data)
              && data[w.start..w.start + w.size] == PayloadOf(data)
  {
    hide LengthField;
    WrappedDifference(LengthField(data), CERT_HEADER_SIZE, WRAP32);
    WrappedDifference(|data|, CERT_DATA_OFFSET + SignedSize(data), WRAP64);
  }

  /** A timestamp and a length field of 255, and nothing behind them. */
  const OVERLONG: bytes := [0, 0, 0, 0, 0, 0, 0, 0, 0, 0, 0, 0, 0, 0, 0, 0, 255, 0, 0, 0]

  /** A timestamp and a length field of zero, with room for the rest of a descriptor. */
  const UNDERLONG: bytes := OVERLONG[..16] + [0, 0, 0, 0, 0, 0, 0, 0, 0, 0, 0, 0, 0, 0, 0, 0, 0, 0, 0, 0, 0, 0, 0, 0]

  /** Both conditions can fail: the sizes wrap, and the payload is said to start behind the data. */
  lemma WrappedSizes()
    ensures UnverifiedPayload(OVERLONG) == Stretch(271, WRAP64 - 251) && !PayloadFits(OVERLONG)
    ensures VerifiedPayload(UNDERLONG) == Stretch(WRAP32 + 16, WRAP64 - WRAP32 + 24)
    ensures PayloadFits(UNDERLONG) && !DescriptorFits(UNDERLONG)
  {
    hide FromLE;
    FourBytes(255, 0, 0, 0);
    FourBytes(0, 0, 0, 0);
    assert LengthField(OVERLONG) == 255 && LengthField(UNDERLONG) == 0;
    WrappedDifference(20, 271, WRAP64);
    WrappedDifference(0, CERT_HEADER_SIZE, WRAP32);
    WrappedDifference(40, WRAP32 + 16, WRAP64);
  }
}
