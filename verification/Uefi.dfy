/** The UEFI values the variable service works on: status codes, attributes, names, GUIDs, times. */
module Uefi {
  import opened Bytes

  const MAX_VAR_COUNT: nat := 128
  const MAX_NAME_SIZE: nat := 256
  const MAX_DATA_SIZE: nat := 32768
  const MAX_VARIABLE_SIZE: nat := 33024
  const MAX_STORAGE_SIZE: nat := 1073741824

  datatype Status =
    | Success
    | InvalidParameter
    | Unsupported
    | BufferTooSmall
    | DeviceError
    | WriteProtected
    | OutOfResources
    | NotFound
    | SecurityViolation
  {
    /** The 64-bit EFI_STATUS value sent to the guest; errors have the top bit set. */
    function Code(): u64 {
      match this
      case Success => 0
      case InvalidParameter => 0x8000_0000_0000_0002
      case Unsupported => 0x8000_0000_0000_0003
      case BufferTooSmall => 0x8000_0000_0000_0005
      case DeviceError => 0x8000_0000_0000_0007
      case WriteProtected => 0x8000_0000_0000_0008
      case OutOfResources => 0x8000_0000_0000_0009
      case NotFound => 0x8000_0000_0000_000E
      case SecurityViolation => 0x8000_0000_0000_001A
    }
  }

  // Attribute bits of a 32-bit attribute word

  predicate Bit(a: nat, i: nat) {
    if i == 0 then a % 2 == 1 else Bit(a / 2, i - 1)
  }

  function ClearBit(a: nat, i: nat): (r: nat)
    ensures r <= a
  {
    if i == 0 then a - a % 2 else a % 2 + 2 * ClearBit(a / 2, i - 1)
  }

  /** Clearing a bit clears that bit and keeps every other one. */
  lemma {:induction false} ClearedBits(a: nat, i: nat, j: nat)
    ensures Bit(ClearBit(a, i), j) <==> i != j && Bit(a, j)
  {
    if i == 0 {
      assert (a - a % 2) / 2 == a / 2;
    } else {
      assert ClearBit(a, i) / 2 == ClearBit(a / 2, i - 1);
      if j > 0 {
        ClearedBits(a / 2, i - 1, j - 1);
      }
    }
  }

  lemma {:induction false} ClearedAlready(a: nat, i: nat)
    requires !Bit(a, i)
    ensures ClearBit(a, i) == a
  {
    if i > 0 {
      ClearedAlready(a / 2, i - 1);
    }
  }

  predicate NonVolatile(a: u32) { Bit(a, 0) }

  predicate BootService(a: u32) { Bit(a, 1) }

  predicate Runtime(a: u32) { Bit(a, 2) }

  predicate HardwareError(a: u32) { Bit(a, 3) }

  predicate CounterAuth(a: u32) { Bit(a, 4) }

  predicate TimeBased(a: u32) { Bit(a, 5) }

  predicate AppendWrite(a: u32) { Bit(a, 6) }

  /** EFI_VARIABLE_BOOTSERVICE_ACCESS | EFI_VARIABLE_RUNTIME_ACCESS. */
  const BS_RT: u32 := 6

  /** `attrs & ~EFI_VARIABLE_APPEND_WRITE`. */
  function ClearAppend(a: u32): (r: u32)
    ensures !AppendWrite(r)
    ensures NonVolatile(r) == NonVolatile(a) && TimeBased(r) == TimeBased(a) && Runtime(r) == Runtime(a)
    ensures !AppendWrite(a) ==> r == a
  {
    ClearedBits(a, 6, 6);
    ClearedBits(a, 6, 0);
    ClearedBits(a, 6, 5);
    ClearedBits(a, 6, 2);
    if !AppendWrite(a) then
      ClearedAlready(a, 6);
      ClearBit(a, 6)
    else
      ClearBit(a, 6)
  }

  // GUIDs are compared as the 16 bytes of their in-memory form

  type Guid = g: bytes | |g| == 16 witness [0, 0, 0, 0, 0, 0, 0, 0, 0, 0, 0, 0, 0, 0, 0, 0]

  const ZERO_GUID: Guid := [0, 0, 0, 0, 0, 0, 0, 0, 0, 0, 0, 0, 0, 0, 0, 0]

  const GLOBAL_GUID: Guid :=
    [0x61, 0xDF, 0xE4, 0x8B, 0xCA, 0x93, 0xD2, 0x11, 0xAA, 0x0D, 0x00, 0xE0, 0x98, 0x03, 0x2B, 0x8C]

  const SECURITY_DATABASE_GUID: Guid :=
    [0xCB, 0xB2, 0x19, 0xD7, 0x3A, 0x3D, 0x96, 0x45, 0xA3, 0xBC, 0xDA, 0xD0, 0x0E, 0x67, 0x65, 0x6F]

  const PKCS7_GUID: Guid :=
    [0x9D, 0xD2, 0xAF, 0x4A, 0xDF, 0x68, 0xEE, 0x49, 0x8A, 0xA9, 0x34, 0x7D, 0x37, 0x56, 0x65, 0xA7]

  /** A SHA-256 digest. */
  type Digest = d: bytes | |d| == 32
    witness [0, 0, 0, 0, 0, 0, 0, 0, 0, 0, 0, 0, 0, 0, 0, 0, 0, 0, 0, 0, 0, 0, 0, 0, 0, 0, 0, 0, 0, 0, 0, 0]

  const ZERO_DIGEST: Digest :=
    [0, 0, 0, 0, 0, 0, 0, 0, 0, 0, 0, 0, 0, 0, 0, 0, 0, 0, 0, 0, 0, 0, 0, 0, 0, 0, 0, 0, 0, 0, 0, 0]

  // Names are the bytes of UTF-16 code units, without a terminator

  const PK_NAME: bytes := [0x50, 0, 0x4B, 0]
  const KEK_NAME: bytes := [0x4B, 0, 0x45, 0, 0x4B, 0]
  const DB_NAME: bytes := [0x64, 0, 0x62, 0]
  const DBX_NAME: bytes := [0x64, 0, 0x62, 0, 0x78, 0]
  const DBT_NAME: bytes := [0x64, 0, 0x62, 0, 0x74, 0]
  const SECURE_BOOT_NAME: bytes :=
    [0x53, 0, 0x65, 0, 0x63, 0, 0x75, 0, 0x72, 0, 0x65, 0, 0x42, 0, 0x6F, 0, 0x6F, 0, 0x74, 0]
  const SETUP_MODE_NAME: bytes :=
    [0x53, 0, 0x65, 0, 0x74, 0, 0x75, 0, 0x70, 0, 0x4D, 0, 0x6F, 0, 0x64, 0, 0x65, 0]
  const AUDIT_MODE_NAME: bytes :=
    [0x41, 0, 0x75, 0, 0x64, 0, 0x69, 0, 0x74, 0, 0x4D, 0, 0x6F, 0, 0x64, 0, 0x65, 0]
  const DEPLOYED_MODE_NAME: bytes :=
    [0x44, 0, 0x65, 0, 0x70, 0, 0x6C, 0, 0x6F, 0, 0x79, 0, 0x65, 0, 0x64, 0, 0x4D, 0, 0x6F, 0, 0x64, 0, 0x65, 0]
  const SIGNATURE_SUPPORT_NAME: bytes :=
    [0x53, 0, 0x69, 0, 0x67, 0, 0x6E, 0, 0x61, 0, 0x74, 0, 0x75, 0, 0x72, 0, 0x65, 0,
     0x53, 0, 0x75, 0, 0x70, 0, 0x70, 0, 0x6F, 0, 0x72, 0, 0x74, 0]

  /** The code units before the first NUL one, which is all that `strcmp16` looks at. */
  function UpToNul(name: bytes): (r: bytes)
    ensures r <= name
  {
    if |name| < 2 || (name[0] == 0 && name[1] == 0) then [] else name[..2] + UpToNul(name[2..])
  }

  predicate NoNul(name: bytes) {
    forall i :: 0 <= i < |name| / 2 ==> !(name[2 * i] == 0 && name[2 * i + 1] == 0)
  }

  /** Names as the guest driver sends them: whole code units, none of them NUL, room for a terminator. */
  predicate WellFormedName(name: bytes) {
    2 <= |name| <= 254 && |name| % 2 == 0 && NoNul(name)
  }

  lemma {:induction false} UpToNulIdentity(name: bytes)
    requires |name| % 2 == 0 && NoNul(name)
    ensures UpToNul(name) == name
  {
    if |name| >= 2 {
      assert !(name[2 * 0] == 0 && name[2 * 0 + 1] == 0);
      var rest := name[2..];
      forall i | 0 <= i < |rest| / 2
        ensures !(rest[2 * i] == 0 && rest[2 * i + 1] == 0)
      {
        assert rest[2 * i] == name[2 * (i + 1)] && rest[2 * i + 1] == name[2 * (i + 1) + 1];
      }
      UpToNulIdentity(rest);
    }
  }

  /** A variable is addressed by its name and vendor GUID together. */
  datatype Key = Key(name: bytes, guid: Guid)

  const PK := Key(PK_NAME, GLOBAL_GUID)
  const KEK := Key(KEK_NAME, GLOBAL_GUID)
  const DB := Key(DB_NAME, SECURITY_DATABASE_GUID)
  const DBX := Key(DBX_NAME, SECURITY_DATABASE_GUID)
  const DBT := Key(DBT_NAME, SECURITY_DATABASE_GUID)
  const SECURE_BOOT := Key(SECURE_BOOT_NAME, GLOBAL_GUID)
  const SETUP_MODE := Key(SETUP_MODE_NAME, GLOBAL_GUID)
  const AUDIT_MODE := Key(AUDIT_MODE_NAME, GLOBAL_GUID)
  const DEPLOYED_MODE := Key(DEPLOYED_MODE_NAME, GLOBAL_GUID)
  const SIGNATURE_SUPPORT := Key(SIGNATURE_SUPPORT_NAME, GLOBAL_GUID)

  // Times

  datatype Time = Time(
    year: u16, month: byte, day: byte, hour: byte, minute: byte, second: byte, pad1: byte,
    nanosecond: u32, timeZone: u16, daylight: byte, pad2: byte)

  const ZERO_TIME := Time(0, 0, 0, 0, 0, 0, 0, 0, 0, 0, 0)

  function DecodeTime(s: bytes): Time
    requires |s| == 16
  {
    Time(Read16(s[0..2]), s[2], s[3], s[4], s[5], s[6], s[7], Read32(s[8..12]), Read16(s[12..14]), s[14], s[15])
  }

  function EncodeTime(t: Time): (s: bytes)
    ensures |s| == 16
  {
    ToLE(t.year, 2) + [t.month, t.day, t.hour, t.minute, t.second, t.pad1]
    + ToLE(t.nanosecond, 4) + ToLE(t.timeZone, 2) + [t.daylight, t.pad2]
  }

  lemma TimeRoundTrip(t: Time)
    ensures DecodeTime(EncodeTime(t)) == t
  {
    var s := EncodeTime(t);
    Widths();
    ReadWrite(t.year, 2);
    ReadWrite(t.nanosecond, 4);
    ReadWrite(t.timeZone, 2);
    assert s[0..2] == ToLE(t.year, 2);
    assert s[8..12] == ToLE(t.nanosecond, 4);
    assert s[12..14] == ToLE(t.timeZone, 2);
  }

  lemma TimeReprint(s: bytes)
    requires |s| == 16
    ensures EncodeTime(DecodeTime(s)) == s
  {
    WriteRead(s[0..2]);
    WriteRead(s[8..12]);
    WriteRead(s[12..14]);
    assert s == s[0..2] + [s[2], s[3], s[4], s[5], s[6], s[7]] + s[8..12] + s[12..14] + [s[14], s[15]];
  }

  /** "The first is not later than the second", field by field. */
  predicate NotLater(a: Time, b: Time) {
    if a.year != b.year then a.year < b.year
    else if a.month != b.month then a.month < b.month
    else if a.day != b.day then a.day < b.day
    else if a.hour != b.hour then a.hour < b.hour
    else if a.minute != b.minute then a.minute < b.minute
    else a.second <= b.second
  }

  /** The six compared fields as one number in mixed radix, so that comparing times is comparing numbers. */
  function Rank(t: Time): nat {
    t.second + 0x100 * t.minute + 0x1_0000 * t.hour + 0x100_0000 * t.day
    + 0x1_0000_0000 * t.month + 0x100_0000_0000 * t.year
  }

  /** The comparator is the order of the ranks, hence a total preorder whose ties are equal in all six fields. */
  lemma NotLaterIsRankOrder(a: Time, b: Time)
    ensures NotLater(a, b) <==> Rank(a) <= Rank(b)
    ensures NotLater(a, b) && NotLater(b, a) <==>
            (a.year, a.month, a.day, a.hour, a.minute, a.second) == (b.year, b.month, b.day, b.hour, b.minute, b.second)
  {
  }
}
