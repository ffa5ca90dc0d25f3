/** Bytes, fixed-width integers and little-endian fields. */
module Bytes {

  type byte = x: int | 0 <= x < 256

  type bytes = seq<byte>

  type u16 = x: int | 0 <= x < 0x1_0000

  type u32 = x: int | 0 <= x < 0x1_0000_0000

  type u64 = x: int | 0 <= x < 0x1_0000_0000_0000_0000

  datatype Option<+T> = None | Some(value: T)

  function Pow256(n: nat): (r: nat)
    ensures r > 0
  {
    if n == 0 then 1 else 256 * Pow256(n - 1)
  }

  /** The value of a little-endian field; the fields of every layout below are read through it. */
  function FromLE(s: bytes): nat {
    if s == [] then 0 else s[0] + 256 * FromLE(s[1..])
  }

  /** The `n` low bytes of `x`, least significant first. */
  function ToLE(x: nat, n: nat): (s: bytes)
    ensures |s| == n
  {
    if n == 0 then [] else [x % 256] + ToLE(x / 256, n - 1)
  }

  lemma {:induction false} FromLEBound(s: bytes)
    ensures FromLE(s) < Pow256(|s|)
  {
    if s != [] {
      FromLEBound(s[1..]);
    }
  }

  lemma {:induction false} ReadWrite(x: nat, n: nat)
    requires x < Pow256(n)
    ensures FromLE(ToLE(x, n)) == x
  {
    if n > 0 {
      ReadWrite(x / 256, n - 1);
      assert ToLE(x, n)[1..] == ToLE(x / 256, n - 1);
    }
  }

  lemma LowByte(b: byte, n: nat)
    ensures (b + 256 * n) % 256 == b && (b + 256 * n) / 256 == n
  {
  }

  lemma {:induction false} WriteRead(s: bytes)
    ensures ToLE(FromLE(s), |s|) == s
  {
    if s != [] {
      WriteRead(s[1..]);
      LowByte(s[0], FromLE(s[1..]));
      assert ToLE(FromLE(s), |s|) == [s[0]] + ToLE(FromLE(s[1..]), |s| - 1);
    }
  }

  lemma Widths()
    ensures Pow256(1) == 0x100 && Pow256(2) == 0x1_0000
    ensures Pow256(4) == 0x1_0000_0000 && Pow256(8) == 0x1_0000_0000_0000_0000
  {
  }

  lemma TwoBytes(a: byte, b: byte)
    ensures FromLE([a, b]) == a + 0x100 * b
  {
    assert [b][1..] == [];
    assert FromLE([b]) == b + 0x100 * FromLE([]);
    assert [a, b][1..] == [b];
  }

  lemma FourBytes(a: byte, b: byte, c: byte, d: byte)
    ensures FromLE([a, b, c, d]) == a + 0x100 * b + 0x1_0000 * c + 0x100_0000 * d
  {
    TwoBytes(c, d);
    assert [b, c, d][1..] == [c, d];
    assert FromLE([b, c, d]) == b + 0x100 * FromLE([c, d]);
    assert [a, b, c, d][1..] == [b, c, d];
  }

  function Read16(s: bytes): u16
    requires |s| == 2
  {
    FromLEBound(s);
    Widths();
    FromLE(s)
  }

  function Read32(s: bytes): u32
    requires |s| == 4
  {
    FromLEBound(s);
    Widths();
    FromLE(s)
  }

  function Read64(s: bytes): u64
    requires |s| == 8
  {
    FromLEBound(s);
    Widths();
    FromLE(s)
  }
}
