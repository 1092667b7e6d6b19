/** Bytes, and fixed-width little-endian numbers. */
module Coding {
  type Byte = bv8
  type Bytes = seq<bv8>

  function EncodeFixed32(v: bv32): (r: Bytes)
    ensures |r| == 4 && DecodeFixed32(r) == v
  {
    [(v & 0xff) as bv8, ((v >> 8) & 0xff) as bv8, ((v >> 16) & 0xff) as bv8, (v >> 24) as bv8]
  }

  /** A byte at its place in a little-endian word. */
  function Byte0(b: Byte): bv32 { b as bv32 }

  function Byte1(b: Byte): bv32 { (b as bv32) << 8 }

  function Byte2(b: Byte): bv32 { (b as bv32) << 16 }

  function Byte3(b: Byte): bv32 { (b as bv32) << 24 }

  function LittleEndian(b0: Byte, b1: Byte, b2: Byte, b3: Byte): bv32 {
    Byte0(b0) | Byte1(b1) | Byte2(b2) | Byte3(b3)
  }

  function DecodeFixed32(s: Bytes): bv32
    requires |s| >= 4
  {
    LittleEndian(s[0], s[1], s[2], s[3])
  }

  // ---------- Bytes and numbers, by binary expansion ----------

  function Bit(c: bool, b: Byte): Byte { if c then b else 0 }

  function Weight(c: bool, n: nat): nat { if c then n else 0 }

  predicate Has(b: Byte, m: Byte) { b & m == m }

  function ByteOfBits(b7: bool, b6: bool, b5: bool, b4: bool, b3: bool, b2: bool, b1: bool, b0: bool): Byte {
    Bit(b7, 128) | Bit(b6, 64) | Bit(b5, 32) | Bit(b4, 16) | Bit(b3, 8) | Bit(b2, 4) | Bit(b1, 2) | Bit(b0, 1)
  }

  function ByteOf(n: nat): Byte
    requires n < 256
  {
    var n7 := n - Weight(n >= 128, 128);
    var n6 := n7 - Weight(n7 >= 64, 64);
    var n5 := n6 - Weight(n6 >= 32, 32);
    var n4 := n5 - Weight(n5 >= 16, 16);
    var n3 := n4 - Weight(n4 >= 8, 8);
    var n2 := n3 - Weight(n3 >= 4, 4);
    var n1 := n2 - Weight(n2 >= 2, 2);
    ByteOfBits(n >= 128, n7 >= 64, n6 >= 32, n5 >= 16, n4 >= 8, n3 >= 4, n2 >= 2, n1 >= 1)
  }

  function NatOf(b: Byte): (n: nat)
    ensures n < 256
  {
    Weight(Has(b, 128), 128) + Weight(Has(b, 64), 64) + Weight(Has(b, 32), 32) + Weight(Has(b, 16), 16)
      + Weight(Has(b, 8), 8) + Weight(Has(b, 4), 4) + Weight(Has(b, 2), 2) + Weight(Has(b, 1), 1)
  }

  lemma BitsStay(b7: bool, b6: bool, b5: bool, b4: bool, b3: bool, b2: bool, b1: bool, b0: bool)
    ensures var b := ByteOfBits(b7, b6, b5, b4, b3, b2, b1, b0);
            && Has(b, 128) == b7 && Has(b, 64) == b6 && Has(b, 32) == b5 && Has(b, 16) == b4
            && Has(b, 8) == b3 && Has(b, 4) == b2 && Has(b, 2) == b1 && Has(b, 1) == b0
  {
  }

  lemma TakeBit(n: nat, p: nat) returns (r: nat)
    requires n < 2 * p
    ensures r == n - Weight(n >= p, p) < p
  {
    r := n - Weight(n >= p, p);
  }

  lemma ByteRoundTrip(n: nat)
    requires n < 256
    ensures NatOf(ByteOf(n)) == n
  {
    hide Has, ByteOfBits, Bit, Weight;
    var n7 := TakeBit(n, 128);
    var n6 := TakeBit(n7, 64);
    var n5 := TakeBit(n6, 32);
    var n4 := TakeBit(n5, 16);
    var n3 := TakeBit(n4, 8);
    var n2 := TakeBit(n3, 4);
    var n1 := TakeBit(n2, 2);
    var n0 := TakeBit(n1, 1);
    BitsStay(n >= 128, n7 >= 64, n6 >= 32, n5 >= 16, n4 >= 8, n3 >= 4, n2 >= 2, n1 >= 1);
  }
}
