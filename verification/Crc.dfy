/** CRC-32C: the strided computation against one bit at a time. */
module Crc32c {
  import opened Coding

  // ---------- One bit at a time ----------

  /** The polynomial of section 12.1 of RFC 3720, lowest coefficient in the highest bit. */
  const POLYNOMIAL: bv32 := 0x82f63b78

  const CRC32_XOR: bv32 := 0xffff_ffff

  function Xor(a: bv32, b: bv32): bv32 { a ^ b }

  /** Exclusive or is a commutative group in which every element is its own inverse.
      The solver knows this of `^` but loses itself when `^` meets other functions,
      so everything below uses `Xor` and these four laws. */
  lemma XorAssociates(a: bv32, b: bv32, c: bv32)
    ensures Xor(Xor(a, b), c) == Xor(a, Xor(b, c))
  {
    var ab, bc := Xor(a, b), Xor(b, c);
  }

  lemma XorCommutes(a: bv32, b: bv32)
    ensures Xor(a, b) == Xor(b, a)
  {
  }

  lemma XorSelf(a: bv32)
    ensures Xor(a, a) == 0 && Xor(a, 0) == a && Xor(0, a) == a
  {
  }

  /** The second and the third of three terms change places. */
  lemma XorSwaps(a: bv32, b: bv32, c: bv32)
    ensures Xor(Xor(a, b), c) == Xor(Xor(a, c), b)
  {
    hide Xor;
    XorAssociates(a, b, c);
    XorCommutes(b, c);
    XorAssociates(a, c, b);
  }

  predicate Odd(l: bv32) { l & 1 == 1 }

  function Half(l: bv32): bv32 { l >> 1 }

  lemma HalfOfXor(a: bv32, b: bv32)
    ensures Half(Xor(a, b)) == Xor(Half(a), Half(b))
    ensures Odd(Xor(a, b)) <==> Odd(a) != Odd(b)
  {
  }

  /** One step of the shift register. */
  function Shift(l: bv32): bv32 {
    if Odd(l) then Xor(Half(l), POLYNOMIAL) else Half(l)
  }

  function Advance(l: bv32, n: nat): bv32 {
    if n == 0 then l else Shift(Advance(l, n - 1))
  }

  /** The register after the bytes of s, starting from l. */
  function Register(l: bv32, s: Bytes): bv32 {
    if s == [] then l else Advance(Xor(Register(l, s[..|s| - 1]), s[|s| - 1] as bv32), 8)
  }

  /** The CRC of a string whose earlier part has CRC `crc`. */
  function Crc(crc: bv32, s: Bytes): bv32 {
    Xor(Register(Xor(crc, CRC32_XOR), s), CRC32_XOR)
  }

  function Value(s: Bytes): bv32 { Crc(0, s) }

  lemma ShiftLinear(a: bv32, b: bv32)
    ensures Shift(Xor(a, b)) == Xor(Shift(a), Shift(b))
  {
    hide Xor, Odd, Half;
    var x, y, p := Half(a), Half(b), POLYNOMIAL;
    HalfOfXor(a, b);
    XorAssociates(x, y, p);
    XorSwaps(x, y, p);
    XorAssociates(Xor(x, p), y, p);
    XorAssociates(Xor(x, y), p, p);
    XorSelf(p);
    XorSelf(Xor(x, y));
  }

  lemma {:induction false} AdvanceLinear(a: bv32, b: bv32, n: nat)
    ensures Advance(Xor(a, b), n) == Xor(Advance(a, n), Advance(b, n))
  {
    hide Xor, Shift;
    if n > 0 {
      AdvanceLinear(a, b, n - 1);
      ShiftLinear(Advance(a, n - 1), Advance(b, n - 1));
    }
  }

  lemma {:induction false} AdvanceTwice(l: bv32, m: nat, n: nat)
    ensures Advance(l, m + n) == Advance(Advance(l, m), n)
  {
    if n > 0 {
      AdvanceTwice(l, m, n - 1);
    }
  }

  lemma Advance8(l: bv32)
    ensures Advance(l, 8) == Shift(Shift(Shift(Shift(Shift(Shift(Shift(Shift(l))))))))
  {
    hide Shift;
    assert Advance(l, 1) == Shift(Advance(l, 0));
    assert Advance(l, 2) == Shift(Advance(l, 1));
    assert Advance(l, 3) == Shift(Advance(l, 2));
    assert Advance(l, 4) == Shift(Advance(l, 3));
    assert Advance(l, 5) == Shift(Advance(l, 4));
    assert Advance(l, 6) == Shift(Advance(l, 5));
    assert Advance(l, 7) == Shift(Advance(l, 6));
  }

  /** Eight zero bits just fall out. */
  lemma ZeroByteFallsOut(l: bv32)
    requires l & 0xff == 0
    ensures Advance(l, 8) == l >> 8
  {
    hide Advance, Xor;
    Advance8(l);
    EightZeroBits(l);
  }

  lemma EightZeroBits(l: bv32)
    requires l & 0xff == 0
    ensures Shift(Shift(Shift(Shift(Shift(Shift(Shift(Shift(l)))))))) == l >> 8
  {
    hide Xor, Odd, Half;
    ZeroBits(l);
  }

  lemma ZeroBits(l: bv32)
    requires l & 0xff == 0
    ensures !Odd(l) && Half(l) == l >> 1 && !Odd(l >> 1) && Half(l >> 1) == l >> 2
    ensures !Odd(l >> 2) && Half(l >> 2) == l >> 3 && !Odd(l >> 3) && Half(l >> 3) == l >> 4
    ensures !Odd(l >> 4) && Half(l >> 4) == l >> 5 && !Odd(l >> 5) && Half(l >> 5) == l >> 6
    ensures !Odd(l >> 6) && Half(l >> 6) == l >> 7 && !Odd(l >> 7) && Half(l >> 7) == l >> 8
  {
  }

  /** A CRC may be computed piece by piece. */
  lemma {:induction false} RegisterAppend(l: bv32, a: Bytes, b: Bytes)
    ensures Register(l, a + b) == Register(Register(l, a), b)
  {
    hide Advance, Xor;
    if b == [] {
      assert a + b == a;
    } else {
      var n := |b| - 1;
      RegisterAppend(l, a, b[..n]);
      assert (a + b)[..|a + b| - 1] == a + b[..n];
    }
  }

  lemma CrcAppend(crc: bv32, a: Bytes, b: Bytes)
    ensures Crc(Crc(crc, a), b) == Crc(crc, a + b)
  {
    hide Xor, Register;
    RegisterAppend(Xor(crc, CRC32_XOR), a, b);
    var r := Register(Xor(crc, CRC32_XOR), a);
    XorAssociates(r, CRC32_XOR, CRC32_XOR);
    XorSelf(CRC32_XOR);
    XorSelf(r);
  }

  // ---------- The tables ----------

  /** kByteExtensionTable: eight steps from the byte c. */
  function ByteExtension(c: bv32): bv32 { Advance(c, 8) }

  /** kStrideExtensionTable0..3: 128 steps from the byte c at its place in a word. */
  function StrideExtension0(c: bv32): bv32 { Advance(c << 24, 128) }

  function StrideExtension1(c: bv32): bv32 { Advance(c << 16, 128) }

  function StrideExtension2(c: bv32): bv32 { Advance(c << 8, 128) }

  function StrideExtension3(c: bv32): bv32 { Advance(c, 128) }

  /** The entries of the byte table from which linearity gives all others. */
  lemma ByteTableBasis()
    ensures ByteExtension(1) == 0xf26b8303
    ensures ByteExtension(2) == 0xe13b70f7
    ensures ByteExtension(4) == 0xc79a971f
    ensures ByteExtension(8) == 0x8ad958cf
    ensures ByteExtension(16) == 0x105ec76f
    ensures ByteExtension(32) == 0x20bd8ede
    ensures ByteExtension(64) == 0x417b1dbc
    ensures ByteExtension(128) == 0x82f63b78
  {
  }

  lemma AdvanceNothing(n: nat)
    ensures Advance(0, n) == 0
  {
    hide Advance;
    XorSelf(0);
    AdvanceLinear(0, 0, n);
    XorSelf(Advance(0, n));
  }

  /** The entry for a single bit of c, and zero if c does not have it. */
  function BasisEntry(c: bv32, bit: bv32, entry: bv32): bv32 { if c & bit == 0 then 0 else entry }

  lemma BitAdvances(c: bv32, bit: bv32, part: bv32, entry: bv32)
    requires part == c & bit && (part == 0 || part == bit) && ByteExtension(bit) == entry
    ensures ByteExtension(part) == BasisEntry(c, bit, entry)
  {
    hide Advance;
    AdvanceNothing(8);
  }

  function Xor8(a: bv32, b: bv32, c: bv32, d: bv32, e: bv32, f: bv32, g: bv32, h: bv32): bv32 {
    Xor(Xor(Xor(Xor(Xor(Xor(Xor(a, b), c), d), e), f), g), h)
  }

  lemma ByteOfBits(c: bv32)
    requires c < 256
    ensures c == Xor8(c & 1, c & 2, c & 4, c & 8, c & 16, c & 32, c & 64, c & 128)
    ensures (c & 1 == 0 || c & 1 == 1) && (c & 2 == 0 || c & 2 == 2) && (c & 4 == 0 || c & 4 == 4)
    ensures (c & 8 == 0 || c & 8 == 8) && (c & 16 == 0 || c & 16 == 16) && (c & 32 == 0 || c & 32 == 32)
    ensures (c & 64 == 0 || c & 64 == 64) && (c & 128 == 0 || c & 128 == 128)
  {
  }

  lemma Advance8Bits(a: bv32, b: bv32, c: bv32, d: bv32, e: bv32, f: bv32, g: bv32, h: bv32)
    ensures ByteExtension(Xor8(a, b, c, d, e, f, g, h)) ==
            Xor8(ByteExtension(a), ByteExtension(b), ByteExtension(c), ByteExtension(d),
                 ByteExtension(e), ByteExtension(f), ByteExtension(g), ByteExtension(h))
  {
    hide Advance, Xor;
    var x2 := Xor(a, b);
    var x3 := Xor(x2, c);
    var x4 := Xor(x3, d);
    var x5 := Xor(x4, e);
    var x6 := Xor(x5, f);
    AdvanceLinear(a, b, 8);
    AdvanceLinear(x2, c, 8);
    AdvanceLinear(x3, d, 8);
    AdvanceLinear(x4, e, 8);
    AdvanceLinear(x5, f, 8);
    AdvanceLinear(x6, g, 8);
    AdvanceLinear(Xor(x6, g), h, 8);
  }

  /** Every entry of the byte table is the exclusive or of the eight that the bits of its index select. */
  lemma ByteTable(c: bv32)
    requires c < 256
    ensures ByteExtension(c) ==
            Xor8(BasisEntry(c, 1, 0xf26b8303), BasisEntry(c, 2, 0xe13b70f7),
                 BasisEntry(c, 4, 0xc79a971f), BasisEntry(c, 8, 0x8ad958cf),
                 BasisEntry(c, 16, 0x105ec76f), BasisEntry(c, 32, 0x20bd8ede),
                 BasisEntry(c, 64, 0x417b1dbc), BasisEntry(c, 128, 0x82f63b78))
  {
    hide Xor8, ByteExtension, BasisEntry;
    ByteTableBasis();
    ByteOfBits(c);
    var b0, b1, b2, b3, b4, b5, b6, b7 := c & 1, c & 2, c & 4, c & 8, c & 16, c & 32, c & 64, c & 128;
    Advance8Bits(b0, b1, b2, b3, b4, b5, b6, b7);
    BitAdvances(c, 1, b0, 0xf26b8303);
    BitAdvances(c, 2, b1, 0xe13b70f7);
    BitAdvances(c, 4, b2, 0xc79a971f);
    BitAdvances(c, 8, b3, 0x8ad958cf);
    BitAdvances(c, 16, b4, 0x105ec76f);
    BitAdvances(c, 32, b5, 0x20bd8ede);
    BitAdvances(c, 64, b6, 0x417b1dbc);
    BitAdvances(c, 128, b7, 0x82f63b78);
  }

  /** STEP1: one table lookup moves the register over one byte. */
  lemma ByteStep(l: bv32, b: Byte)
    ensures Xor(ByteExtension(Xor(l & 0xff, b as bv32)), l >> 8) == Advance(Xor(l, b as bv32), 8)
  {
    hide Advance;
    var high := l & 0xffff_ff00;
    SplitByte(l, b as bv32);
    assert Xor(Xor(l & 0xff, b as bv32), high) == Xor(l, b as bv32);
    ZeroByteFallsOut(high) by { HighPart(l); }
    HighPart(l);
    AdvanceLinear(Xor(l & 0xff, b as bv32), high, 8);
  }

  lemma HighPart(l: bv32)
    ensures (l & 0xffff_ff00) & 0xff == 0 && (l & 0xffff_ff00) >> 8 == l >> 8
  {
  }

  lemma SplitByte(l: bv32, b: bv32)
    ensures Xor(Xor(l & 0xff, b), l & 0xffff_ff00) == Xor(l, b)
  {
    hide Xor;
    XorSwaps(l & 0xff, b, l & 0xffff_ff00);
    TwoParts(l);
  }

  lemma TwoParts(l: bv32)
    ensures Xor(l & 0xff, l & 0xffff_ff00) == l
  {
  }

  /** One inner step of STEP4W: the byte is in the register already. */
  lemma WordByteStep(w: bv32)
    ensures Xor(w >> 8, ByteExtension(w & 0xff)) == Advance(w, 8)
  {
    hide Xor, Advance, ByteExtension;
    ByteStep(w, 0);
    XorSelf(w & 0xff);
    XorSelf(w);
    XorCommutes(w >> 8, ByteExtension(w & 0xff));
  }

  /** The four lookups of STEP4 move a partial register over sixteen bytes. */
  lemma StrideStep(c: bv32)
    ensures Xor(Xor(Xor(StrideExtension3(c & 0xff), StrideExtension2((c >> 8) & 0xff)),
                    StrideExtension1((c >> 16) & 0xff)), StrideExtension0(c >> 24)) == Advance(c, 128)
  {
    hide Advance, Xor;
    var b0, b1, b2, b3 := c & 0xff, ((c >> 8) & 0xff) << 8, ((c >> 16) & 0xff) << 16, (c >> 24) << 24;
    AdvanceLinear(b0, b1, 128);
    AdvanceLinear(Xor(b0, b1), b2, 128);
    AdvanceLinear(Xor(Xor(b0, b1), b2), b3, 128);
    FourBytes(c, b0, b1, b2, b3);
  }

  lemma FourBytes(c: bv32, b0: bv32, b1: bv32, b2: bv32, b3: bv32)
    requires b0 == c & 0xff && b1 == ((c >> 8) & 0xff) << 8 && b2 == ((c >> 16) & 0xff) << 16 && b3 == (c >> 24) << 24
    ensures Xor(Xor(Xor(b0, b1), b2), b3) == c
  {
    var x1 := Xor(b0, b1);
    var x2 := Xor(x1, b2);
  }

  /** A byte that waits above k bytes reaches the low end after 8k bits. */
  lemma ByteFalls1(b: Byte)
    ensures Advance(Byte1(b), 8) == Byte0(b)
  {
    hide Advance;
    var w := Byte1(b);
    assert w & 0xff == 0 && w >> 8 == Byte0(b);
    ZeroByteFallsOut(w);
  }

  lemma ByteFalls2(b: Byte)
    ensures Advance(Byte2(b), 16) == Byte0(b)
  {
    hide Advance;
    var w := Byte2(b);
    assert w & 0xff == 0 && w >> 8 == Byte1(b);
    ZeroByteFallsOut(w);
    AdvanceTwice(w, 8, 8);
    ByteFalls1(b);
  }

  lemma ByteFalls3(b: Byte)
    ensures Advance(Byte3(b), 24) == Byte0(b)
  {
    hide Advance;
    var w := Byte3(b);
    assert w & 0xff == 0 && w >> 8 == Byte2(b);
    ZeroByteFallsOut(w);
    AdvanceTwice(w, 8, 16);
    ByteFalls2(b);
  }

  /** Bytes at different places of a word: or is exclusive or. */
  lemma WordIsXor(b0: Byte, b1: Byte, b2: Byte, b3: Byte)
    ensures Xor(Xor(Xor(Byte0(b0), Byte1(b1)), Byte2(b2)), Byte3(b3)) == LittleEndian(b0, b1, b2, b3)
  {
    hide Byte0, Byte1, Byte2, Byte3, Xor;
    BytePlaces(b0, b1, b2, b3);
    ApartIsXor(Byte0(b0), Byte1(b1), Byte2(b2), Byte3(b3), LittleEndian(b0, b1, b2, b3));
  }

  lemma ApartIsXor(w0: bv32, w1: bv32, w2: bv32, w3: bv32, w: bv32)
    requires w0 == w0 & 0xff && w1 == w1 & 0xff00 && w2 == w2 & 0xff_0000 && w3 == w3 & 0xff00_0000
    requires w == w0 | w1 | w2 | w3
    ensures Xor(Xor(Xor(w0, w1), w2), w3) == w
  {
    var x1 := Xor(w0, w1);
    var x2 := Xor(x1, w2);
  }

  lemma BytePlaces(b0: Byte, b1: Byte, b2: Byte, b3: Byte)
    ensures Byte0(b0) == Byte0(b0) & 0xff && Byte1(b1) == Byte1(b1) & 0xff00
    ensures Byte2(b2) == Byte2(b2) & 0xff_0000 && Byte3(b3) == Byte3(b3) & 0xff00_0000
  {
  }

  /** Four bytes at once: put them into the register as a word and advance 32 bits. */
  lemma WordStep(l: bv32, s: Bytes)
    requires |s| == 4
    ensures Register(l, s) == Advance(Xor(l, DecodeFixed32(s)), 32)
  {
    hide Advance, LittleEndian, Xor, Byte0, Byte1, Byte2, Byte3;
    var w0, w1, w2, w3 := Byte0(s[0]), Byte1(s[1]), Byte2(s[2]), Byte3(s[3]);
    var x1 := Xor(l, w0);
    var x2 := Xor(x1, w1);
    var x3 := Xor(x2, w2);
    var x4 := Xor(x3, w3);
    FirstByte(l, s);
    ByteFalls1(s[1]);
    NextByte(l, s, 1, x1, w1);
    assert Register(l, s[..2]) == Advance(x2, 16);
    ByteFalls2(s[2]);
    NextByte(l, s, 2, x2, w2);
    assert Register(l, s[..3]) == Advance(x3, 24);
    ByteFalls3(s[3]);
    NextByte(l, s, 3, x3, w3);
    assert s[..4] == s;
    XorFour(l, w0, w1, w2, w3);
    WordIsXor(s[0], s[1], s[2], s[3]);
  }

  lemma FirstByte(l: bv32, s: Bytes)
    requires |s| > 0
    ensures Register(l, s[..1]) == Advance(Xor(l, Byte0(s[0])), 8)
  {
    hide Advance, Xor;
    assert s[..1][..0] == [];
  }

  lemma NextByte(l: bv32, s: Bytes, k: nat, x: bv32, w: bv32)
    requires 0 < k < |s| && Register(l, s[..k]) == Advance(x, 8 * k) && Advance(w, 8 * k) == Byte0(s[k])
    ensures Register(l, s[..k + 1]) == Advance(Xor(x, w), 8 * (k + 1))
  {
    hide Advance, Xor;
    assert s[..k + 1][..k] == s[..k];
    AdvanceLinear(x, w, 8 * k);
    AdvanceTwice(Xor(x, w), 8 * k, 8);
  }

  lemma XorFour(l: bv32, w0: bv32, w1: bv32, w2: bv32, w3: bv32)
    ensures Xor(Xor(Xor(Xor(l, w0), w1), w2), w3) == Xor(l, Xor(Xor(Xor(w0, w1), w2), w3))
  {
    hide Xor;
    XorAssociates(l, w0, w1);
    XorAssociates(l, Xor(w0, w1), w2);
    XorAssociates(l, Xor(Xor(w0, w1), w2), w3);
  }

  // ---------- A string and its own CRC ----------

  lemma Ones32()
    ensures Advance(0xffff_ffff, 32) == 0xb798_b438
  {
    assert Advance(0xffff_ffff, 8) == 0xad82_acae;
    assert Advance(0xad82_acae, 8) == 0x0e9e_882d;
    assert Advance(0x0e9e_882d, 8) == 0x9f9b_5c85;
    assert Advance(0x9f9b_5c85, 8) == 0xb798_b438;
    AdvanceTwice(0xffff_ffff, 8, 8);
    AdvanceTwice(0xffff_ffff, 16, 8);
    AdvanceTwice(0xffff_ffff, 24, 8);
  }

  /** The CRC of any string followed by that string's CRC is the same number. */
  lemma Residue(s: Bytes)
    ensures Value(s + EncodeFixed32(Value(s))) == 0x4867_4bc7
  {
    hide Advance, Xor;
    var l := Register(Xor(0, CRC32_XOR), s);
    var v := Value(s);
    var tail := EncodeFixed32(v);
    RegisterAppend(Xor(0, CRC32_XOR), s, tail);
    WordStep(l, tail);
    XorAssociates(l, l, CRC32_XOR);
    XorSelf(l);
    XorSelf(CRC32_XOR);
    Ones32();
    assert Xor(0xb798_b438, 0xffff_ffff) == 0x4867_4bc7 by { XorOnes(); }
  }

  lemma XorOnes()
    ensures Xor(0xb798_b438, 0xffff_ffff) == 0x4867_4bc7
  {
  }

  // ---------- The strided computation ----------

  /** The register that four partial results, oldest first, stand for. */
  function Combined(c0: bv32, c1: bv32, c2: bv32, c3: bv32): bv32 {
    Xor(Xor(Xor(Advance(c0, 128), Advance(c1, 96)), Advance(c2, 64)), Advance(c3, 32))
  }

  /** Taking in a word: the oldest partial result moves over sixteen bytes and becomes the newest. */
  lemma StrideTakesWord(c0: bv32, c1: bv32, c2: bv32, c3: bv32, w: bv32)
    ensures Combined(c1, c2, c3, Xor(w, Advance(c0, 128))) == Advance(Xor(Combined(c0, c1, c2, c3), w), 32)
  {
    hide Advance, Xor;
    var a, b, c, d := Advance(c0, 128), Advance(c1, 96), Advance(c2, 64), Advance(c3, 32);
    AdvanceLinear(w, a, 32);
    AdvanceLinear(Xor(Xor(Xor(a, b), c), d), w, 32);
    AdvanceLinear(Xor(Xor(a, b), c), d, 32);
    AdvanceLinear(Xor(a, b), c, 32);
    AdvanceLinear(a, b, 32);
    AdvanceTwice(c1, 96, 32);
    AdvanceTwice(c2, 64, 32);
    AdvanceTwice(c3, 32, 32);
    FirstToLast(Advance(a, 32), Advance(b, 32), Advance(c, 32), Advance(d, 32), Advance(w, 32));
  }

  lemma FirstToLast(a: bv32, b: bv32, c: bv32, d: bv32, w: bv32)
    ensures Xor(Xor(Xor(b, c), d), Xor(w, a)) == Xor(Xor(Xor(Xor(a, b), c), d), w)
  {
    hide Xor;
    XorFour(a, b, c, d, w);
    XorCommutes(a, Xor(Xor(Xor(b, c), d), w));
    XorAssociates(Xor(Xor(b, c), d), w, a);
  }

  /** The first four words load the four partial results. */
  lemma StrideStarts(l: bv32, w0: bv32, w1: bv32, w2: bv32, w3: bv32)
    ensures Combined(Xor(w0, l), w1, w2, w3) ==
            Advance(Xor(Advance(Xor(Advance(Xor(Advance(Xor(l, w0), 32), w1), 32), w2), 32), w3), 32)
  {
    hide Advance, Xor;
    XorCommutes(w0, l);
    ThreeMore(Xor(l, w0), w1, w2, w3);
  }

  lemma ThreeMore(x: bv32, w1: bv32, w2: bv32, w3: bv32)
    ensures Combined(x, w1, w2, w3) == Advance(Xor(Advance(Xor(Advance(Xor(Advance(x, 32), w1), 32), w2), 32), w3), 32)
  {
    hide Advance, Xor;
    AdvanceLinear(Advance(x, 32), w1, 32);
    AdvanceTwice(x, 32, 32);
    AdvanceLinear(Xor(Advance(x, 64), Advance(w1, 32)), w2, 32);
    AdvanceLinear(Advance(x, 64), Advance(w1, 32), 32);
    AdvanceTwice(x, 64, 32);
    AdvanceTwice(w1, 32, 32);
    AdvanceLinear(Xor(Xor(Advance(x, 96), Advance(w1, 64)), Advance(w2, 32)), w3, 32);
    AdvanceLinear(Xor(Advance(x, 96), Advance(w1, 64)), Advance(w2, 32), 32);
    AdvanceLinear(Advance(x, 96), Advance(w1, 64), 32);
    AdvanceTwice(x, 96, 32);
    AdvanceTwice(w1, 64, 32);
    AdvanceTwice(w2, 32, 32);
  }

  /** The register after the next word of the data. */
  lemma NextWord(l: bv32, data: Bytes, p: nat)
    requires p + 4 <= |data|
    ensures Register(l, data[..p + 4]) == Advance(Xor(Register(l, data[..p]), DecodeFixed32(data[p..p + 4])), 32)
  {
    hide DecodeFixed32, Advance;
    assert data[..p + 4] == data[..p] + data[p..p + 4];
    RegisterAppend(l, data[..p], data[p..p + 4]);
    WordStep(Register(l, data[..p]), data[p..p + 4]);
  }

  method Step1(l: bv32, b: Byte) returns (l': bv32)
    ensures l' == Advance(Xor(l, b as bv32), 8)
  {
    hide Advance, Xor;
    ByteStep(l, b);
    var c := Xor(l & 0xff, b as bv32);
    l' := Xor(ByteExtension(c), l >> 8);
  }

  method Step4(c: bv32, word: Bytes) returns (c': bv32)
    requires |word| == 4
    ensures c' == Xor(DecodeFixed32(word), Advance(c, 128))
  {
    hide DecodeFixed32, Xor, StrideExtension0, StrideExtension1, StrideExtension2, StrideExtension3;
    StrideStep(c);
    var w, t3, t2, t1, t0 := DecodeFixed32(word), StrideExtension3(c & 0xff), StrideExtension2((c >> 8) & 0xff),
                             StrideExtension1((c >> 16) & 0xff), StrideExtension0(c >> 24);
    c' := Xor(Xor(Xor(Xor(w, t3), t2), t1), t0);
    XorFour(w, t3, t2, t1, t0);
  }

  method Step4W(l: bv32, word: bv32) returns (l': bv32)
    ensures l' == Advance(Xor(l, word), 32)
  {
    hide Advance, Xor;
    var w := Xor(word, l);
    XorCommutes(word, l);
    ghost var start := w;
    assert Advance(start, 0) == start by { AdvanceNone(start); }
    var i := 0;
    while i < 4
      invariant 0 <= i <= 4 && w == Advance(start, 8 * i)
    {
      WordByteStep(w);
      AdvanceTwice(start, 8 * i, 8);
      w := Xor(w >> 8, ByteExtension(w & 0xff));
      i := i + 1;
    }
    l' := w;
  }

  lemma AdvanceNone(l: bv32)
    ensures Advance(l, 0) == l
  {
  }

  /** Bytes of data[p..x], one at a time. */
  method ExtendBytes(l: bv32, ghost start: bv32, data: Bytes, p: nat, x: nat) returns (l': bv32)
    requires p <= x <= |data| && l == Register(start, data[..p])
    ensures l' == Register(start, data[..x])
  {
    hide Advance, Xor;
    l' := l;
    var i := p;
    while i < x
      invariant p <= i <= x && l' == Register(start, data[..i])
    {
      assert data[..i + 1][..i] == data[..i];
      l' := Step1(l', data[i]);
      i := i + 1;
    }
  }

  /** Sixteen-byte swaths and then single words, over four partial results. */
  method ExtendStrided(l: bv32, ghost start: bv32, data: Bytes, p: nat) returns (l': bv32, p': nat)
    requires p + 16 <= |data| && l == Register(start, data[..p])
    ensures p <= p' <= |data| && |data| - p' < 4 && l' == Register(start, data[..p'])
  {
    hide Advance, DecodeFixed32, Register, Combined, Xor;
    var w0, w1, w2, w3 := DecodeFixed32(data[p..p + 4]), DecodeFixed32(data[p + 4..p + 8]),
                          DecodeFixed32(data[p + 8..p + 12]), DecodeFixed32(data[p + 12..p + 16]);
    var c0, c1, c2, c3 := Xor(w0, l), w1, w2, w3;
    StrideStarts(l, w0, w1, w2, w3);
    NextWord(start, data, p);
    NextWord(start, data, p + 4);
    NextWord(start, data, p + 8);
    NextWord(start, data, p + 12);
    var q := p + 16;
    while |data| - q >= 16
      invariant p <= q <= |data| && Combined(c0, c1, c2, c3) == Register(start, data[..q])
    {
      c0, c1, c2, c3 := Step16(c0, c1, c2, c3, start, data, q);
      q := q + 16;
    }
    while |data| - q >= 4
      invariant p <= q <= |data| && Combined(c0, c1, c2, c3) == Register(start, data[..q])
    {
      var tmp := Step4(c0, data[q..q + 4]);
      StrideTakesWord(c0, c1, c2, c3, DecodeFixed32(data[q..q + 4]));
      NextWord(start, data, q);
      c0, c1, c2, c3 := c1, c2, c3, tmp;
      q := q + 4;
    }
    l' := Combine(c0, c1, c2, c3);
    p' := q;
  }

  method Step16(c0: bv32, c1: bv32, c2: bv32, c3: bv32, ghost start: bv32, data: Bytes, q: nat)
    returns (d0: bv32, d1: bv32, d2: bv32, d3: bv32)
    requires q + 16 <= |data| && Combined(c0, c1, c2, c3) == Register(start, data[..q])
    ensures Combined(d0, d1, d2, d3) == Register(start, data[..q + 16])
  {
    hide Advance, DecodeFixed32, Register, Combined, Xor;
    d0 := Step4(c0, data[q..q + 4]);
    d1 := Step4(c1, data[q + 4..q + 8]);
    d2 := Step4(c2, data[q + 8..q + 12]);
    d3 := Step4(c3, data[q + 12..q + 16]);
    StrideTakesWord(c0, c1, c2, c3, DecodeFixed32(data[q..q + 4]));
    StrideTakesWord(c1, c2, c3, d0, DecodeFixed32(data[q + 4..q + 8]));
    StrideTakesWord(c2, c3, d0, d1, DecodeFixed32(data[q + 8..q + 12]));
    StrideTakesWord(c3, d0, d1, d2, DecodeFixed32(data[q + 12..q + 16]));
    NextWord(start, data, q);
    NextWord(start, data, q + 4);
    NextWord(start, data, q + 8);
    NextWord(start, data, q + 12);
  }

  method Combine(c0: bv32, c1: bv32, c2: bv32, c3: bv32) returns (l: bv32)
    ensures l == Combined(c0, c1, c2, c3)
  {
    hide Advance, Xor;
    l := Step4W(0, c0);
    XorSelf(c0);
    l := Step4W(l, c1);
    l := Step4W(l, c2);
    l := Step4W(l, c3);
    ThreeMore(c0, c1, c2, c3);
  }

  /** Extend, for data that starts at an address with the given remainder modulo four. */
  method Extend(crc: bv32, data: Bytes, address: nat) returns (r: bv32)
    ensures r == Crc(crc, data)
  {
    hide Advance, Register, Xor;
    var l := Xor(crc, CRC32_XOR);
    ghost var start := l;
    var p := 0;
    assert l == Register(start, data[..0]) by { RegisterNone(start, data); }
    var x := (4 - address % 4) % 4;
    if x <= |data| {
      l := ExtendBytes(l, start, data, 0, x);
      p := x;
    }
    if |data| - p >= 16 {
      l, p := ExtendStrided(l, start, data, p);
    }
    l := ExtendBytes(l, start, data, p, |data|);
    assert data[..|data|] == data;
    r := Xor(l, CRC32_XOR);
  }

  lemma RegisterNone(l: bv32, data: Bytes)
    ensures Register(l, data[..0]) == l
  {
  }

  // ---------- Masked values, as they are stored ----------

  function Mask(crc: bv32): bv32 { ((crc >> 15) | (crc << 17)) + 0xa282ead8 }

  function Unmask(masked: bv32): bv32 {
    var rot := masked - 0xa282ead8;
    (rot >> 17) | (rot << 15)
  }

  lemma UnmaskInvertsMask(v: bv32)
    ensures Unmask(Mask(v)) == v && Mask(Unmask(v)) == v
  {
  }
}
