/** Bloom filters over 32-bit hashes, and why they never miss a key. */
module Bloom {
  import opened Coding
  import opened Varints

  /** `1 << (bit % 8)`. */
  function Mask(bit: nat): Byte {
    var b := bit % 8;
    if b == 0 then 1 else if b == 1 then 2 else if b == 2 then 4 else if b == 3 then 8
    else if b == 4 then 16 else if b == 5 then 32 else if b == 6 then 64 else 128
  }

  predicate IsSet(bits: Bytes, bit: nat) {
    bit / 8 < |bits| && bits[bit / 8] & Mask(bit) != 0
  }

  function SetBit(bits: Bytes, bit: nat): (r: Bytes)
    requires bit / 8 < |bits|
    ensures |r| == |bits|
  {
    bits[bit / 8 := bits[bit / 8] | Mask(bit)]
  }

  lemma SetIsSet(bits: Bytes, bit: nat, other: nat)
    requires bit / 8 < |bits|
    ensures IsSet(SetBit(bits, bit), bit)
    ensures IsSet(SetBit(bits, bit), other) <==> IsSet(bits, other) || other == bit
  {
    if other / 8 < |bits| && other / 8 == bit / 8 && other != bit {
      SetApart(bits[bit / 8], bit % 8, other % 8);
    }
  }

  lemma SetApart(b: Byte, i: nat, j: nat)
    requires i < 8 && j < 8 && i != j
    ensures (b | Mask(i)) & Mask(j) == b & Mask(j)
  {
  }

  /** `(h >> 17) | (h << 15)`, rotating right by 17 in 32 bits. */
  function Rotate(h: nat): nat {
    h / 0x2_0000 + h % 0x2_0000 * 0x8000
  }

  /** The hash after j more additions of delta, in 32 bits. */
  function Probe(h: nat, delta: nat, j: nat): nat {
    if j == 0 then h % WIDTH32 else (Probe(h, delta, j - 1) + delta) % WIDTH32
  }

  /** The high 15 bits and the low 17 bits change places. */
  lemma RotateSwaps(h: nat)
    requires h < WIDTH32
    ensures Rotate(h) % 0x8000 == h / 0x2_0000 && Rotate(h) / 0x8000 == h % 0x2_0000
  {
  }

  lemma {:induction false} ProbeIs(h: nat, delta: nat, j: nat, n: nat)
    requires n == j * delta
    ensures Probe(h, delta, j) == (h + n) % WIDTH32
  {
    if j > 0 {
      var before := n - delta;
      OneLess(j, delta);
      ProbeIs(h, delta, j - 1, before);
      ModAdds(h + before, delta);
    }
  }

  lemma OneLess(j: nat, delta: nat)
    requires j > 0
    ensures (j - 1) * delta == j * delta - delta >= 0
  {
  }

  lemma ModAdds(a: nat, b: nat)
    ensures (a % WIDTH32 + b) % WIDTH32 == (a + b) % WIDTH32
  {
    var q := a / WIDTH32;
    var r := (a % WIDTH32 + b) / WIDTH32;
    assert a + b == (q + r) * WIDTH32 + (a % WIDTH32 + b) % WIDTH32;
  }

  /** Where probe j looks. */
  function BitFor(h: nat, j: nat, bits: nat): nat
    requires bits > 0
  {
    Probe(h, Rotate(h), j) % bits
  }

  /** The first k probes for a hash all hit set bits. */
  ghost predicate AllSet(arr: Bytes, h: nat, k: nat) {
    |arr| > 0 && forall j :: 0 <= j < k ==> IsSet(arr, BitFor(h, j, 8 * |arr|))
  }

  /** Bits per key, and how many probes each key gets. */
  datatype Policy = Policy(bitsPerKey: nat, k: nat)

  function FilterBytes(p: Policy, n: nat): (bytes: nat)
    ensures bytes >= 8
  {
    var bits := n * p.bitsPerKey;
    ((if bits < 64 then 64 else bits) + 7) / 8
  }

  /** The array after the first k probes for a hash. */
  function WithProbes(arr: Bytes, h: nat, k: nat): (r: Bytes)
    requires arr != []
    ensures |r| == |arr|
  {
    if k == 0 then arr
    else
      var before := WithProbes(arr, h, k - 1);
      SetBit(before, BitFor(h, k - 1, 8 * |arr|))
  }

  function WithKeys(arr: Bytes, hashes: seq<nat>, k: nat): (r: Bytes)
    requires arr != []
    ensures |r| == |arr|
  {
    if hashes == [] then arr else WithProbes(WithKeys(arr, hashes[..|hashes| - 1], k), hashes[|hashes| - 1], k)
  }

  function Zeros(n: nat): (r: Bytes)
    ensures |r| == n
  {
    seq(n, i => 0)
  }

  /** The filter of some hashes: the bits, and the number of probes. */
  function Filter(p: Policy, hashes: seq<nat>): Bytes
    requires p.k <= 30
  {
    WithKeys(Zeros(FilterBytes(p, |hashes|)), hashes, p.k) + [ByteOf(p.k)]
  }

  lemma {:induction false} ProbesSet(arr: Bytes, h: nat, k: nat)
    requires arr != []
    ensures AllSet(WithProbes(arr, h, k), h, k)
    ensures forall bit :: IsSet(arr, bit) ==> IsSet(WithProbes(arr, h, k), bit)
  {
    hide SetBit, IsSet, BitFor;
    if k > 0 {
      ProbesSet(arr, h, k - 1);
      var before, bit := WithProbes(arr, h, k - 1), BitFor(h, k - 1, 8 * |arr|);
      BitForIs(h, k - 1, 8 * |arr|);
      forall other
        ensures IsSet(SetBit(before, bit), bit)
        ensures IsSet(before, other) ==> IsSet(SetBit(before, bit), other)
      {
        SetIsSet(before, bit, other);
      }
    }
  }

  lemma {:induction false} KeysSet(arr: Bytes, hashes: seq<nat>, k: nat, h: nat)
    requires arr != [] && h in hashes
    ensures AllSet(WithKeys(arr, hashes, k), h, k)
  {
    hide IsSet, BitFor, WithProbes;
    var n := |hashes| - 1;
    var before := WithKeys(arr, hashes[..n], k);
    ProbesSet(before, hashes[n], k);
    if h != hashes[n] {
      assert h in hashes[..n];
      KeysSet(arr, hashes[..n], k, h);
    }
  }

  /** Some probe of some key looks at the bit. */
  ghost predicate Probed(hashes: seq<nat>, k: nat, bits: nat, bit: nat)
    requires bits > 0
  {
    exists h, j: nat :: h in hashes && j < k && BitFor(h, j, bits) == bit
  }

  lemma {:induction false} ProbesExactly(arr: Bytes, h: nat, k: nat, bit: nat)
    requires arr != []
    ensures IsSet(WithProbes(arr, h, k), bit) <==>
              IsSet(arr, bit) || exists j: nat :: j < k && BitFor(h, j, 8 * |arr|) == bit
  {
    hide SetBit, IsSet, BitFor;
    if k > 0 {
      ProbesExactly(arr, h, k - 1, bit);
      BitForIs(h, k - 1, 8 * |arr|);
      SetIsSet(WithProbes(arr, h, k - 1), BitFor(h, k - 1, 8 * |arr|), bit);
    }
  }

  lemma {:induction false} KeysExactly(arr: Bytes, hashes: seq<nat>, k: nat, bit: nat)
    requires arr != []
    ensures IsSet(WithKeys(arr, hashes, k), bit) <==> IsSet(arr, bit) || Probed(hashes, k, 8 * |arr|, bit)
  {
    hide IsSet, BitFor, WithProbes;
    if hashes != [] {
      var n := |hashes| - 1;
      KeysExactly(arr, hashes[..n], k, bit);
      ProbesExactly(WithKeys(arr, hashes[..n], k), hashes[n], k, bit);
      assert forall h :: h in hashes <==> h in hashes[..n] || h == hashes[n];
    }
  }

  /** A bit of the filter is set if and only if some probe of some key looks at it. */
  lemma FilterIsExact(p: Policy, hashes: seq<nat>, bit: nat)
    requires p.k <= 30
    ensures var f := Filter(p, hashes); var n := |f| - 1;
            && n > 0 && NatOf(f[n]) == p.k && 64 <= 8 * n && |hashes| * p.bitsPerKey <= 8 * n
            && (8 * n < 72 || 8 * n < |hashes| * p.bitsPerKey + 8)
            && (IsSet(f[..n], bit) <==> Probed(hashes, p.k, 8 * n, bit))
  {
    hide NatOf, ByteOf, WithKeys, Mask;
    var arr := Zeros(FilterBytes(p, |hashes|));
    KeysExactly(arr, hashes, p.k, bit);
    ByteRoundTrip(p.k);
    var f := Filter(p, hashes);
    assert f[..|f| - 1] == WithKeys(arr, hashes, p.k);
    assert !IsSet(arr, bit);
  }

  /** CreateFilter: append the filter of the keys. */
  method CreateFilter(p: Policy, hashes: seq<nat>, dst: Bytes) returns (r: Bytes)
    requires p.k <= 30 && forall h :: h in hashes ==> h < WIDTH32
    ensures r == dst + Filter(p, hashes)
  {
    hide Mask, Rotate, SetBit, BitFor, ByteOf;
    var bytes := FilterBytes(p, |hashes|);
    var bits := bytes * 8;
    var arr := Zeros(bytes);
    var i := 0;
    while i < |hashes|
      invariant i <= |hashes| && arr == WithKeys(Zeros(bytes), hashes[..i], p.k)
    {
      var h := hashes[i];
      assert h in hashes;
      var delta, j := Rotate(h), 0;
      ghost var start := arr;
      while j < p.k
        invariant j <= p.k && arr == WithProbes(start, hashes[i], j) && h == Probe(hashes[i], delta, j)
      {
        var bitpos := h % bits;
        BitForIs(hashes[i], j, bits);
        arr := SetBit(arr, bitpos);
        h := (h + delta) % WIDTH32;
        j := j + 1;
      }
      assert hashes[..i + 1][..i] == hashes[..i];
      i := i + 1;
    }
    assert hashes[..i] == hashes;
    r := dst + (arr + [ByteOf(p.k)]);
  }

  lemma BitForIs(h: nat, j: nat, bits: nat)
    requires bits > 0
    ensures BitFor(h, j, bits) == Probe(h, Rotate(h), j) % bits < bits
  {
  }

  /** What KeyMayMatch answers. */
  ghost predicate Matches(h: nat, filter: Bytes) {
    && |filter| >= 2
    && var k := NatOf(filter[|filter| - 1]);
       k > 30 || AllSet(filter[..|filter| - 1], h, k)
  }

  /** KeyMayMatch: do all probes hit a set bit? */
  method KeyMayMatch(h: nat, filter: Bytes) returns (may: bool)
    requires h < WIDTH32
    ensures may == Matches(h, filter)
  {
    hide Mask, Rotate, BitFor, NatOf, IsSet;
    var len := |filter|;
    if len < 2 {
      return false;
    }
    var arr, bits, k := filter[..len - 1], (len - 1) * 8, NatOf(filter[len - 1]);
    if k > 30 {
      return true;
    }
    var g, delta, j := h, Rotate(h), 0;
    while j < k
      invariant j <= k && g == Probe(h, delta, j)
      invariant forall i :: 0 <= i < j ==> IsSet(arr, BitFor(h, i, bits))
    {
      var bitpos := g % bits;
      BitForIs(h, j, bits);
      if !IsSet(arr, bitpos) {
        assert !IsSet(arr, BitFor(h, j, 8 * |arr|));
        return false;
      }
      g := (g + delta) % WIDTH32;
      j := j + 1;
    }
    return true;
  }

  /** No false negatives. */
  lemma NeverMisses(p: Policy, hashes: seq<nat>, h: nat)
    requires p.k <= 30 && h in hashes
    ensures Matches(h, Filter(p, hashes))
  {
    hide NatOf, ByteOf, AllSet, WithKeys;
    var arr := Zeros(FilterBytes(p, |hashes|));
    KeysSet(arr, hashes, p.k, h);
    ByteRoundTrip(p.k);
    var filter := Filter(p, hashes);
    assert filter[..|filter| - 1] == WithKeys(arr, hashes, p.k);
  }
}
