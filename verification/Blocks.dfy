/** Blocks: prefix-compressed records with restart points (doc/table_format.md), the builder
    that writes them and the iterator that searches them. */
module Blocks {
  import opened Coding
  import opened Varints
  import opened Options

  datatype Record = Record(key: Bytes, value: Bytes)

  // ---------- The format ----------

  predicate SmallRecord(r: Record) { |r.key| < WIDTH32 && |r.value| < WIDTH32 }

  /** A record that shares its first key bytes with the record before. */
  function EntryBytes(shared: nat, r: Record): Bytes
    requires shared <= |r.key|
  {
    EncodeVarint(shared) + EncodeVarint(|r.key| - shared) + EncodeVarint(|r.value|) + (r.key[shared..] + r.value)
  }

  /** What a block holds: its records, the offset of each (and the end), how much key each
      shares, and the records at restart points. */
  datatype Layout = Layout(records: seq<Record>, offsets: seq<nat>, shares: seq<nat>, starts: seq<nat>)

  function KeyBefore(rs: seq<Record>, i: nat): Bytes
    requires i <= |rs|
  {
    if i == 0 then [] else rs[i - 1].key
  }

  ghost predicate RecordOk(data: Bytes, y: Layout, i: nat)
    requires i < |y.records| == |y.shares| && |y.offsets| == |y.records| + 1
  {
    var r, shared, p, q := y.records[i], y.shares[i], y.offsets[i], y.offsets[i + 1];
    && SmallRecord(r) && shared <= |r.key| && shared <= |KeyBefore(y.records, i)|
       && r.key[..shared] == KeyBefore(y.records, i)[..shared]
    && p < q <= |data| && data[p..q] == EntryBytes(shared, r)
  }

  /** The records follow one another from the start of data. */
  ghost predicate Laid(data: Bytes, y: Layout) {
    && |y.offsets| == |y.records| + 1 && |y.shares| == |y.records| && y.offsets[0] == 0
    && (forall i, j :: 0 <= i < j <= |y.records| ==> y.offsets[i] < y.offsets[j])
    && y.offsets[|y.records|] <= |data|
    && forall i: nat :: i < |y.records| ==> RecordOk(data, y, i)
  }

  /** Every `interval` records there is a restart point, whose record shares nothing. */
  ghost predicate Restarts(y: Layout, interval: nat) {
    && y.starts != [] && y.starts[0] == 0
    && (forall r, s :: 0 <= r && s == r + 1 < |y.starts| ==> y.starts[s] == y.starts[r] + interval)
    && (forall r, s :: 0 <= r < s < |y.starts| ==> y.starts[r] < y.starts[s])
    && |y.shares| == |y.records|
    && (if y.records == [] then |y.starts| == 1
        else forall r :: 0 <= r < |y.starts| ==> y.starts[r] < |y.records| && y.shares[y.starts[r]] == 0)
  }

  /** A finished block: the records, the restart points as fixed 32-bit offsets, their number. */
  ghost predicate BlockOk(data: Bytes, y: Layout, interval: nat) {
    && Laid(data, y) && Restarts(y, interval) && |data| < WIDTH32
    && var limit := y.offsets[|y.records|];
       && |data| == limit + 4 * |y.starts| + 4
       && (forall r :: 0 <= r < |y.starts| ==> RestartAt(data, limit, r) == y.offsets[y.starts[r]])
       && NumberAt(data, |data| - 4, 4) == |y.starts|
  }

  function RestartAt(data: Bytes, limit: nat, r: nat): nat {
    if limit + 4 * r + 4 <= |data| then NumberAt(data, limit + 4 * r, 4) else 0
  }

  // ---------- Decoding one record ----------

  datatype Header = Header(shared: nat, nonShared: nat, valueLength: nat, at: nat)

  /** Three varints, and room for what they announce (in 32-bit arithmetic). */
  function HeaderAt(data: Bytes, p: nat, limit: nat): (h: Option<Header>)
    requires limit <= |data|
    ensures h.Some? ==> p < h.value.at <= limit
  {
    match Varint32At(data, p, limit)
    case None => None
    case Some((shared, p1)) =>
      match Varint32At(data, p1, limit)
      case None => None
      case Some((nonShared, p2)) =>
        match Varint32At(data, p2, limit)
        case None => None
        case Some((valueLength, p3)) =>
          if limit - p3 < (nonShared + valueLength) % WIDTH32 then None
            else Some(Header(shared, nonShared, valueLength, p3))
  }

  lemma OneByte(s: Bytes, p: nat, limit: nat)
    requires p < limit <= |s| && NatOf(s[p]) < 128
    ensures Varint32At(s, p, limit) == Some((NatOf(s[p]), p + 1))
  {
    hide NatOf;
    VarintStep(s, p, limit, 0, 1, 5, WIDTH32);
  }

  lemma ByteSmall(a: Byte)
    ensures a < 128 <==> NatOf(a) < 128
  {
    hide Weight;
    assert a < 128 <==> !Has(a, 128);
    WeightsBelow(Has(a, 64), Has(a, 32), Has(a, 16), Has(a, 8), Has(a, 4), Has(a, 2), Has(a, 1));
    WeightIs(Has(a, 128));
  }

  lemma WeightIs(c: bool)
    ensures Weight(c, 128) == if c then 128 else 0
  {
  }

  lemma WeightsBelow(b6: bool, b5: bool, b4: bool, b3: bool, b2: bool, b1: bool, b0: bool)
    ensures Weight(b6, 64) + Weight(b5, 32) + Weight(b4, 16) + Weight(b3, 8) + Weight(b2, 4) + Weight(b1,
            2) + Weight(b0, 1) < 128
  {
  }

  /** DecodeEntry: three one-byte varints are read at once. */
  method DecodeEntry(data: Bytes, p: nat, limit: nat) returns (h: Option<Header>)
    requires p <= limit <= |data|
    ensures h == HeaderAt(data, p, limit)
  {
    hide NatOf, Varint32At;
    if limit - p < 3 {
      return None;
    }
    ByteSmall(data[p]);
    ByteSmall(data[p + 1]);
    ByteSmall(data[p + 2]);
    var shared, nonShared, valueLength, q := NatOf(data[p]), NatOf(data[p + 1]), NatOf(data[p + 2]), p + 3;
    if data[p] | data[p + 1] | data[p + 2] < 128 {
      OneByte(data, p, limit);
      OneByte(data, p + 1, limit);
      OneByte(data, p + 2, limit);
    } else {
      var first := GetVarint32(data, p, limit);
      if first.None? {
        return None;
      }
      var second := GetVarint32(data, first.value.1, limit);
      if second.None? {
        return None;
      }
      var third := GetVarint32(data, second.value.1, limit);
      if third.None? {
        return None;
      }
      shared, nonShared, valueLength, q := first.value.0, second.value.0, third.value.0, third.value.1;
    }
    if limit - q < (nonShared + valueLength) % WIDTH32 {
      return None;
    }
    return Some(Header(shared, nonShared, valueLength, q));
  }

  /** A written record is read back: lengths, key suffix and value. */
  lemma EntryDecodes(data: Bytes, p: nat, q: nat, limit: nat, shared: nat, r: Record)
    requires SmallRecord(r) && shared <= |r.key| && p < q <= limit <= |data| && data[p..q] == EntryBytes(shared, r)
             && limit < WIDTH32
    ensures HeaderAt(data, p, limit).Some?
    ensures var h := HeaderAt(data, p, limit).value;
            && h.shared == shared && h.nonShared == |r.key| - shared && h.valueLength == |r.value|
            && h.at + h.nonShared + h.valueLength == q
            && data[h.at..h.at + h.nonShared] == r.key[shared..] && data[h.at + h.nonShared..q] == r.value
  {
    hide EncodeVarint, Varint32At, SmallRecord;
    SmallParts(r);
    var a, b, c := EncodeVarint(shared), EncodeVarint(|r.key| - shared), EncodeVarint(|r.value|);
    var tail := r.key[shared..] + r.value;
    var p1 := p + |a|;
    var p2 := p1 + |b|;
    var p3 := p2 + |c|;
    Pieces(data, p, q, a, b, c, tail);
    Decode32At(data, p, limit, shared);
    Decode32At(data, p1, limit, |r.key| - shared);
    Decode32At(data, p2, limit, |r.value|);
    assert q == p3 + |tail|;
    var m := p3 + (|r.key| - shared);
    Inside(data, p3, q, 0, |r.key| - shared);
    Inside(data, p3, q, |r.key| - shared, q - p3);
  }

  lemma SmallParts(r: Record)
    requires SmallRecord(r)
    ensures |r.key| < WIDTH32 && |r.value| < WIDTH32
  {
  }

  lemma Pieces(data: Bytes, p: nat, q: nat, a: Bytes, b: Bytes, c: Bytes, d: Bytes)
    requires p <= q <= |data| && data[p..q] == a + b + c + d
    ensures q == p + |a| + |b| + |c| + |d|
    ensures data[p..p + |a|] == a && data[p + |a|..p + |a| + |b|] == b
    ensures data[p + |a| + |b|..p + |a| + |b| + |c|] == c && data[p + |a| + |b| + |c|..q] == d
  {
    var x, y, z := |a|, |a| + |b|, |a| + |b| + |c|;
    Inside(data, p, q, 0, x);
    Inside(data, p, q, x, y);
    Inside(data, p, q, y, z);
    Inside(data, p, q, z, q - p);
  }

  lemma Inside(data: Bytes, p: nat, q: nat, i: nat, j: nat)
    requires p <= q <= |data| && i <= j <= q - p
    ensures data[p + i..p + j] == data[p..q][i..j]
  {
    var s, t := data[p + i..p + j], data[p..q][i..j];
    assert |s| == |t|;
    forall k | 0 <= k < |s|
      ensures s[k] == t[k]
    {
      assert s[k] == data[p + i + k];
      assert t[k] == data[p..q][i + k];
    }
  }
}
