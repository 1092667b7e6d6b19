/** What surrounds the blocks of a table file: handles, trailers with checksums, the footer. */
module TableFormat {
  import opened Coding
  import opened Varints
  import opened Options
  import C = Crc32c

  datatype BlockHandle = BlockHandle(offset: nat, size: nat)

  // ---------- Handles ----------

  /** BlockHandle::EncodeTo. */
  function HandleBytes(h: BlockHandle): Bytes {
    EncodeVarint(h.offset) + EncodeVarint(h.size)
  }

  predicate HandleOk(h: BlockHandle) { h.offset < WIDTH64 && h.size < WIDTH64 }

  /** BlockHandle::DecodeFrom: the handle and the place behind it. */
  function HandleAt(s: Bytes, p: nat): Option<(BlockHandle, nat)> {
    match Varint64At(s, p, |s|)
    case None => None
    case Some((offset, q)) =>
      match Varint64At(s, q, |s|)
      case None => None
      case Some((size, r)) => Some((BlockHandle(offset, size), r))
  }

  method EncodeHandle(h: BlockHandle) returns (s: Bytes)
    requires HandleOk(h)
    ensures s == HandleBytes(h)
  {
    hide EncodeVarint;
    var a := EncodeVarint64(h.offset);
    var b := EncodeVarint64(h.size);
    s := a + b;
  }

  method DecodeHandle(s: Bytes, p: nat) returns (r: Option<(BlockHandle, nat)>)
    ensures r == HandleAt(s, p)
  {
    hide Varint64At;
    var a := GetVarint64(s, p, |s|);
    if a.None? {
      return None;
    }
    var b := GetVarint64(s, a.value.1, |s|);
    if b.None? {
      return None;
    }
    return Some((BlockHandle(a.value.0, b.value.0), b.value.1));
  }

  lemma HandleRoundTrip(s: Bytes, p: nat, h: BlockHandle)
    requires HandleOk(h) && p + |HandleBytes(h)| <= |s| && s[p..p + |HandleBytes(h)|] == HandleBytes(h)
    ensures HandleAt(s, p) == Some((h, p + |HandleBytes(h)|))
  {
    hide EncodeVarint, Varint64At;
    var a, b := EncodeVarint(h.offset), EncodeVarint(h.size);
    var q := p + |a|;
    var r := q + |b|;
    var all := s[p..r];
    assert s[p..q] == all[..|a|] == a;
    assert s[q..r] == all[|a|..] == b;
    Decode64At(s, p, |s|, h.offset);
    Decode64At(s, q, |s|, h.size);
  }

  lemma WholeHandle(h: BlockHandle)
    requires HandleOk(h)
    ensures HandleAt(HandleBytes(h), 0) == Some((h, |HandleBytes(h)|))
  {
    hide HandleBytes, HandleAt;
    var s := HandleBytes(h);
    assert s[0..0 + |s|] == s;
    HandleRoundTrip(s, 0, h);
  }

  lemma {:induction false} VarintSize(v: nat, n: nat)
    requires v < Power128(n) && n > 0
    ensures |EncodeVarint(v)| <= n
  {
    if v >= 128 {
      VarintSize(v / 128, n - 1);
    }
  }

  lemma HandleSize(h: BlockHandle)
    requires HandleOk(h)
    ensures |HandleBytes(h)| <= 20
  {
    hide EncodeVarint;
    assert Power128(10) > WIDTH64 by {
      assert Power128(2) == 0x4000;
      assert Power128(4) == 0x1000_0000;
      assert Power128(6) == 0x400_0000_0000;
      assert Power128(8) == 0x100_0000_0000_0000;
    }
    VarintSize(h.offset, 10);
    VarintSize(h.size, 10);
  }

  // ---------- The footer ----------

  const MAX_HANDLE: nat := 20
  const FOOTER_SIZE: nat := 48
  const MAGIC_LOW: nat := 0x8b80fb57
  const MAGIC_HIGH: nat := 0xdb477524

  function Padding(n: nat): (r: Bytes)
    ensures |r| == n
  {
    seq(n, i => 0)
  }

  function MagicBytes(): (r: Bytes)
    ensures |r| == 8
  {
    FixedOf(MAGIC_LOW, 4) + FixedOf(MAGIC_HIGH, 4)
  }

  /** Footer::EncodeTo. */
  function FooterBytes(meta: BlockHandle, index: BlockHandle): (r: Bytes)
    requires HandleOk(meta) && HandleOk(index)
    ensures |r| == FOOTER_SIZE
  {
    HandleSize(meta);
    HandleSize(index);
    var handles := HandleBytes(meta) + HandleBytes(index);
    handles + Padding(2 * MAX_HANDLE - |handles|) + MagicBytes()
  }

  /** Footer::DecodeFrom. */
  method DecodeFooter(s: Bytes) returns (r: Option<(BlockHandle, BlockHandle)>)
    requires |s| == FOOTER_SIZE
    ensures forall meta, index :: HandleOk(meta) && HandleOk(index) && s == FooterBytes(meta, index) ==>
              r == Some((meta, index))
    ensures r.Some? ==> NumberAt(s, 40, 4) == MAGIC_LOW && NumberAt(s, 44, 4) == MAGIC_HIGH
  {
    hide FooterBytes, HandleAt, NumberAt;
    forall meta, index | HandleOk(meta) && HandleOk(index) && s == FooterBytes(meta, index)
      ensures NumberAt(s, 40, 4) == MAGIC_LOW && NumberAt(s, 44, 4) == MAGIC_HIGH
      ensures HandleAt(s, 0).Some? && HandleAt(s, 0).value.0 == meta
      ensures HandleAt(s, HandleAt(s, 0).value.1).Some? && HandleAt(s, HandleAt(s, 0).value.1).value.0 == index
    {
      FooterParses(meta, index);
    }
    if NumberAt(s, 40, 4) != MAGIC_LOW || NumberAt(s, 44, 4) != MAGIC_HIGH {
      return None;
    }
    var meta := DecodeHandle(s, 0);
    if meta.None? {
      return None;
    }
    var index := DecodeHandle(s, meta.value.1);
    if index.None? {
      return None;
    }
    return Some((meta.value.0, index.value.0));
  }

  lemma FooterParses(meta: BlockHandle, index: BlockHandle)
    requires HandleOk(meta) && HandleOk(index)
    ensures var s := FooterBytes(meta, index);
            && NumberAt(s, 40, 4) == MAGIC_LOW && NumberAt(s, 44, 4) == MAGIC_HIGH
            && HandleAt(s, 0) == Some((meta, |HandleBytes(meta)|))
            && HandleAt(s, |HandleBytes(meta)|) == Some((index, |HandleBytes(meta)| + |HandleBytes(index)|))
  {
    hide HandleBytes, HandleAt, NumberAt, FixedOf;
    HandleSize(meta);
    HandleSize(index);
    var s, a, b := FooterBytes(meta, index), HandleBytes(meta), HandleBytes(index);
    assert s[0..0 + |a|] == a;
    assert s[|a|..|a| + |b|] == b;
    assert s[40..44] == FixedOf(MAGIC_LOW, 4);
    assert s[44..48] == FixedOf(MAGIC_HIGH, 4);
    HandleRoundTrip(s, 0, meta);
    HandleRoundTrip(s, |a|, index);
    Fixed32At(s, 40, MAGIC_LOW);
    Fixed32At(s, 44, MAGIC_HIGH);
  }

  // ---------- Blocks in the file ----------

  const TRAILER_SIZE: nat := 5

  /** The type (no compression) and the masked checksum of contents and type. */
  function Trailer(contents: Bytes): (r: Bytes)
    ensures |r| == TRAILER_SIZE
  {
    [0] + EncodeFixed32(C.Mask(C.Value(contents + [0])))
  }

  ghost predicate StoredBlock(file: Bytes, h: BlockHandle, contents: Bytes) {
    && h.size == |contents| && h.offset + h.size + TRAILER_SIZE <= |file|
    && file[h.offset..h.offset + h.size + TRAILER_SIZE] == contents + Trailer(contents)
  }

  lemma StoredStays(file: Bytes, more: Bytes, h: BlockHandle, contents: Bytes)
    requires StoredBlock(file, h, contents)
    ensures StoredBlock(file + more, h, contents)
  {
    hide Trailer;
    var p, q := h.offset, h.offset + h.size + TRAILER_SIZE;
    assert (file + more)[p..q] == file[p..q];
  }

  lemma StoredAtEnd(file: Bytes, contents: Bytes)
    ensures StoredBlock(file + contents + Trailer(contents), BlockHandle(|file|, |contents|), contents)
  {
    hide Trailer;
    var all := file + contents + Trailer(contents);
    assert all[|file|..] == contents + Trailer(contents);
    assert all[|file|..|file| + |contents| + TRAILER_SIZE] == all[|file|..];
  }

  /** The trailer WriteRawBlock appends. */
  method MakeTrailer(contents: Bytes) returns (r: Bytes)
    ensures r == Trailer(contents)
  {
    hide EncodeFixed32, C.Mask, C.Crc;
    var crc := C.Extend(0, contents, 0);
    C.CrcAppend(0, contents, [0]);
    crc := C.Extend(crc, [0], 0);
    r := [0] + EncodeFixed32(C.Mask(crc));
  }

  /** ReadBlock: what a handle points to, if the file is long enough, the checksum (when asked
      for) is right and the block is not compressed. */
  method ReadBlock(file: Bytes, h: BlockHandle, verifyChecksums: bool) returns (r: Option<Bytes>)
    ensures forall contents :: StoredBlock(file, h, contents) ==> r == Some(contents)
    ensures r.Some? ==> h.offset + h.size <= |file| && r.value == file[h.offset..h.offset + h.size]
    ensures var p, q := h.offset + h.size, h.offset + h.size + 5;
            r.Some? <==> && q <= |file| && file[p] == 0
                         && (verifyChecksums ==>
                              C.Unmask(DecodeFixed32(file[p + 1..q])) == C.Value(file[h.offset..p + 1]))
  {
    hide StoredBlock, C.Mask, C.Unmask, C.Crc, DecodeFixed32;
    var n := h.size;
    forall contents | StoredBlock(file, h, contents)
      ensures h.offset + n + TRAILER_SIZE <= |file|
      ensures BlockParts(file[h.offset..h.offset + n + TRAILER_SIZE], n, contents)
    {
      StoredParses(file, h, contents);
    }
    if h.offset + n + TRAILER_SIZE > |file| {
      return None;
    }
    var data := file[h.offset..h.offset + n + TRAILER_SIZE];
    assert file[h.offset..h.offset + n] == data[..n] && file[h.offset..h.offset + n + 1] == data[..n + 1];
    assert file[h.offset + n] == data[n] && file[h.offset + n + 1..h.offset + n + 5] == data[n + 1..];
    if verifyChecksums {
      var crc := C.Unmask(DecodeFixed32(data[n + 1..]));
      var actual := C.Extend(0, data[..n + 1], 0);
      if actual != crc {
        return None;
      }
    }
    if data[n] != 0 {
      return None;
    }
    return Some(data[..n]);
  }

  /** What the reader finds in a stored block. */
  ghost predicate BlockParts(data: Bytes, n: nat, contents: Bytes) {
    && |data| == n + TRAILER_SIZE && data[..n] == contents && data[n] == 0
    && C.Unmask(DecodeFixed32(data[n + 1..])) == C.Value(data[..n + 1])
  }

  lemma StoredParses(file: Bytes, h: BlockHandle, contents: Bytes)
    requires StoredBlock(file, h, contents)
    ensures h.offset + h.size + TRAILER_SIZE <= |file|
    ensures BlockParts(file[h.offset..h.offset + h.size + TRAILER_SIZE], h.size, contents)
  {
    hide C.Mask, C.Unmask, C.Crc, DecodeFixed32, EncodeFixed32;
    var data, n := file[h.offset..h.offset + h.size + TRAILER_SIZE], h.size;
    assert data[..n] == contents && data[n] == 0;
    assert data[..n + 1] == contents + [0];
    C.UnmaskInvertsMask(C.Value(contents + [0]));
    assert data[n + 1..] == EncodeFixed32(C.Mask(C.Value(contents + [0])));
  }
}
