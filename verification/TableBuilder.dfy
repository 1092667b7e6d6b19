/** Writing a table file: data blocks as they fill, index entries one block late, and at the
    end the filter, the index and the footer. */
module TableBuilders {
  import opened Coding
  import opened Varints
  import opened Options
  import opened ByteKeys
  import opened Blocks
  import opened BlockIterators
  import opened BlockBuilders
  import opened TableFormat
  import opened Tables
  import F = FilterBlocks
  import P = Bloom

  // ---------- What has been written so far ----------

  ghost predicate IndexEntry(b: DataBlock, r: Record) {
    r == Record(b.separator, HandleBytes(b.handle)) && !KeyLess(b.separator, LastKey(b))
  }

  /** The first key behind block i: of the next block, or of the one in the making. */
  function KeyBehind(blocks: seq<DataBlock>, first: Bytes, i: nat): Bytes {
    if i + 1 < |blocks| then FirstKey(blocks[i + 1]) else first
  }

  /** The first m blocks are in the index, each apart from the keys behind it. */
  ghost predicate Indexed(blocks: seq<DataBlock>, m: nat, first: Bytes, index: seq<Record>) {
    && m <= |blocks| && |index| == m
    && (forall i: nat :: i < m ==> IndexEntry(blocks[i], index[i]))
    && (forall i: nat :: i < m ==> Separates(blocks[i].separator, LastKey(blocks[i]), KeyBehind(blocks, first, i)))
  }

  ghost predicate KeySizesOk(rs: seq<Record>) {
    forall i :: 0 <= i < |rs| ==> 8 <= |rs[i].key| < WIDTH32
  }

  /** All records added: those in blocks, then those of the block in the making. */
  ghost predicate Gathered(blocks: seq<DataBlock>, cur: seq<Record>, entries: seq<Record>, lastKey: Bytes) {
    && entries == AllRecords(blocks) + cur && Ordered(entries, KeyLess) && KeySizesOk(entries)
    && (entries != [] ==> lastKey == entries[|entries| - 1].key)
  }

  /** Every key in a block is filed under the piece of the file where the block starts. */
  ghost predicate Filed(fb: F.FilterBlockBuilder, blocks: seq<DataBlock>, cur: seq<Record>, offset: nat)
    reads fb
  {
    && |fb.filters| == offset / F.FILTER_BASE
    && (forall i, r :: 0 <= i < |blocks| && r in blocks[i].layout.records ==>
         r.key in fb.Filed(blocks[i].handle.offset / F.FILTER_BASE))
    && forall r :: r in cur ==> r.key in fb.pending
  }

  function WithSeparator(blocks: seq<DataBlock>, sep: Bytes): seq<DataBlock>
    requires blocks != []
  {
    var n := |blocks| - 1;
    blocks[n := blocks[n].(separator := sep)]
  }

  lemma SameRecords(blocks: seq<DataBlock>, sep: Bytes)
    requires blocks != []
    ensures AllRecords(WithSeparator(blocks, sep)) == AllRecords(blocks)
  {
    var n := |blocks| - 1;
    assert WithSeparator(blocks, sep)[..n] == blocks[..n];
  }

  lemma SameData(file: Bytes, blocks: seq<DataBlock>, interval: nat, sep: Bytes)
    requires blocks != [] && AllDataOk(file, blocks, interval)
    ensures AllDataOk(file, WithSeparator(blocks, sep), interval)
  {
    hide StoredBlock, BlockOk, Ordered;
    var blocks' := WithSeparator(blocks, sep);
    forall i | 0 <= i < |blocks'|
      ensures DataOk(file, blocks'[i], interval)
    {
      assert DataOk(file, blocks[i], interval);
    }
  }

  lemma DataStays(file: Bytes, more: Bytes, blocks: seq<DataBlock>, interval: nat)
    requires AllDataOk(file, blocks, interval)
    ensures AllDataOk(file + more, blocks, interval)
  {
    hide StoredBlock, BlockOk, Ordered;
    forall i | 0 <= i < |blocks|
      ensures DataOk(file + more, blocks[i], interval)
    {
      assert DataOk(file, blocks[i], interval);
      StoredStays(file, more, blocks[i].handle, blocks[i].contents);
    }
  }

  /** The next separator is behind the one before it. */
  lemma SeparatorsRise(file: Bytes, blocks: seq<DataBlock>, interval: nat, m: nat, first: Bytes, index: seq<Record>,
                       sep: Bytes)
    requires AllDataOk(file, blocks, interval) && Indexed(blocks, m, first, index) && m == |blocks| - 1
    requires Ordered(index, KeyLess) && !KeyLess(sep, LastKey(blocks[m]))
    ensures |index| == m && (index != [] ==> KeyLess(index[m - 1].key, sep))
  {
    hide KeyLess, StoredBlock, BlockOk, Ordered;
    if m > 0 {
      assert IndexEntry(blocks[m - 1], index[m - 1]);
      assert DataOk(file, blocks[m], interval);
      KeyOrder(blocks[m - 1].separator, FirstKey(blocks[m]), sep);
      if KeyLess(sep, FirstKey(blocks[m])) {
        FirstOrLast(blocks[m], sep);
      }
    }
  }

  lemma FirstOrLast(b: DataBlock, sep: Bytes)
    requires b.layout.records != [] && Ordered(b.layout.records, KeyLess)
    requires KeyLess(sep, FirstKey(b))
    ensures KeyLess(sep, LastKey(b))
  {
    hide KeyLess;
    if FirstKey(b) != LastKey(b) {
      KeyTransitive(sep, FirstKey(b), LastKey(b));
    }
  }

  /** The entry of the last block joins the index. */
  lemma IndexedNext(blocks: seq<DataBlock>, m: nat, first: Bytes, index: seq<Record>, sep: Bytes)
    requires Indexed(blocks, m, [], index) && m == |blocks| - 1
    requires Separates(sep, LastKey(blocks[m]), first)
    ensures var blocks' := WithSeparator(blocks, sep);
            Indexed(blocks', m + 1, first, index + [Record(sep, HandleBytes(blocks[m].handle))])
  {
    hide KeyLess, Separates, HandleBytes;
    var blocks', index' := WithSeparator(blocks, sep), index + [Record(sep, HandleBytes(blocks[m].handle))];
    SeparatesParts(sep, LastKey(blocks[m]), first);
    forall i: nat | i < m + 1
      ensures IndexEntry(blocks'[i], index'[i])
      ensures Separates(blocks'[i].separator, LastKey(blocks'[i]), KeyBehind(blocks', first, i))
    {
      if i < m {
        assert IndexEntry(blocks[i], index[i]);
        assert KeyBehind(blocks', first, i) == KeyBehind(blocks, [], i);
      }
    }
  }

  lemma SeparatesParts(sep: Bytes, last: Bytes, first: Bytes)
    requires Separates(sep, last, first)
    ensures !KeyLess(sep, last) && KeyLess(sep, first)
  {
  }

  /** With the last index entry, which separates from nothing, the index is complete. */
  lemma IndexComplete(blocks: seq<DataBlock>, m: nat, index: Layout, sep: Bytes)
    requires Indexed(blocks, m, [], index.records) && m == |blocks| - 1 && !KeyLess(sep, LastKey(blocks[m]))
    requires Ordered(index.records + [Record(sep, HandleBytes(blocks[m].handle))], KeyLess)
    ensures SeparatorsOk(WithSeparator(blocks, sep))
    ensures forall y: Layout :: y.records == index.records + [Record(sep, HandleBytes(blocks[m].handle))] ==>
              IndexOk(y, WithSeparator(blocks, sep))
  {
    hide KeyLess, Separates, HandleBytes, Ordered, SeparatorsOk, LastKey, FirstKey;
    LastSeparator(blocks, m, index.records, sep);
    var blocks' := WithSeparator(blocks, sep);
    forall i: nat | i < m
      ensures index.records[i] == Record(blocks'[i].separator, HandleBytes(blocks'[i].handle))
    {
      assert IndexEntry(blocks[i], index.records[i]);
    }
  }

  lemma SameEnds(blocks: seq<DataBlock>, sep: Bytes)
    requires blocks != []
    ensures forall i :: 0 <= i < |blocks| ==>
              LastKey(WithSeparator(blocks, sep)[i]) == LastKey(blocks[i])
                && FirstKey(WithSeparator(blocks, sep)[i]) == FirstKey(blocks[i])
  {
  }

  lemma LastSeparator(blocks: seq<DataBlock>, m: nat, index: seq<Record>, sep: Bytes)
    requires Indexed(blocks, m, [], index) && m == |blocks| - 1 && !KeyLess(sep, LastKey(blocks[m]))
    ensures SeparatorsOk(WithSeparator(blocks, sep))
  {
    hide KeyLess, Separates, HandleBytes, LastKey, FirstKey;
    SameEnds(blocks, sep);
    var blocks' := WithSeparator(blocks, sep);
    forall i | 0 <= i < |blocks'|
      ensures !KeyLess(blocks'[i].separator, LastKey(blocks'[i]))
    {
      assert i < m ==> IndexEntry(blocks[i], index[i]);
    }
    forall i: nat, j | j == i + 1 < |blocks'|
      ensures Separates(blocks'[i].separator, LastKey(blocks'[i]), FirstKey(blocks'[j]))
    {
      assert KeyBehind(blocks, [], i) == FirstKey(blocks[j]);
    }
  }

  // ---------- The records ----------

  lemma GatheredNext(blocks: seq<DataBlock>, cur: seq<Record>, entries: seq<Record>, lastKey: Bytes, r: Record)
    requires Gathered(blocks, cur, entries, lastKey) && 8 <= |r.key| < WIDTH32
             && (entries != [] ==> KeyLess(lastKey, r.key))
    ensures Gathered(blocks, cur + [r], entries + [r], r.key)
  {
    hide KeyLess, Ordered;
    OrderedNext(entries, KeyLess, r);
    assert AllRecords(blocks) + (cur + [r]) == AllRecords(blocks) + cur + [r];
  }

  lemma GatheredBlock(blocks: seq<DataBlock>, entries: seq<Record>, lastKey: Bytes, b: DataBlock)
    requires Gathered(blocks, b.layout.records, entries, lastKey)
    ensures Gathered(blocks + [b], [], entries, lastKey)
  {
    hide KeyLess, Ordered;
    assert (blocks + [b])[..|blocks|] == blocks;
    assert AllRecords(blocks + [b]) + [] == AllRecords(blocks) + b.layout.records;
  }

  lemma SameGathered(blocks: seq<DataBlock>, cur: seq<Record>, entries: seq<Record>, lastKey: Bytes, sep: Bytes)
    requires blocks != [] && Gathered(blocks, cur, entries, lastKey)
    ensures Gathered(WithSeparator(blocks, sep), cur, entries, lastKey)
  {
    hide KeyLess, Ordered, AllRecords;
    SameRecords(blocks, sep);
  }

  lemma GatheredParts(blocks: seq<DataBlock>, cur: seq<Record>, entries: seq<Record>, lastKey: Bytes)
    requires Gathered(blocks, cur, entries, lastKey)
    ensures cur != [] ==> lastKey == cur[|cur| - 1].key && entries != []
    ensures entries != [] ==> 8 <= |lastKey| < WIDTH32
    ensures cur == [] && blocks != [] && blocks[|blocks| - 1].layout.records != [] ==>
              entries != [] && lastKey == LastKey(blocks[|blocks| - 1])
  {
    hide KeyLess, Ordered;
  }

  // ---------- The builder ----------

  class TableBuilder {
    const blockSize: nat
    const interval: nat
    const dataBlock: BlockBuilder
    const indexBlock: BlockBuilder
    const filterBlock: F.FilterBlockBuilder?
    /** "filter." and the name of the policy: the key of the filter in the metaindex block. */
    const filterKey: Bytes
    var file: Bytes
    var offset: nat
    var lastKey: Bytes
    var numEntries: nat
    var closed: bool
    var pendingIndexEntry: bool
    var pendingHandle: BlockHandle
    ghost var blocks: seq<DataBlock>
    /** The records added. */
    ghost var entries: seq<Record>

    /** The blocks whose index entry is written. */
    ghost function Emitted(): nat
      reads this
    {
      if pendingIndexEntry && blocks != [] then |blocks| - 1 else |blocks|
    }

    ghost predicate IndexReady()
      reads this, indexBlock
    {
      indexBlock.Valid() && !indexBlock.finished && indexBlock.less == KeyLess && indexBlock.interval == 1
    }

    ghost predicate Parts()
      reads this, dataBlock, indexBlock, filterBlock
    {
      && dataBlock != indexBlock && IndexReady()
      && dataBlock.Valid() && !dataBlock.finished && dataBlock.less == KeyLess && dataBlock.interval == interval
      && (filterBlock != null ==> filterBlock.Valid() && Filed(filterBlock, blocks, dataBlock.y.records, offset))
    }

    /** What holds when the next block starts with key `first`. */
    ghost predicate Ready(first: Bytes)
      reads this, dataBlock, indexBlock, filterBlock
    {
      && Parts() && offset == |file| && numEntries == |entries|
      && AllDataOk(file, blocks, interval) && Indexed(blocks, Emitted(), first, indexBlock.y.records)
      && Gathered(blocks, dataBlock.y.records, entries, lastKey)
      && (pendingIndexEntry ==>
           blocks != [] && dataBlock.y.records == [] && pendingHandle == blocks[|blocks| - 1].handle)
    }

    ghost function First(): Bytes
      reads this, dataBlock
    {
      if dataBlock.y.records == [] then [] else dataBlock.y.records[0].key
    }

    ghost predicate Whole()
      reads this, dataBlock, indexBlock, filterBlock
    {
      Ready(First()) && (!pendingIndexEntry && dataBlock.y.records == [] ==> blocks == [])
    }

    ghost predicate Valid()
      reads this, dataBlock, indexBlock, filterBlock
    {
      Whole() && (dataBlock.CurrentSizeEstimate() < blockSize || dataBlock.CurrentSizeEstimate() == 8)
    }

    constructor (blockSize: nat, interval: nat, filter: Option<(P.Policy, Bytes)>, hashOf: Bytes -> nat)
      requires interval > 0 && ByUserKey(hashOf) && (filter.Some? ==> filter.value.0.k <= 30)
      ensures Valid() && entries == [] && !closed && fresh(dataBlock) && fresh(indexBlock)
      ensures filterBlock != null ==> fresh(filterBlock) && filterBlock.hashOf == hashOf
      ensures filterBlock != null <==> filter.Some?
      ensures this.interval == interval && this.blockSize == blockSize && (filter.Some? ==> filterKey == filter.value.1)
    {
      hide KeyLess, Built, Transitive, F.Flattened, F.OffsetsOk, F.AllFilters, AllDataOk, Indexed, Gathered;
      AllTransitive();
      NothingWritten(interval);
      var data := new BlockBuilder(interval, KeyLess);
      var index := new BlockBuilder(1, KeyLess);
      var filterBuilder: F.FilterBlockBuilder? := null;
      if filter.Some? {
        filterBuilder := new F.FilterBlockBuilder(filter.value.0, hashOf);
        filterBuilder.StartBlock(0);
      }
      dataBlock, indexBlock, filterBlock := data, index, filterBuilder;
      filterKey := if filter.Some? then filter.value.1 else [];
      this.blockSize, this.interval := blockSize, interval;
      file, offset, lastKey, numEntries, closed, pendingIndexEntry := [], 0, [], 0, false, false;
      pendingHandle := BlockHandle(0, 0);
      blocks, entries := [], [];
    }

    /** Append a block and its trailer. */
    method WriteRawBlock(contents: Bytes) returns (handle: BlockHandle)
      requires offset == |file|
      modifies this`file, this`offset
      ensures handle == BlockHandle(old(offset), |contents|) && file == old(file) + contents + Trailer(contents)
      ensures offset == |file| && StoredBlock(file, handle, contents)
    {
      StoredAtEnd(file, contents);
      handle := BlockHandle(offset, |contents|);
      var trailer := MakeTrailer(contents);
      file := file + contents;
      file := file + trailer;
      offset := offset + |contents| + TRAILER_SIZE;
    }

    /** Finish a block, append it, and start the next one. */
    method WriteBlock(block: BlockBuilder) returns (handle: BlockHandle, ghost contents: Bytes)
      requires block.Valid() && !block.finished && block.CurrentSizeEstimate() < WIDTH32 && offset == |file|
      modifies this`file, this`offset, block
      ensures block.Valid() && !block.finished && block.y.records == [] && block.CurrentSizeEstimate() == 8
      ensures BlockOk(contents, old(block.y), block.interval) && Ordered(old(block.y.records), block.less)
      ensures handle == BlockHandle(old(offset), |contents|) && StoredBlock(file, handle, contents)
      ensures offset == |file| && |contents| < WIDTH32 && file == old(file) + contents + Trailer(contents)
      ensures |contents| == old(block.CurrentSizeEstimate())
    {
      hide Built, BlockOk, Ordered, Compressed, Trailer, Transitive, StoredBlock;
      var raw := block.Finish();
      contents := raw;
      handle := WriteRawBlock(raw);
      block.Reset();
    }

    /** The waiting index entry, now that the next key is known. */
    method EmitIndexEntry(key: Bytes)
      requires Whole() && !closed && pendingIndexEntry && |file| < WIDTH64 && KeyLess(lastKey, key)
      modifies this`pendingIndexEntry, this`blocks, indexBlock
      ensures Ready(key) && !pendingIndexEntry && dataBlock.y.records == [] && entries == old(entries)
      ensures |blocks| == |old(blocks)| > 0 && IsShortestKey(blocks[|blocks| - 1].separator, lastKey, key)
    {
      hide KeyLess, Built, Ordered, Transitive, StoredBlock, Separates, AllDataOk, Indexed, Gathered, Filed,
           HandleBytes, F.Flattened, F.OffsetsOk, F.AllFilters, F.FilterOf, HandleOk;
      ghost var m, index := |blocks| - 1, indexBlock.y.records;
      BlockFacts0(file, blocks, interval, m);
      GatheredParts(blocks, dataBlock.y.records, entries, lastKey);
      var sep := FindShortestKey(lastKey, key);
      SeparatesParts(sep, lastKey, key);
      SeparatorsRise(file, blocks, interval, m, [], index, sep) by { indexBlock.Holds(); }
      IndexedNext(blocks, m, key, index, sep);
      AddIndexEntry(sep);
      SameData(file, blocks, interval, sep);
      SameGathered(blocks, dataBlock.y.records, entries, lastKey, sep);
      if filterBlock != null {
        SameFiled(filterBlock, blocks, dataBlock.y.records, offset, sep);
      }
      blocks := WithSeparator(blocks, sep);
      pendingIndexEntry := false;
    }

    method AddIndexEntry(sep: Bytes)
      requires IndexReady() && HandleOk(pendingHandle) && |sep| < WIDTH32
      requires indexBlock.y.records != [] ==> KeyLess(indexBlock.y.records[|indexBlock.y.records| - 1].key, sep)
      modifies indexBlock
      ensures IndexReady() && indexBlock.y.records ==
              old(indexBlock.y.records) + [Record(sep, HandleBytes(pendingHandle))]
      ensures indexBlock.CurrentSizeEstimate() <= old(indexBlock.CurrentSizeEstimate()) + |sep| + 39
    {
      hide KeyLess, Built, Ordered, Transitive, Filed, HandleBytes, F.Flattened, F.OffsetsOk, F.AllFilters;
      indexBlock.Holds();
      HandleSize(pendingHandle);
      var handleEncoding := EncodeHandle(pendingHandle);
      indexBlock.Add(sep, handleEncoding);
    }

    /** Add: the waiting index entry, the filter, the record; and a flush when the block is full. */
    method Add(key: Bytes, value: Bytes)
      requires Valid() && !closed && 8 <= |key| && blockSize + |key| + |value| + 64 < WIDTH32
      requires |file| + WIDTH32 + 8 < WIDTH64
      requires entries != [] ==> KeyLess(lastKey, key)
      modifies this, dataBlock, indexBlock, filterBlock
      ensures Valid() && !closed && entries == old(entries) + [Record(key, value)]
      ensures || |blocks| == |old(blocks)|
              || (|blocks| == |old(blocks)| + 1 && |blocks[|old(blocks)|].contents| >= blockSize)
    {
      hide KeyLess, Built, Ordered, Transitive, StoredBlock, Separates, AllDataOk, Indexed, Gathered, Filed,
           HandleBytes, F.Flattened, F.OffsetsOk, F.AllFilters, F.FilterOf, BlockOk;
      EmptyIndexed(blocks, indexBlock.y.records, key);
      if pendingIndexEntry {
        BlockFacts0(file, blocks, interval, |blocks| - 1);
        GatheredParts(blocks, dataBlock.y.records, entries, lastKey);
        EmitIndexEntry(key);
      }
      AddRecord(key, value);
      if dataBlock.CurrentSizeEstimate() >= blockSize {
        Flush();
      }
    }

    method AddRecord(key: Bytes, value: Bytes)
      requires Ready(if dataBlock.y.records == [] then key else First()) && !closed && !pendingIndexEntry
      requires 8 <= |key| < WIDTH32 && |value| < WIDTH32 && (entries != [] ==> KeyLess(lastKey, key))
      modifies this`lastKey, this`numEntries, this`entries, dataBlock, filterBlock
      ensures Whole() && !pendingIndexEntry && entries == old(entries) + [Record(key, value)]
      ensures dataBlock.CurrentSizeEstimate() <= old(dataBlock.CurrentSizeEstimate()) + |key| + |value| + 19
    {
      hide KeyLess, Built, Ordered, Transitive, AllDataOk, Indexed, Gathered, Filed, F.Flattened, F.OffsetsOk,
           F.AllFilters, F.FilterOf;
      dataBlock.Holds();
      GatheredParts(blocks, dataBlock.y.records, entries, lastKey);
      GatheredNext(blocks, dataBlock.y.records, entries, lastKey, Record(key, value));
      if filterBlock != null {
        FileKey(Record(key, value), key);
      }
      lastKey := key;
      numEntries := numEntries + 1;
      dataBlock.Add(key, value);
      entries := entries + [Record(key, value)];
    }

    /** Flush: the data block goes to the file; its index entry waits. */
    method Flush()
      requires Whole() && !closed && |file| + WIDTH32 + 8 < WIDTH64 && dataBlock.CurrentSizeEstimate() < WIDTH32
      modifies this, dataBlock, indexBlock, filterBlock
      ensures Valid() && !closed && entries == old(entries) && lastKey == old(lastKey) && dataBlock.y.records == []
      ensures pendingIndexEntry <==> blocks != []
      ensures indexBlock.CurrentSizeEstimate() == old(indexBlock.CurrentSizeEstimate())
      ensures |file| <= old(|file|) + WIDTH32 + 5
      ensures if old(dataBlock.y.records) == [] then blocks == old(blocks) && file == old(file) else
                && |blocks| == |old(blocks)| + 1 && blocks[..|old(blocks)|] == old(blocks)
                && |blocks[|old(blocks)|].contents| == old(dataBlock.CurrentSizeEstimate())
      ensures filterBlock != null ==> filterBlock.FinalSize() == old(filterBlock.FinalSize())
    {
      hide KeyLess, Built, BlockOk, Ordered, Transitive, StoredBlock, Trailer, AllDataOk, Indexed, Gathered, Filed,
           F.Flattened, F.OffsetsOk, F.AllFilters, F.FilterOf;
      dataBlock.Holds();
      if dataBlock.buffer == [] {
        NothingPending(blocks, First(), indexBlock.y.records);
        return;
      }
      ghost var contents: Bytes, y, file0 := [], dataBlock.y, file;
      BlockFollows(blocks, First(), indexBlock.y.records, y);
      pendingHandle, contents := WriteBlock(dataBlock);
      ghost var b := DataBlock(pendingHandle, contents, y, []);
      assert file == file0 + (contents + Trailer(contents));
      assert DataOk(file, b, interval);
      DataAppended(file0, contents + Trailer(contents), blocks, interval, b);
      GatheredBlock(blocks, entries, lastKey, b);
      if filterBlock != null {
        StartFilter(old(offset), b);
      }
      blocks := blocks + [b];
      pendingIndexEntry := true;
    }

    /** The filter hears of a record's key. */
    method FileKey(ghost r: Record, key: Bytes)
      requires filterBlock != null && filterBlock.Valid() && key == r.key
               && Filed(filterBlock, blocks, dataBlock.y.records, offset)
      modifies filterBlock
      ensures filterBlock.Valid() && Filed(filterBlock, blocks, dataBlock.y.records + [r], offset)
    {
      hide F.Flattened, F.OffsetsOk, F.AllFilters, F.FilterOf;
      filterBlock.AddKey(key);
    }

    /** The next data block starts at the current offset. */
    method StartFilter(ghost start: nat, ghost b: DataBlock)
      requires filterBlock != null && filterBlock.Valid() && start <= offset && b.handle.offset == start
      requires Filed(filterBlock, blocks, b.layout.records, start)
      modifies filterBlock
      ensures filterBlock.Valid() && Filed(filterBlock, blocks + [b], [], offset)
      ensures filterBlock.FinalSize() == old(filterBlock.FinalSize())
    {
      hide F.Flattened, F.OffsetsOk, F.AllFilters, F.FilterOf;
      filterBlock.StartBlock(offset);
    }

    /** What fits the widths of the format: 32 bits in a block, 64 in the file. */
    ghost predicate Limits()
      reads this, indexBlock, filterBlock
    {
      && 4 * |file| + 32 * WIDTH32 < WIDTH64 && blockSize < WIDTH32 && |filterKey| + 100 < WIDTH32
      && indexBlock.CurrentSizeEstimate() + |lastKey| + 64 < WIDTH32
      && (filterBlock != null ==> filterBlock.policy.k <= 30 && filterBlock.FinalSize() < WIDTH32)
    }

    method WriteFilter() returns (handle: BlockHandle, ghost contents: Bytes)
      requires filterBlock != null && filterBlock.Valid() && Filed(filterBlock, blocks, [], offset)
               && filterBlock.FinalSize() < WIDTH32
      requires offset == |file|
      modifies this`file, this`offset, filterBlock
      ensures offset == |file| && old(file) <= file && |file| <= 2 * old(|file|) + WIDTH32 + 32
      ensures handle == BlockHandle(old(offset), |contents|) && |contents| < |file|
              && StoredBlock(file, handle, contents)
      ensures FilterOk(contents, blocks, filterBlock.hashOf)
    {
      hide F.Flattened, F.OffsetsOk, F.AllFilters, F.FilterOf, F.MayMatch, Trailer, StoredBlock;
      var raw := filterBlock.Finish();
      contents := raw;
      handle := WriteRawBlock(raw);
    }

    /** The metaindex block names the filter, if there is one. */
    method WriteMeta(filterHandle: Option<BlockHandle>)
      returns (handle: BlockHandle, ghost contents: Bytes, ghost y: Layout)
      requires offset == |file| && interval > 0 && |filterKey| + 100 < WIDTH32
      requires filterHandle.Some? ==> HandleOk(filterHandle.value)
      modifies this`file, this`offset
      ensures offset == |file| && old(file) <= file && |file| <= old(|file|) + WIDTH32 + 5
      ensures handle == BlockHandle(old(offset), |contents|) && |contents| < WIDTH32
              && StoredBlock(file, handle, contents)
      ensures BlockOk(contents, y, interval) && Ordered(y.records, LexLess)
      ensures y.records == if filterHandle.Some? then [Record(filterKey, HandleBytes(filterHandle.value))] else []
    {
      hide KeyLess, LexLess, Built, BlockOk, Ordered, Transitive, StoredBlock, Trailer, HandleBytes;
      AllTransitive();
      var metaBlock := new BlockBuilder(interval, KeyLess);
      metaBlock.Holds();
      if filterHandle.Some? {
        HandleSize(filterHandle.value);
        var handleEncoding := EncodeHandle(filterHandle.value);
        metaBlock.Add(filterKey, handleEncoding);
      }
      y := metaBlock.y;
      handle, contents := WriteBlock(metaBlock);
      OneRecordOrdered(y.records);
    }

    /** The last index entry, whose key only has to be behind its block; then the index block. */
    method WriteIndex() returns (handle: BlockHandle, ghost contents: Bytes, ghost y: Layout)
      requires IndexReady() && offset == |file| && |file| + WIDTH32 + 8 < WIDTH64
               && indexBlock.CurrentSizeEstimate() + |lastKey| + 64 < WIDTH32
      requires AllDataOk(file, blocks, interval) && Indexed(blocks, Emitted(), [], indexBlock.y.records)
      requires Gathered(blocks, [], entries, lastKey)
      requires pendingIndexEntry <==> blocks != []
      requires pendingIndexEntry ==> pendingHandle == blocks[|blocks| - 1].handle
      modifies this`file, this`offset, this`blocks, this`pendingIndexEntry, indexBlock
      ensures offset == |file| && old(file) <= file && |file| <= old(|file|) + WIDTH32 + 5
      ensures handle == BlockHandle(old(offset), |contents|) && |contents| < WIDTH32
      ensures StoredBlock(file, handle, contents) && BlockOk(contents, y, 1)
      ensures SeparatorsOk(blocks) && IndexOk(y, blocks) && AllRecords(blocks) == AllRecords(old(blocks))
      ensures AllDataOk(file, blocks, interval) && !pendingIndexEntry && |blocks| == |old(blocks)|
      ensures blocks != [] ==> IsShortKey(blocks[|blocks| - 1].separator, lastKey)
      ensures forall filter, hashOf :: FilterOk(filter, old(blocks), hashOf) ==> FilterOk(filter, blocks, hashOf)
    {
      hide KeyLess, Built, BlockOk, Ordered, Transitive, StoredBlock, Trailer, AllDataOk, Indexed, Gathered, Filed,
           HandleBytes, F.Flattened, F.OffsetsOk, F.AllFilters, F.FilterOf, SeparatorsOk, IndexOk, FilterOk, Separates,
             AllRecords;
      if pendingIndexEntry {
        EmitLastEntry();
      } else {
        EmptyIndex(blocks, indexBlock.y.records);
      }
      y := indexBlock.y;
      ghost var file0 := file;
      handle, contents := WriteBlock(indexBlock);
      assert file == file0 + (contents + Trailer(contents));
      DataStays(file0, contents + Trailer(contents), blocks, interval);
    }

    method EmitLastEntry()
      requires IndexReady() && blocks != [] && pendingIndexEntry && pendingHandle == blocks[|blocks| - 1].handle
      requires AllDataOk(file, blocks, interval) && Indexed(blocks, |blocks| - 1, [], indexBlock.y.records)
      requires Gathered(blocks, [], entries, lastKey)
      modifies this`pendingIndexEntry, this`blocks, indexBlock
      ensures IndexReady()
      ensures indexBlock.CurrentSizeEstimate() <= old(indexBlock.CurrentSizeEstimate()) + |lastKey| + 39
      ensures SeparatorsOk(blocks) && (forall y: Layout :: y.records == indexBlock.y.records ==> IndexOk(y, blocks))
      ensures AllRecords(blocks) == AllRecords(old(blocks)) && AllDataOk(file, blocks, interval)
      ensures !pendingIndexEntry && |blocks| == |old(blocks)|
      ensures IsShortKey(blocks[|blocks| - 1].separator, lastKey)
      ensures forall filter, hashOf :: FilterOk(filter, old(blocks), hashOf) ==> FilterOk(filter, blocks, hashOf)
    {
      hide KeyLess, Built, BlockOk, Ordered, Transitive, StoredBlock, AllDataOk, Indexed, Gathered, Filed, HandleBytes,
           F.Flattened, F.OffsetsOk, F.AllFilters, F.FilterOf, SeparatorsOk, IndexOk, FilterOk, AllRecords, HandleOk;
      ghost var m, index := |blocks| - 1, indexBlock.y;
      BlockFacts0(file, blocks, interval, m);
      GatheredParts(blocks, [], entries, lastKey);
      var sep := FindShortKey(lastKey);
      NotBefore(lastKey, sep);
      SeparatorsRise(file, blocks, interval, m, [], index.records, sep) by { indexBlock.Holds(); }
      AddIndexEntry(sep);
      IndexComplete(blocks, m, index, sep) by { indexBlock.Holds(); }
      SameData(file, blocks, interval, sep);
      SameRecords(blocks, sep);
      SameFilter(blocks, sep);
      blocks := WithSeparator(blocks, sep);
      pendingIndexEntry := false;
    }

    /** Finish: the rest of the file.  Whatever was added is there for who opens it. */
    method Finish() returns (ghost s: Inside, ghost g: Footing)
      requires Valid() && !closed && Limits()
      modifies this, dataBlock, indexBlock, filterBlock
      ensures closed && AllRecords(s.blocks) == old(entries) && Ordered(old(entries), KeyLess) && s.interval == interval
      ensures forall hashOf :: (filterBlock != null ==> hashOf == filterBlock.hashOf) ==> FileOk(file, s, g, hashOf)
      ensures g.filter.Some? <==> filterBlock != null
      ensures g.filter.Some? ==> g.filter.value.key == filterKey
      ensures offset == |file| && !pendingIndexEntry
    {
      hide KeyLess, Built, BlockOk, Ordered, Transitive, StoredBlock, Trailer, AllDataOk, Indexed, Gathered, Filed,
           HandleBytes, F.Flattened, F.OffsetsOk, F.AllFilters, F.FilterOf, FooterBytes, SeparatorsOk, IndexOk,
             FilterOk, AllRecords, LexLess;
      Flush();
      closed := true;
      AllGathered(blocks, entries, lastKey);
      ghost var file0 := file;
      ghost var stored: Option<StoredFilter> := None;
      var filterHandle: Option<BlockHandle> := None;
      if filterBlock != null {
        var h, c := WriteFilter();
        filterHandle, stored := Some(h), Some(StoredFilter(filterKey, h, c));
      }
      ghost var file1 := file;
      var metaHandle, metaContents, metaLayout := WriteMeta(filterHandle);
      ghost var file2 := file;
      DataPrefix(file0, file2, blocks, interval);
      var indexHandle, indexContents, index := WriteIndex();
      ghost var file3 := file;
      g := Footing(indexHandle, indexContents, metaHandle, metaContents, metaLayout, stored);
      s := Inside(blocks, index, interval);
      file := file + FooterBytes(metaHandle, indexHandle);
      offset := offset + FOOTER_SIZE;
      assert file[|file| - FOOTER_SIZE..] == FooterBytes(metaHandle, indexHandle);
      DataPrefix(file3, file, blocks, interval);
      StoredPrefix(file3, file, indexHandle, indexContents);
      StoredPrefix(file2, file, metaHandle, metaContents);
      if stored.Some? {
        StoredPrefix(file1, file, stored.value.handle, stored.value.contents);
      }
    }
  }

  lemma StoredPrefix(file: Bytes, file': Bytes, h: BlockHandle, contents: Bytes)
    requires StoredBlock(file, h, contents) && file <= file'
    ensures StoredBlock(file', h, contents)
  {
    hide StoredBlock;
    assert file' == file + file'[|file|..];
    StoredStays(file, file'[|file|..], h, contents);
  }

  lemma DataPrefix(file: Bytes, file': Bytes, blocks: seq<DataBlock>, interval: nat)
    requires AllDataOk(file, blocks, interval) && file <= file'
    ensures AllDataOk(file', blocks, interval)
  {
    hide AllDataOk;
    assert file' == file + file'[|file|..];
    DataStays(file, file'[|file|..], blocks, interval);
  }

  lemma AllGathered(blocks: seq<DataBlock>, entries: seq<Record>, lastKey: Bytes)
    requires Gathered(blocks, [], entries, lastKey)
    ensures entries == AllRecords(blocks) && Ordered(entries, KeyLess)
  {
    hide KeyLess, Ordered, AllRecords;
  }

  lemma OneRecordOrdered(rs: seq<Record>)
    requires |rs| <= 1
    ensures Ordered(rs, LexLess)
  {
    hide LexLess, Transitive;
    AllTransitive();
  }

  lemma EmptyIndex(blocks: seq<DataBlock>, index: seq<Record>)
    requires blocks == [] && Indexed(blocks, 0, [], index)
    ensures SeparatorsOk(blocks) && forall y: Layout :: y.records == index ==> IndexOk(y, blocks)
  {
    hide KeyLess, Transitive;
    AllTransitive();
  }

  lemma SameFilter(blocks: seq<DataBlock>, sep: Bytes)
    requires blocks != []
    ensures forall filter, hashOf :: FilterOk(filter, blocks, hashOf) ==>
              FilterOk(filter, WithSeparator(blocks, sep), hashOf)
  {
    hide F.MayMatch;
  }

  lemma NotBefore(lastKey: Bytes, sep: Bytes)
    requires sep == lastKey || KeyLess(lastKey, sep)
    ensures !KeyLess(sep, lastKey)
  {
    hide LexLess, UserOf, TagOf;
    LexIrreflexive(UserOf(lastKey));
    if LexLess(UserOf(lastKey), UserOf(sep)) && LexLess(UserOf(sep), UserOf(lastKey)) {
      LexTransitive(UserOf(lastKey), UserOf(sep), UserOf(lastKey));
    }
  }

  lemma BlockFacts0(file: Bytes, blocks: seq<DataBlock>, interval: nat, i: nat)
    requires AllDataOk(file, blocks, interval) && i < |blocks|
    ensures blocks[i].layout.records != [] && HandleOk(blocks[i].handle)
  {
    hide KeyLess, StoredBlock, BlockOk, Ordered;
    assert DataOk(file, blocks[i], interval);
  }

  lemma EmptyIndexed(blocks: seq<DataBlock>, index: seq<Record>, first: Bytes)
    ensures blocks == [] && Indexed(blocks, 0, [], index) ==> Indexed(blocks, 0, first, index)
  {
  }

  lemma SameFiled(fb: F.FilterBlockBuilder, blocks: seq<DataBlock>, cur: seq<Record>, offset: nat, sep: Bytes)
    requires blocks != [] && Filed(fb, blocks, cur, offset)
    ensures Filed(fb, WithSeparator(blocks, sep), cur, offset)
  {
  }

  lemma NothingWritten(interval: nat)
    ensures AllDataOk([], [], interval) && Indexed([], 0, [], []) && Gathered([], [], [], [])
  {
    AllTransitive();
  }

  lemma BlockFollows(blocks: seq<DataBlock>, first: Bytes, index: seq<Record>, y: Layout)
    requires Indexed(blocks, |blocks|, first, index) && y.records != [] && first == y.records[0].key
    ensures forall b: DataBlock :: b.layout == y ==> Indexed(blocks + [b], |blocks|, [], index)
  {
    hide KeyLess, Separates, IndexEntry;
    forall b: DataBlock | b.layout == y
      ensures Indexed(blocks + [b], |blocks|, [], index)
    {
      forall i: nat | i < |blocks|
        ensures KeyBehind(blocks + [b], [], i) == KeyBehind(blocks, first, i)
      {
      }
    }
  }

  lemma NothingPending(blocks: seq<DataBlock>, first: Bytes, index: seq<Record>)
    ensures blocks == [] ==> |blocks| == 0
  {
  }

  lemma DataAppended(file: Bytes, more: Bytes, blocks: seq<DataBlock>, interval: nat, b: DataBlock)
    requires AllDataOk(file, blocks, interval) && DataOk(file + more, b, interval)
    ensures AllDataOk(file + more, blocks + [b], interval)
  {
    hide DataOk;
    DataStays(file, more, blocks, interval);
  }

  lemma AllTransitive()
    ensures Transitive(KeyLess) && Transitive(LexLess)
  {
    hide KeyLess, LexLess;
    forall a, b, c | KeyLess(a, b) && KeyLess(b, c)
      ensures KeyLess(a, c)
    {
      KeyTransitive(a, b, c);
    }
    forall a, b, c | LexLess(a, b) && LexLess(b, c)
      ensures LexLess(a, c)
    {
      LexTransitive(a, b, c);
    }
  }
}
