/** A table file as its reader sees it, and the point lookup in it. */
module Tables {
  import opened Coding
  import opened Varints
  import opened Options
  import opened ByteKeys
  import opened Blocks
  import opened BlockIterators
  import opened TableFormat
  import F = FilterBlocks

  /** A data block: where and what it is, and the key of its index entry. */
  datatype DataBlock = DataBlock(handle: BlockHandle, contents: Bytes, layout: Layout, separator: Bytes)

  function AllRecords(blocks: seq<DataBlock>): seq<Record> {
    if blocks == [] then [] else AllRecords(blocks[..|blocks| - 1]) + blocks[|blocks| - 1].layout.records
  }

  // ---------- A well-formed table ----------

  ghost predicate DataOk(file: Bytes, b: DataBlock, interval: nat) {
    && StoredBlock(file, b.handle, b.contents) && HandleOk(b.handle)
    && BlockOk(b.contents, b.layout, interval) && b.layout.records != [] && Ordered(b.layout.records, KeyLess)
  }

  ghost predicate AllDataOk(file: Bytes, blocks: seq<DataBlock>, interval: nat) {
    forall i :: 0 <= i < |blocks| ==> DataOk(file, blocks[i], interval)
  }

  function LastKey(b: DataBlock): Bytes {
    if b.layout.records == [] then [] else b.layout.records[|b.layout.records| - 1].key
  }

  function FirstKey(b: DataBlock): Bytes {
    if b.layout.records == [] then [] else b.layout.records[0].key
  }

  /** Index keys: at or behind the last key of their block, and apart from the next block. */
  ghost predicate SeparatorsOk(blocks: seq<DataBlock>) {
    && (forall i :: 0 <= i < |blocks| ==> !KeyLess(blocks[i].separator, LastKey(blocks[i])))
    && (forall i, j :: 0 <= i && j == i + 1 < |blocks| ==>
         Separates(blocks[i].separator, LastKey(blocks[i]), FirstKey(blocks[j])))
  }

  ghost predicate IndexOk(index: Layout, blocks: seq<DataBlock>) {
    && |index.records| == |blocks| && Ordered(index.records, KeyLess)
    && forall i :: 0 <= i < |blocks| ==> index.records[i] == Record(blocks[i].separator, HandleBytes(blocks[i].handle))
  }

  /** InternalFilterPolicy: keys with the same user key hash alike. */
  ghost predicate ByUserKey(hashOf: Bytes -> nat) {
    && (forall k :: hashOf(k) < WIDTH32)
    && forall a, b :: UserOf(a) == UserOf(b) ==> hashOf(a) == hashOf(b)
  }

  /** The filter block matches every user key in the table at its block's offset. */
  ghost predicate FilterOk(filter: Bytes, blocks: seq<DataBlock>, hashOf: Bytes -> nat) {
    forall i, r :: 0 <= i < |blocks| && r in blocks[i].layout.records ==>
      F.MayMatch(filter, blocks[i].handle.offset, hashOf(r.key))
  }

  // ---------- Positions in the whole table ----------

  lemma {:induction false} RecordAt(blocks: seq<DataBlock>, p: nat, q: nat)
    requires p < |blocks| && q < |blocks[p].layout.records|
    ensures var base := |AllRecords(blocks[..p])|;
            base + q < |AllRecords(blocks)| && AllRecords(blocks)[base + q] == blocks[p].layout.records[q]
  {
    var n := |blocks| - 1;
    if p < n {
      RecordAt(blocks[..n], p, q);
      assert blocks[..n][..p] == blocks[..p];
    }
  }

  lemma {:induction false} SplitAt(blocks: seq<DataBlock>, p: nat)
    requires p <= |blocks|
    ensures |AllRecords(blocks[..p])| <= |AllRecords(blocks)|
            && AllRecords(blocks)[..|AllRecords(blocks[..p])|] == AllRecords(blocks[..p])
  {
    var n := |blocks| - 1;
    if p == |blocks| {
      assert blocks[..p] == blocks;
    } else {
      SplitAt(blocks[..n], p);
      assert blocks[..n][..p] == blocks[..p];
    }
  }

  lemma NextBase(blocks: seq<DataBlock>, p: nat)
    requires p < |blocks|
    ensures AllRecords(blocks[..p + 1]) == AllRecords(blocks[..p]) + blocks[p].layout.records
  {
    assert blocks[..p + 1][..p] == blocks[..p];
  }

  /** Order between keys that are not beside one another. */
  lemma KeyOrder(a: Bytes, b: Bytes, c: Bytes)
    ensures !KeyLess(b, a) && KeyLess(b, c) ==> KeyLess(a, c)
    ensures KeyLess(a, b) && !KeyLess(c, b) ==> KeyLess(a, c)
  {
    hide LexLess, UserOf, TagOf;
    var x, y, z := UserOf(a), UserOf(b), UserOf(c);
    LexTotal(x, y);
    LexTotal(y, z);
    if LexLess(x, y) && LexLess(y, z) {
      LexTransitive(x, y, z);
    }
    if x == z {
      LexIrreflexive(x);
    }
  }

  /** Everything in the first p blocks is less than the key. */
  ghost predicate AllBelow(rs: seq<Record>, k: Bytes) {
    forall i :: 0 <= i < |rs| ==> KeyLess(rs[i].key, k)
  }

  /** A block whose index key is less than k holds nothing that is not. */
  lemma BlockBelow(b: DataBlock, k: Bytes)
    requires b.layout.records != [] && Ordered(b.layout.records, KeyLess)
    requires !KeyLess(b.separator, LastKey(b)) && KeyLess(b.separator, k)
    ensures AllBelow(b.layout.records, k)
  {
    hide KeyLess;
    var rs := b.layout.records;
    KeyOrder(LastKey(b), b.separator, k);
    forall i | 0 <= i < |rs|
      ensures KeyLess(rs[i].key, k)
    {
      if i < |rs| - 1 {
        KeyTransitive(rs[i].key, LastKey(b), k);
      }
    }
  }

  lemma BlockFacts(file: Bytes, blocks: seq<DataBlock>, interval: nat, i: nat)
    requires AllDataOk(file, blocks, interval) && SeparatorsOk(blocks) && i < |blocks|
    ensures DataOk(file, blocks[i], interval)
    ensures blocks[i].layout.records != [] && Ordered(blocks[i].layout.records, KeyLess)
    ensures !KeyLess(blocks[i].separator, LastKey(blocks[i]))
  {
    hide KeyLess, StoredBlock, BlockOk, Ordered;
  }

  lemma {:induction false} BlocksBelow(file: Bytes, blocks: seq<DataBlock>, interval: nat, p: nat, k: Bytes)
    requires AllDataOk(file, blocks, interval) && SeparatorsOk(blocks) && p <= |blocks|
    requires forall i :: 0 <= i < p ==> KeyLess(blocks[i].separator, k)
    ensures AllBelow(AllRecords(blocks[..p]), k)
  {
    hide KeyLess, AllDataOk, SeparatorsOk, DataOk;
    if p > 0 {
      BlocksBelow(file, blocks, interval, p - 1, k);
      NextBase(blocks, p - 1);
      BlockFacts(file, blocks, interval, p - 1);
      BlockBelow(blocks[p - 1], k);
    }
  }

  // ---------- The lookup ----------

  /** What the lookup of k promises about the record it delivers: the first record at or
      behind k, exactly when that has the user key of k; never another one of that user key. */
  ghost predicate Delivers(all: seq<Record>, k: Bytes, r: Option<Record>) {
    exists i: nat :: FirstFrom(all, KeyLess, k, i) &&
      if i < |all| && UserOf(all[i].key) == UserOf(k) then r == Some(all[i])
      else r.Some? ==> UserOf(r.value.key) != UserOf(k)
  }

  lemma DeliversAt(all: seq<Record>, k: Bytes, r: Option<Record>, i: nat)
    requires FirstFrom(all, KeyLess, k, i)
    requires if i < |all| && UserOf(all[i].key) == UserOf(k) then r == Some(all[i])
             else r.Some? ==> UserOf(r.value.key) != UserOf(k)
    ensures Delivers(all, k, r)
  {
  }

  /** The index leads to block p. */
  ghost predicate LeadsTo(file: Bytes, blocks: seq<DataBlock>, interval: nat, p: nat, k: Bytes) {
    && AllDataOk(file, blocks, interval) && SeparatorsOk(blocks) && p <= |blocks|
    && (forall i :: 0 <= i < p ==> KeyLess(blocks[i].separator, k))
    && (p < |blocks| ==> !KeyLess(blocks[p].separator, k))
  }

  lemma LedFacts(file: Bytes, blocks: seq<DataBlock>, interval: nat, p: nat, k: Bytes)
    requires LeadsTo(file, blocks, interval, p, k)
    ensures p <= |blocks| && AllBelow(AllRecords(blocks[..p]), k)
    ensures p < |blocks| ==> DataOk(file, blocks[p], interval) && !KeyLess(blocks[p].separator, k)
    ensures forall q :: q == p + 1 < |blocks| ==>
              DataOk(file, blocks[q], interval) && Separates(blocks[p].separator, LastKey(blocks[p]),
                FirstKey(blocks[q]))
  {
    hide KeyLess, DataOk;
    BlocksBelow(file, blocks, interval, p, k);
  }

  /** The first record from k is in the block the index leads to. */
  lemma FoundInBlock(file: Bytes, blocks: seq<DataBlock>, interval: nat, p: nat, q: nat, k: Bytes)
    requires LeadsTo(file, blocks, interval, p, k) && p < |blocks|
    requires FirstFrom(blocks[p].layout.records, KeyLess, k, q) && q < |blocks[p].layout.records|
    ensures var i := |AllRecords(blocks[..p])| + q;
            && FirstFrom(AllRecords(blocks), KeyLess, k, i) && i < |AllRecords(blocks)|
            && AllRecords(blocks)[i] == blocks[p].layout.records[q]
  {
    hide KeyLess, LeadsTo, AllRecords, DataOk, Separates, AllBelow;
    var all, base := AllRecords(blocks), |AllRecords(blocks[..p])|;
    LedFacts(file, blocks, interval, p, k);
    BelowUpTo(blocks, p, k);
    RecordAt(blocks, p, q);
    forall j | base <= j < base + q
      ensures KeyLess(all[j].key, k)
    {
      RecordAt(blocks, p, j - base);
    }
  }

  /** All records up to some block are below k. */
  lemma BelowUpTo(blocks: seq<DataBlock>, q: nat, k: Bytes)
    requires q <= |blocks| && AllBelow(AllRecords(blocks[..q]), k)
    ensures |AllRecords(blocks[..q])| <= |AllRecords(blocks)|
    ensures forall j :: 0 <= j < |AllRecords(blocks[..q])| ==> KeyLess(AllRecords(blocks)[j].key, k)
    ensures q == |blocks| ==> |AllRecords(blocks[..q])| == |AllRecords(blocks)|
  {
    hide KeyLess, AllRecords;
    SplitAt(blocks, q);
    var all, base := AllRecords(blocks), |AllRecords(blocks[..q])|;
    assert forall j :: 0 <= j < base ==> all[j] == all[..base][j];
    if q == |blocks| {
      assert blocks[..q] == blocks;
    }
  }

  /** When the block holds none, no record of k's user key is the first from k. */
  lemma FoundBehindBlock(file: Bytes, blocks: seq<DataBlock>, interval: nat, p: nat, k: Bytes)
    requires LeadsTo(file, blocks, interval, p, k)
    requires p < |blocks| ==> AllBelow(blocks[p].layout.records, k)
    ensures Delivers(AllRecords(blocks), k, None)
  {
    hide KeyLess, LeadsTo, AllRecords, Delivers, DataOk, Separates, AllBelow, Ordered, BlockOk, StoredBlock;
    LedFacts(file, blocks, interval, p, k);
    if p == |blocks| {
      NoneFrom(blocks, k);
    } else {
      var q := p + 1;
      LedBlock(file, blocks, interval, p);
      BelowNext(blocks, p, k);
      if q < |blocks| {
        LedBlock(file, blocks, interval, q);
        ApartFrom(blocks[p].separator, LastKey(blocks[p]), FirstKey(blocks[q]), k);
        NextIsFirst(blocks, q, k);
      } else {
        assert blocks[..q] == blocks[..|blocks|];
        NoneFrom(blocks, k);
      }
    }
  }

  lemma NoneFrom(blocks: seq<DataBlock>, k: Bytes)
    requires AllBelow(AllRecords(blocks[..|blocks|]), k)
    ensures Delivers(AllRecords(blocks), k, None)
  {
    hide KeyLess, AllRecords, Delivers;
    BelowUpTo(blocks, |blocks|, k);
    DeliversAt(AllRecords(blocks), k, None, |AllRecords(blocks)|);
  }

  lemma NextIsFirst(blocks: seq<DataBlock>, q: nat, k: Bytes)
    requires q < |blocks| && AllBelow(AllRecords(blocks[..q]), k) && blocks[q].layout.records != []
    requires !KeyLess(FirstKey(blocks[q]), k) && UserOf(FirstKey(blocks[q])) != UserOf(k)
    ensures Delivers(AllRecords(blocks), k, None)
  {
    hide KeyLess, AllRecords, Delivers, UserOf;
    BelowUpTo(blocks, q, k);
    RecordAt(blocks, q, 0);
    DeliversAt(AllRecords(blocks), k, None, |AllRecords(blocks[..q])|);
  }

  lemma LedBlock(file: Bytes, blocks: seq<DataBlock>, interval: nat, p: nat)
    requires p < |blocks| && DataOk(file, blocks[p], interval)
    ensures var b := blocks[p];
            && b.layout.records != [] && Ordered(b.layout.records, KeyLess) && BlockOk(b.contents, b.layout, interval)
            && HandleOk(b.handle) && StoredBlock(file, b.handle, b.contents)
  {
    hide KeyLess, BlockOk, StoredBlock, Ordered;
  }

  lemma BelowNext(blocks: seq<DataBlock>, p: nat, k: Bytes)
    requires p < |blocks| && AllBelow(AllRecords(blocks[..p]), k) && AllBelow(blocks[p].layout.records, k)
    requires blocks[p].layout.records != []
    ensures AllBelow(AllRecords(blocks[..p + 1]), k) && KeyLess(LastKey(blocks[p]), k)
  {
    hide KeyLess, AllRecords;
    NextBase(blocks, p);
  }

  lemma ApartFrom(sep: Bytes, last: Bytes, first: Bytes, k: Bytes)
    requires Separates(sep, last, first) && KeyLess(last, k) && !KeyLess(sep, k)
    ensures !KeyLess(first, k) && UserOf(first) != UserOf(k)
  {
    hide KeyLess, UserOf;
    NotBehind(sep, first, k);
  }

  lemma NotBehind(sep: Bytes, first: Bytes, k: Bytes)
    requires KeyLess(sep, first) && !KeyLess(sep, k)
    ensures !KeyLess(first, k)
  {
    if KeyLess(first, k) {
      KeyTransitive(sep, first, k);
    }
  }

  /** The first record from k, in the block the filter rules out, has another user key. */
  lemma RuledOut(filter: Bytes, blocks: seq<DataBlock>, hashOf: Bytes -> nat, p: nat, q: nat, k: Bytes)
    requires FilterOk(filter, blocks, hashOf) && ByUserKey(hashOf) && p < |blocks| && q < |blocks[p].layout.records|
    requires !F.MayMatch(filter, blocks[p].handle.offset, hashOf(k))
    ensures UserOf(blocks[p].layout.records[q].key) != UserOf(k)
  {
    hide UserOf, F.MayMatch;
    assert blocks[p].layout.records[q] in blocks[p].layout.records;
  }

  /** An open table: the file, the contents of its index block and of its filter block. */
  datatype Table = Table(file: Bytes, index: Bytes, filter: Option<Bytes>)

  /** What is in it. */
  datatype Inside = Inside(blocks: seq<DataBlock>, index: Layout, interval: nat)

  ghost predicate TableOk(t: Table, s: Inside, hashOf: Bytes -> nat) {
    && AllDataOk(t.file, s.blocks, s.interval) && SeparatorsOk(s.blocks)
    && BlockOk(t.index, s.index, 1) && IndexOk(s.index, s.blocks)
    && (t.filter.Some? ==> FilterOk(t.filter.value, s.blocks, hashOf))
  }

  /** The record is in a block that the filter does not rule out. */
  ghost predicate FromMatching(filter: Bytes, blocks: seq<DataBlock>, h: nat, r: Record) {
    exists b :: b in blocks && r in b.layout.records && F.MayMatch(filter, b.handle.offset, h)
  }

  /** Table::InternalGet: seek in the index, ask the filter, seek in the one block. */
  method InternalGet(t: Table, k: Bytes, hashOf: Bytes -> nat, verifyChecksums: bool, ghost s: Inside)
    returns (r: Option<Record>)
    requires TableOk(t, s, hashOf) && ByUserKey(hashOf)
    ensures Delivers(AllRecords(s.blocks), k, r)
    ensures t.filter.Some? && r.Some? ==> FromMatching(t.filter.value, s.blocks, hashOf(k), r.value)
  {
    hide KeyLess, UserOf, LeadsTo, Delivers, TableOk, BlockOk, Ordered, HandleBytes, HandleAt, F.MayMatch, DataOk,
         AllRecords, Separates, AllBelow, StoredBlock;
    var handleValue, p := IndexSeek(t, k, hashOf, s);
    if handleValue.None? {
      FoundBehindBlock(t.file, s.blocks, s.interval, p, k);
      return None;
    }
    ghost var b := s.blocks[p];
    LedFacts(t.file, s.blocks, s.interval, p, k);
    LedBlock(t.file, s.blocks, s.interval, p);
    WholeHandle(b.handle);
    if t.filter.Some? {
      var handle := DecodeHandle(handleValue.value, 0);
      if handle.Some? {
        var may := F.KeyMayMatch(t.filter.value, handle.value.0.offset, hashOf(k));
        if !may {
          NoneMatches(t, s, hashOf, p, k);
          return None;
        }
      }
    }
    var contents := BlockReader(t, handleValue.value, verifyChecksums);
    ghost var q: nat;
    r, q := BlockSeek(contents.value, k, b.layout, s.interval);
    assert FirstFrom(b.layout.records, KeyLess, k, q);
    if r.Some? {
      FoundInBlock(t.file, s.blocks, s.interval, p, q, k);
      DeliversAt(AllRecords(s.blocks), k, r, |AllRecords(s.blocks[..p])| + q);
      assert b in s.blocks && r.value in b.layout.records;
    } else {
      NothingFrom(b.layout.records, k, q);
      FoundBehindBlock(t.file, s.blocks, s.interval, p, k);
    }
  }

  lemma NothingFrom(rs: seq<Record>, k: Bytes, q: nat)
    requires FirstFrom(rs, KeyLess, k, q) && q == |rs|
    ensures AllBelow(rs, k)
  {
    hide KeyLess;
  }

  /** Seek in the index block: the value there, if any. */
  method IndexSeek(t: Table, k: Bytes, hashOf: Bytes -> nat, ghost s: Inside)
    returns (handleValue: Option<Bytes>, ghost p: nat)
    requires TableOk(t, s, hashOf)
    ensures LeadsTo(t.file, s.blocks, s.interval, p, k)
    ensures if p < |s.blocks| then handleValue == Some(HandleBytes(s.blocks[p].handle)) else handleValue == None
  {
    hide AllDataOk, SeparatorsOk, BlockOk, KeyLess, FilterOk, HandleBytes, Ordered;
    var iiter := new Iter(KeyLess, t.index, s.index, 1);
    iiter.Seek(k);
    p := iiter.pos;
    iiter.AtRecord();
    LeadsThere(t, s, hashOf, p, k);
    if !iiter.Valid() {
      return None, p;
    }
    return Some(iiter.Value()), p;
  }

  lemma LeadsThere(t: Table, s: Inside, hashOf: Bytes -> nat, p: nat, k: Bytes)
    requires TableOk(t, s, hashOf) && FirstFrom(s.index.records, KeyLess, k, p)
    ensures LeadsTo(t.file, s.blocks, s.interval, p, k)
  {
    hide AllDataOk, SeparatorsOk, BlockOk, KeyLess, FilterOk, Ordered;
    var rs := s.index.records;
    forall i | 0 <= i < p
      ensures KeyLess(s.blocks[i].separator, k)
    {
      assert KeyLess(rs[i].key, k);
    }
  }

  /** Seek in a data block: the record there, if any. */
  method BlockSeek(contents: Bytes, k: Bytes, ghost y: Layout, ghost interval: nat)
    returns (r: Option<Record>, ghost q: nat)
    requires BlockOk(contents, y, interval) && Ordered(y.records, KeyLess)
    ensures FirstFrom(y.records, KeyLess, k, q)
    ensures if q < |y.records| then r == Some(y.records[q]) else r == None
  {
    hide BlockOk, KeyLess, Ordered;
    var blockIter := new Iter(KeyLess, contents, y, interval);
    blockIter.Seek(k);
    q := blockIter.pos;
    blockIter.AtRecord();
    if !blockIter.Valid() {
      return None, q;
    }
    r := Some(Record(blockIter.key, blockIter.Value()));
  }

  /** The filter says no: whatever is first from k has another user key. */
  lemma NoneMatches(t: Table, s: Inside, hashOf: Bytes -> nat, p: nat, k: Bytes)
    requires TableOk(t, s, hashOf) && ByUserKey(hashOf) && t.filter.Some? && p < |s.blocks|
             && LeadsTo(t.file, s.blocks, s.interval, p, k)
    requires !F.MayMatch(t.filter.value, s.blocks[p].handle.offset, hashOf(k))
    ensures Delivers(AllRecords(s.blocks), k, None)
  {
    hide AllDataOk, SeparatorsOk, BlockOk, KeyLess, UserOf, FilterOk, F.MayMatch, IndexOk, LeadsTo, Delivers;
    var rs := s.blocks[p].layout.records;
    var q := FirstIndex(rs, k);
    if q < |rs| {
      FoundInBlock(t.file, s.blocks, s.interval, p, q, k);
      RuledOut(t.filter.value, s.blocks, hashOf, p, q, k);
      DeliversAt(AllRecords(s.blocks), k, None, |AllRecords(s.blocks[..p])| + q);
    } else {
      FoundBehindBlock(t.file, s.blocks, s.interval, p, k);
    }
  }

  lemma FirstIndex(rs: seq<Record>, k: Bytes) returns (q: nat)
    ensures FirstFrom(rs, KeyLess, k, q)
  {
    hide KeyLess;
    q := 0;
    while q < |rs| && KeyLess(rs[q].key, k)
      invariant q <= |rs| && forall j :: 0 <= j < q ==> KeyLess(rs[j].key, k)
    {
      q := q + 1;
    }
  }

  /** BlockReader: decode the handle and read the block it names. */
  method BlockReader(t: Table, indexValue: Bytes, verifyChecksums: bool) returns (contents: Option<Bytes>)
    ensures forall h, c :: HandleOk(h) && indexValue == HandleBytes(h) && StoredBlock(t.file, h, c) ==>
              contents == Some(c)
  {
    hide HandleBytes, HandleAt, StoredBlock;
    forall h | HandleOk(h) && indexValue == HandleBytes(h)
      ensures HandleAt(indexValue, 0).Some? && HandleAt(indexValue, 0).value.0 == h
    {
      WholeHandle(h);
    }
    var handle := DecodeHandle(indexValue, 0);
    if handle.None? {
      return None;
    }
    contents := ReadBlock(t.file, handle.value.0, verifyChecksums);
  }

  // ---------- Opening a table file ----------

  datatype StoredFilter = StoredFilter(key: Bytes, handle: BlockHandle, contents: Bytes)

  /** What stands behind the data blocks. */
  datatype Footing = Footing(index: BlockHandle, indexContents: Bytes, meta: BlockHandle, metaContents: Bytes,
    metaLayout: Layout,
                             filter: Option<StoredFilter>)

  function MetaRecords(filter: Option<StoredFilter>): seq<Record> {
    if filter.Some? then [Record(filter.value.key, HandleBytes(filter.value.handle))] else []
  }

  ghost predicate MetaOk(file: Bytes, g: Footing, interval: nat) {
    && StoredBlock(file, g.meta, g.metaContents) && BlockOk(g.metaContents, g.metaLayout, interval)
    && Ordered(g.metaLayout.records, LexLess) && g.metaLayout.records == MetaRecords(g.filter)
    && (g.filter.Some? ==>
         HandleOk(g.filter.value.handle) && StoredBlock(file, g.filter.value.handle, g.filter.value.contents))
  }

  ghost predicate FooterOk(file: Bytes, g: Footing) {
    && HandleOk(g.meta) && HandleOk(g.index) && |file| >= FOOTER_SIZE
    && file[|file| - FOOTER_SIZE..] == FooterBytes(g.meta, g.index)
  }

  /** A complete table file. */
  ghost predicate FileOk(file: Bytes, s: Inside, g: Footing, hashOf: Bytes -> nat) {
    && AllDataOk(file, s.blocks, s.interval) && SeparatorsOk(s.blocks) && IndexOk(s.index, s.blocks)
    && StoredBlock(file, g.index, g.indexContents) && BlockOk(g.indexContents, s.index, 1)
    && MetaOk(file, g, s.interval) && FooterOk(file, g)
    && (g.filter.Some? ==> FilterOk(g.filter.value.contents, s.blocks, hashOf))
  }

  /** Table::Open: the footer, the index block, and the filter if the policy's name is there. */
  method Open(file: Bytes, policyKey: Option<Bytes>, paranoidChecks: bool, ghost s: Inside, ghost g: Footing,
              ghost hashOf: Bytes -> nat)
    returns (t: Option<Table>)
    requires FileOk(file, s, g, hashOf)
    ensures t.Some? && TableOk(t.value, s, hashOf)
    ensures t.value.filter.Some? <==> g.filter.Some? && policyKey == Some(g.filter.value.key)
    ensures t.value.filter.Some? ==> t.value.filter.value == g.filter.value.contents
  {
    hide AllDataOk, SeparatorsOk, IndexOk, StoredBlock, BlockOk, MetaOk, FilterOk, FooterBytes, HandleOk, NumberAt;
    var found := ReadFooter(file, paranoidChecks);
    if found.None? {
      return None;
    }
    var filter := ReadMeta(file, found.value.0, policyKey, paranoidChecks, g, s.interval);
    t := Some(Table(file, found.value.1, filter));
  }

  /** Any bytes: where the metaindex block is, and the contents of the index block, if there is a
      footer and it leads to a block. */
  method ReadFooter(file: Bytes, paranoidChecks: bool) returns (r: Option<(BlockHandle, Bytes)>)
    ensures |file| < 48 ==> r == None
    ensures r.Some? ==> NumberAt(file, |file| - 8, 4) == 0x8b80_fb57 && NumberAt(file, |file| - 4, 4) == 0xdb47_7524
    ensures forall meta, index, contents ::
              (HandleOk(meta) && HandleOk(index) && |file| >= 48 && file[|file| - 48..] == FooterBytes(meta, index)
               && StoredBlock(file, index, contents)) ==> r == Some((meta, contents))
  {
    hide FooterBytes, HandleOk, StoredBlock, NumberAt;
    if |file| < FOOTER_SIZE {
      return None;
    }
    var footer := DecodeFooter(file[|file| - FOOTER_SIZE..]);
    if footer.None? {
      return None;
    }
    NumberInTail(file, |file| - FOOTER_SIZE, 40, 4);
    NumberInTail(file, |file| - FOOTER_SIZE, 44, 4);
    var index := ReadBlock(file, footer.value.1, paranoidChecks);
    if index.None? {
      return None;
    }
    return Some((footer.value.0, index.value));
  }

  lemma {:induction false} NumberInTail(s: Bytes, p: nat, q: nat, width: nat)
    requires p + q + width <= |s|
    ensures NumberAt(s[p..], q, width) == NumberAt(s, p + q, width)
    decreases width
  {
    hide NatOf;
    if width > 0 {
      NumberInTail(s, p, q + 1, width - 1);
    }
  }

  /** ReadMeta and ReadFilter: look the policy's name up in the metaindex block. */
  method ReadMeta(file: Bytes, handle: BlockHandle, policyKey: Option<Bytes>, paranoidChecks: bool, ghost g: Footing,
                  ghost interval: nat)
    returns (filter: Option<Bytes>)
    requires MetaOk(file, g, interval) && handle == g.meta
    ensures filter == if g.filter.Some? && policyKey == Some(g.filter.value.key) then Some(g.filter.value.contents)
            else None
  {
    hide StoredBlock, BlockOk, HandleBytes, HandleAt, LexLess, Ordered;
    if policyKey.None? {
      return None;
    }
    var contents := ReadBlock(file, handle, paranoidChecks);
    if contents.None? {
      return None;
    }
    var iter := new Iter(LexLess, contents.value, g.metaLayout, interval);
    iter.Seek(policyKey.value);
    iter.AtRecord();
    LexIrreflexive(policyKey.value);
    if !iter.Valid() {
      assert g.filter.Some? ==> LexLess(g.metaLayout.records[0].key, policyKey.value);
      return None;
    }
    if iter.key != policyKey.value {
      return None;
    }
    WholeHandle(g.filter.value.handle);
    var filterHandle := DecodeHandle(iter.Value(), 0);
    if filterHandle.None? {
      return None;
    }
    filter := ReadBlock(file, filterHandle.value.0, paranoidChecks);
  }

  /** TableCache::Get: find the table, which opens its file, and look the key up. */
  method Get(file: Bytes, policyKey: Option<Bytes>, hashOf: Bytes -> nat, k: Bytes, paranoidChecks: bool,
             verifyChecksums: bool,
             ghost s: Inside, ghost g: Footing)
    returns (ok: bool, r: Option<Record>)
    requires FileOk(file, s, g, hashOf) && ByUserKey(hashOf)
    ensures ok && Delivers(AllRecords(s.blocks), k, r)
    ensures g.filter.Some? && policyKey == Some(g.filter.value.key) && r.Some? ==>
              FromMatching(g.filter.value.contents, s.blocks, hashOf(k), r.value)
  {
    hide FileOk, TableOk, Delivers, ByUserKey;
    var t := Open(file, policyKey, paranoidChecks, s, g, hashOf);
    if t.None? {
      return false, None;
    }
    r := InternalGet(t.value, k, hashOf, verifyChecksums, s);
    ok := true;
  }
}
