/** The filter block of a table: one filter for the keys of all data blocks that start in the
    same 2 KB of the file. */
module FilterBlocks {
  import opened Coding
  import opened Varints
  import opened Bloom

  const FILTER_BASE_LG: nat := 11
  const FILTER_BASE: nat := 2048

  /** `n >> bits`. */
  function ShiftRight(n: nat, bits: nat): nat
    decreases bits
  {
    if bits == 0 then n else ShiftRight(n / 2, bits - 1)
  }

  function Hashes(keys: seq<Bytes>, hashOf: Bytes -> nat): (r: seq<nat>)
    ensures |r| == |keys| && forall i :: 0 <= i < |keys| ==> r[i] == hashOf(keys[i])
  {
    seq(|keys|, i requires 0 <= i < |keys| => hashOf(keys[i]))
  }

  /** The bytes for the keys of one filter; none for no keys. */
  function FilterOf(p: Policy, hashOf: Bytes -> nat, keys: seq<Bytes>): Bytes
    requires p.k <= 30
  {
    if keys == [] then [] else Filter(p, Hashes(keys, hashOf))
  }

  function AllFilters(p: Policy, hashOf: Bytes -> nat, filters: seq<seq<Bytes>>): Bytes
    requires p.k <= 30
  {
    if filters == [] then []
    else AllFilters(p, hashOf, filters[..|filters| - 1]) + FilterOf(p, hashOf, filters[|filters| - 1])
  }

  /** Where each filter starts. */
  ghost predicate OffsetsOk(p: Policy, hashOf: Bytes -> nat, filters: seq<seq<Bytes>>, offsets: seq<nat>)
    requires p.k <= 30
  {
    |offsets| == |filters| && forall i :: 0 <= i < |filters| ==> offsets[i] == |AllFilters(p, hashOf, filters[..i])|
  }

  /** The flattened keys and where each starts. */
  ghost predicate Flattened(flat: Bytes, start: seq<nat>, keys: seq<Bytes>) {
    && |start| == |keys| && (forall i :: 0 <= i < |start| ==> start[i] <= |flat|)
    && (forall i, j :: 0 <= i && j == i + 1 < |keys| ==> start[i] <= start[j] && flat[start[i]..start[j]] == keys[i])
    && (keys != [] ==> flat[start[|keys| - 1]..] == keys[|keys| - 1])
  }

  // ---------- Reading ----------

  function WordAt(contents: Bytes, p: nat): nat {
    if p + 4 <= |contents| then NumberAt(contents, p, 4) else 0
  }

  /** Where the offset array starts, how many filters there are, and the size of the pieces of
      the file; nothing when the contents are malformed. */
  datatype Reader = Reader(arrayOffset: nat, num: nat, baseLg: nat)

  function ReaderOf(contents: Bytes): Reader {
    var n := |contents|;
    if n < 5 then Reader(0, 0, 0)
    else
      var lastWord := WordAt(contents, n - 5);
      if lastWord > n - 5 then Reader(0, 0, NatOf(contents[n - 1]))
      else Reader(lastWord, (n - 5 - lastWord) / 4, NatOf(contents[n - 1]))
  }

  /** One filter's bytes are consulted; bad bounds count as a match unless they are equal. */
  ghost predicate RangeMatches(contents: Bytes, arrayOffset: nat, start: nat, limit: nat, h: nat) {
    if start <= limit <= arrayOffset && limit <= |contents| then Matches(h, contents[start..limit]) else start != limit
  }

  /** What the filter block says about a hash and the block at an offset; errors count as
      possible matches. */
  ghost predicate MayMatch(contents: Bytes, blockOffset: nat, h: nat) {
    var r := ReaderOf(contents);
    var index := ShiftRight(blockOffset, r.baseLg);
    index >= r.num ||
      RangeMatches(contents, r.arrayOffset, WordAt(contents, r.arrayOffset + 4 * index),
        WordAt(contents, r.arrayOffset + 4 * index + 4), h)
  }

  lemma ArrayInside(contents: Bytes)
    ensures ReaderOf(contents).arrayOffset <= |contents|
  {
    hide NatOf, NumberAt;
  }

  /** FilterBlockReader::KeyMayMatch. */
  method KeyMayMatch(contents: Bytes, blockOffset: nat, h: nat) returns (may: bool)
    requires h < WIDTH32
    ensures may == MayMatch(contents, blockOffset, h)
  {
    hide ShiftRight, ReaderOf, WordAt, Matches;
    var r := ReaderOf(contents);
    ArrayInside(contents);
    var index := ShiftRight(blockOffset, r.baseLg);
    if index < r.num {
      var start, limit := WordAt(contents, r.arrayOffset + 4 * index), WordAt(contents, r.arrayOffset + 4 * index + 4);
      if start <= limit <= r.arrayOffset {
        may := Bloom.KeyMayMatch(h, contents[start..limit]);
        return may;
      } else if start == limit {
        return false;
      }
    }
    return true;
  }

  /** The finished contents: filters, offsets, where the offsets start, the piece size. */
  ghost predicate Stored(contents: Bytes, data: Bytes, offsets: seq<nat>) {
    && |contents| == |data| + 4 * |offsets| + 5 && contents[..|data|] == data
    && (forall r :: 0 <= r < |offsets| ==> Written(contents, |data|, r, offsets[r]))
    && Written(contents, |data|, |offsets|, |data|)
    && contents[|contents| - 1] == ByteOf(FILTER_BASE_LG)
  }

  lemma ReaderIs(contents: Bytes, data: Bytes, offsets: seq<nat>)
    requires Stored(contents, data, offsets) && |data| < WIDTH32
    ensures ReaderOf(contents) == Reader(|data|, |offsets|, FILTER_BASE_LG)
  {
    hide NatOf, ByteOf, FixedOf, NumberAt;
    var n := |contents|;
    Fixed32At(contents, n - 5, |data|);
    ByteRoundTrip(FILTER_BASE_LG);
  }

  /** The filter of a data block's piece of the file decides, and without one everything matches. */
  lemma FilterDecides(contents: Bytes, data: Bytes, offsets: seq<nat>, p: Policy, hashOf: Bytes -> nat,
                      filters: seq<seq<Bytes>>, blockOffset: nat, h: nat)
    requires p.k <= 30 && Stored(contents, data, offsets) && |data| < WIDTH32
    requires data == AllFilters(p, hashOf, filters) && OffsetsOk(p, hashOf, filters, offsets)
    ensures MayMatch(contents, blockOffset, h) <==>
              var i := blockOffset / 2048; i >= |filters| || Matches(h, FilterOf(p, hashOf, filters[i]))
  {
    hide AllFilters, FilterOf, Stored, ReaderOf, WordAt, Matches, ShiftRight;
    var index := blockOffset / FILTER_BASE;
    OffsetCount(p, hashOf, filters, offsets);
    ReaderIs(contents, data, offsets);
    PieceSize(blockOffset);
    if index < |filters| {
      var start, limit := FilterRange(contents, data, offsets, p, hashOf, filters, index);
    }
  }

  lemma PieceSize(n: nat)
    ensures ShiftRight(n, FILTER_BASE_LG) == n / FILTER_BASE
  {
    FourBits(n, 7);
    FourBits(n / 16, 3);
    assert ShiftRight(n / 256, 3) == n / 256 / 2 / 2 / 2;
  }

  lemma FourBits(n: nat, bits: nat)
    ensures ShiftRight(n, bits + 4) == ShiftRight(n / 16, bits)
  {
    var n1 := n / 2;
    var n2 := n1 / 2;
    var n3 := n2 / 2;
    assert n3 / 2 == n / 16;
    assert ShiftRight(n, bits + 4) == ShiftRight(n1, bits + 3) == ShiftRight(n2, bits + 2) == ShiftRight(n3, bits + 1);
  }

  lemma FilterHolds(p: Policy, hashOf: Bytes -> nat, keys: seq<Bytes>, key: Bytes)
    requires p.k <= 30 && key in keys
    ensures Matches(hashOf(key), FilterOf(p, hashOf, keys))
  {
    hide Filter, Matches;
    var i :| 0 <= i < |keys| && keys[i] == key;
    assert Hashes(keys, hashOf)[i] == hashOf(key);
    NeverMisses(p, Hashes(keys, hashOf), hashOf(key));
  }

  /** The two words of filter number `index` bound its bytes. */
  lemma FilterRange(contents: Bytes, data: Bytes, offsets: seq<nat>, p: Policy, hashOf: Bytes -> nat,
                    filters: seq<seq<Bytes>>,
                    index: nat) returns (start: nat, limit: nat)
    requires p.k <= 30 && Stored(contents, data, offsets) && |data| < WIDTH32
    requires data == AllFilters(p, hashOf, filters) && OffsetsOk(p, hashOf, filters, offsets) && index < |filters|
    ensures start == WordAt(contents, |data| + 4 * index) && limit == WordAt(contents, |data| + 4 * index + 4)
    ensures start <= limit <= |data| && |data| <= |contents|
            && contents[start..limit] == FilterOf(p, hashOf, filters[index])
  {
    hide AllFilters, FilterOf, FixedOf, NumberAt, ByteOf;
    start, limit := |AllFilters(p, hashOf, filters[..index])|, |AllFilters(p, hashOf, filters[..index + 1])|;
    AllSplits(p, hashOf, filters, index);
    Fixed32At(contents, |data| + 4 * index, start);
    assert Written(contents, |data|, index + 1, limit) by {
      if index + 1 == |filters| {
        assert filters[..index + 1] == filters;
      }
    }
    Fixed32At(contents, |data| + 4 * index + 4, limit);
    InPrefix(contents, |data|, start, limit);
  }

  lemma InPrefix(s: Bytes, n: nat, i: nat, j: nat)
    requires i <= j <= n <= |s|
    ensures s[..n][i..j] == s[i..j]
  {
  }

  lemma {:induction false} AllSplits(p: Policy, hashOf: Bytes -> nat, filters: seq<seq<Bytes>>, index: nat)
    requires p.k <= 30 && index < |filters|
    ensures var data, start, limit := AllFilters(p, hashOf, filters), |AllFilters(p, hashOf, filters[..index])|,
                                      |AllFilters(p, hashOf, filters[..index + 1])|;
            start <= limit <= |data| && data[start..limit] == FilterOf(p, hashOf, filters[index])
  {
    hide FilterOf, AllFilters;
    var n := |filters| - 1;
    AllUnfold(p, hashOf, filters);
    if index == n {
      assert filters[..n + 1] == filters;
    } else {
      AllSplits(p, hashOf, filters[..n], index);
      Prefix(filters, n, index);
      Prefix(filters, n, index + 1);
    }
  }

  lemma Prefix(filters: seq<seq<Bytes>>, n: nat, i: nat)
    requires i <= n <= |filters|
    ensures filters[..n][..i] == filters[..i]
  {
  }

  lemma AllUnfold(p: Policy, hashOf: Bytes -> nat, filters: seq<seq<Bytes>>)
    requires p.k <= 30 && filters != []
    ensures var n := |filters| - 1;
            AllFilters(p, hashOf, filters) == AllFilters(p, hashOf, filters[..n]) + FilterOf(p, hashOf, filters[n])
  {
  }

  // ---------- Building ----------

  class FilterBlockBuilder {
    const policy: Policy
    const hashOf: Bytes -> nat
    /** The keys since the last filter, one after another, and where each starts. */
    var keys: Bytes
    var start: seq<nat>
    var result: Bytes
    var filterOffsets: seq<nat>
    ghost var pending: seq<Bytes>
    /** The keys of each filter. */
    ghost var filters: seq<seq<Bytes>>

    ghost predicate Valid()
      reads this
    {
      && policy.k <= 30 && (forall k :: hashOf(k) < WIDTH32)
      && Flattened(keys, start, pending)
      && result == AllFilters(policy, hashOf, filters) && OffsetsOk(policy, hashOf, filters, filterOffsets)
    }

    /** The keys filed under the number i so far. */
    ghost function Filed(i: nat): seq<Bytes>
      reads this
    {
      if i < |filters| then filters[i] else if i == |filters| then pending else []
    }

    /** How long the filters will be when no more keys come. */
    ghost function FinalSize(): nat
      requires policy.k <= 30
      reads this
    {
      |result| + |FilterOf(policy, hashOf, pending)|
    }

    constructor (policy: Policy, hashOf: Bytes -> nat)
      requires policy.k <= 30 && forall k :: hashOf(k) < WIDTH32
      ensures Valid() && filters == [] && pending == [] && this.policy == policy && this.hashOf == hashOf
    {
      this.policy, this.hashOf := policy, hashOf;
      keys, start, result, filterOffsets, pending, filters := [], [], [], [], [], [];
    }

    /** A data block starts; filters for all 2 KB before its own are due. */
    method StartBlock(blockOffset: nat)
      requires Valid() && |filters| <= blockOffset / FILTER_BASE
      modifies this
      ensures Valid() && |filters| == blockOffset / FILTER_BASE
      ensures (forall i :: Filed(i) == old(Filed(i))) && FinalSize() == old(FinalSize())
    {
      hide Flattened, OffsetsOk, AllFilters, FilterOf;
      var filterIndex := blockOffset / FILTER_BASE;
      OffsetCount(policy, hashOf, filters, filterOffsets);
      while filterIndex > |filterOffsets|
        invariant Valid() && |filterOffsets| == |filters| <= filterIndex
        invariant (forall i :: Filed(i) == old(Filed(i))) && FinalSize() == old(FinalSize())
        decreases filterIndex - |filterOffsets|
      {
        GenerateFilter();
      }
    }

    method AddKey(key: Bytes)
      requires Valid()
      modifies this
      ensures Valid() && filters == old(filters) && pending == old(pending) + [key]
    {
      hide OffsetsOk, AllFilters;
      FlattenedNext(keys, start, pending, key);
      start := start + [|keys|];
      keys := keys + key;
      pending := pending + [key];
    }

    /** Cut the flattened keys apart again. */
    method SplitKeys() returns (r: seq<Bytes>)
      requires Flattened(keys, start, pending)
      ensures r == pending
    {
      FlattenedCount(keys, start, pending);
      var starts := start + [|keys|];
      r := [];
      var i := 0;
      while i < |start|
        invariant i <= |start| && r == pending[..i]
      {
        KeyBetween(keys, start, pending, i);
        r := r + [keys[starts[i]..starts[i + 1]]];
        i := i + 1;
      }
    }

    method GenerateFilter()
      requires Valid()
      modifies this
      ensures Valid() && filters == old(filters) + [old(pending)] && pending == []
      ensures |filterOffsets| == |filters| && FinalSize() == old(FinalSize())
    {
      hide Flattened, AllFilters, Filter, OffsetsOk;
      FlattenedCount(keys, start, pending);
      FilterNext(policy, hashOf, filters, filterOffsets, pending);
      OffsetCount(policy, hashOf, filters, filterOffsets);
      NoneFlattened();
      filterOffsets := filterOffsets + [|result|];
      if |start| > 0 {
        var tmpKeys := SplitKeys();
        result := CreateFilter(policy, Hashes(tmpKeys, hashOf), result);
        keys, start := [], [];
      }
      filters := filters + [pending];
      pending := [];
    }

    /** Finish: no key filed for a data block is missed. */
    method Finish() returns (contents: Bytes)
      requires Valid()
      requires FinalSize() < WIDTH32
      modifies this
      ensures filters == if old(pending) == [] then old(filters) else old(filters) + [old(pending)]
      ensures forall blockOffset: nat, h: nat :: MayMatch(contents, blockOffset, h) <==>
                var i := blockOffset / 2048; i >= |filters| || Matches(h, FilterOf(policy, hashOf, filters[i]))
      ensures forall key, blockOffset: nat :: key in old(Filed(blockOffset / FILTER_BASE)) ==>
                MayMatch(contents, blockOffset, hashOf(key))
      ensures |contents| == old(FinalSize()) + 4 * |filters| + 5
    {
      hide Flattened, AllFilters, FilterOf, OffsetsOk, MayMatch, FixedOf, Matches;
      FlattenedCount(keys, start, pending);
      FilterNext(policy, hashOf, filters, filterOffsets, pending);
      NoFilter(policy, hashOf);
      if start != [] {
        GenerateFilter();
      }
      assert forall key, i: nat :: key in old(Filed(i)) ==> i < |filters| && key in filters[i];
      OffsetCount(policy, hashOf, filters, filterOffsets);
      contents := PutOffsets();
      forall blockOffset: nat, h: nat
        ensures MayMatch(contents, blockOffset, h) <==>
                  var i := blockOffset / 2048; i >= |filters| || Matches(h, FilterOf(policy, hashOf, filters[i]))
      {
        FilterDecides(contents, result, filterOffsets, policy, hashOf, filters, blockOffset, h);
      }
      forall key, blockOffset: nat | key in old(Filed(blockOffset / FILTER_BASE))
        ensures MayMatch(contents, blockOffset, hashOf(key))
      {
        FilterHolds(policy, hashOf, filters[blockOffset / 2048], key);
      }
    }

    /** Behind the filters: their offsets, the place of these, and the piece size. */
    method PutOffsets() returns (contents: Bytes)
      ensures Stored(contents, result, filterOffsets)
    {
      hide FixedOf, ByteOf;
      var arrayOffset := |result|;
      contents := result;
      var i := 0;
      while i < |filterOffsets|
        invariant i <= |filterOffsets| && |contents| == |result| + 4 * i && contents[..|result|] == result
        invariant forall r :: 0 <= r < i ==> Written(contents, |result|, r, filterOffsets[r])
      {
        WrittenOneMore(contents, |result|, i, filterOffsets);
        contents := contents + FixedOf(filterOffsets[i], 4);
        i := i + 1;
      }
      WrittenLast(contents, |result|, filterOffsets, arrayOffset);
      contents := contents + FixedOf(arrayOffset, 4);
      StoredIs(contents, result, filterOffsets);
      contents := contents + [ByteOf(FILTER_BASE_LG)];
    }
  }

  lemma StoredIs(all: Bytes, data: Bytes, offsets: seq<nat>)
    requires |all| == |data| + 4 * |offsets| + 4 && all[..|data|] == data
    requires forall r :: 0 <= r < |offsets| ==> Written(all, |data|, r, offsets[r])
    requires Written(all, |data|, |offsets|, |data|)
    ensures Stored(all + [ByteOf(FILTER_BASE_LG)], data, offsets)
  {
    hide FixedOf, ByteOf, Written;
    var more := [ByteOf(FILTER_BASE_LG)];
    forall r | 0 <= r < |offsets|
      ensures Written(all + more, |data|, r, offsets[r])
    {
      WrittenStays(all, |data|, r, offsets[r], more);
    }
    WrittenStays(all, |data|, |offsets|, |data|, more);
    assert (all + more)[..|data|] == all[..|data|];
  }

  lemma FlattenedCount(flat: Bytes, start: seq<nat>, keys: seq<Bytes>)
    requires Flattened(flat, start, keys)
    ensures |start| == |keys|
  {
  }

  lemma NoFilter(p: Policy, hashOf: Bytes -> nat)
    requires p.k <= 30
    ensures FilterOf(p, hashOf, []) == []
  {
  }

  lemma NoneFlattened()
    ensures Flattened([], [], [])
  {
  }

  lemma FlattenedNext(flat: Bytes, start: seq<nat>, keys: seq<Bytes>, key: Bytes)
    requires Flattened(flat, start, keys)
    ensures Flattened(flat + key, start + [|flat|], keys + [key])
  {
    var flat', start', keys' := flat + key, start + [|flat|], keys + [key];
    forall i, j | 0 <= i && j == i + 1 < |keys'|
      ensures start'[i] <= start'[j] && flat'[start'[i]..start'[j]] == keys'[i]
    {
      if j < |keys| {
        assert flat'[start[i]..start[j]] == flat[start[i]..start[j]];
      } else {
        assert flat'[start[i]..|flat|] == flat[start[i]..];
      }
    }
    assert flat'[|flat|..] == key;
  }

  lemma KeyBetween(flat: Bytes, start: seq<nat>, keys: seq<Bytes>, i: nat)
    requires Flattened(flat, start, keys) && i < |keys|
    ensures var starts := start + [|flat|];
            starts[i] <= starts[i + 1] <= |flat| && flat[starts[i]..starts[i + 1]] == keys[i]
  {
    var j := i + 1;
    if j == |keys| {
      assert flat[start[i]..|flat|] == flat[start[i]..];
    }
  }

  lemma OffsetCount(p: Policy, hashOf: Bytes -> nat, filters: seq<seq<Bytes>>, offsets: seq<nat>)
    requires p.k <= 30 && OffsetsOk(p, hashOf, filters, offsets)
    ensures |offsets| == |filters|
  {
  }

  lemma FilterNext(p: Policy, hashOf: Bytes -> nat, filters: seq<seq<Bytes>>, offsets: seq<nat>, keys: seq<Bytes>)
    requires p.k <= 30 && OffsetsOk(p, hashOf, filters, offsets)
    ensures var result := AllFilters(p, hashOf, filters);
            && AllFilters(p, hashOf, filters + [keys]) == result + FilterOf(p, hashOf, keys)
            && OffsetsOk(p, hashOf, filters + [keys], offsets + [|result|])
            && result + [] == result
  {
    hide FilterOf;
    assert (filters + [keys])[..|filters|] == filters;
    forall i | 0 <= i < |filters + [keys]|
      ensures (offsets + [|AllFilters(p, hashOf, filters)|])[i] == |AllFilters(p, hashOf, (filters + [keys])[..i])|
    {
      if i < |filters| {
        assert (filters + [keys])[..i] == filters[..i];
      }
    }
  }
}
