/** Building a block: each record shares the start of its key with the record before. */
module BlockBuilders {
  import opened Coding
  import opened Varints
  import opened Blocks
  import opened BlockIterators

  /** shared is all that the two keys have in common at their start. */
  ghost predicate IsCommonPrefix(a: Bytes, b: Bytes, shared: nat) {
    && shared <= |a| && shared <= |b| && a[..shared] == b[..shared]
    && (shared < |a| && shared < |b| ==> a[shared] != b[shared])
  }

  /** Outside restart points nothing is written twice. */
  ghost predicate Compressed(y: Layout) {
    && |y.shares| == |y.records|
    && forall i: nat :: i < |y.records| && i !in y.starts ==>
       IsCommonPrefix(KeyBefore(y.records, i), y.records[i].key, y.shares[i])
  }

  function NextLayout(y: Layout, r: Record, shared: nat, restart: bool, end: nat): Layout {
    Layout(y.records + [r], y.offsets + [end], y.shares + [shared], if restart then y.starts + [|y.records|]
      else y.starts)
  }

  lemma LaidNext(data: Bytes, y: Layout, r: Record, shared: nat, restart: bool)
    requires Laid(data, y) && y.offsets[|y.records|] == |data| && SmallRecord(r)
    requires shared <= |r.key| && shared <= |KeyBefore(y.records, |y.records|)|
    requires r.key[..shared] == KeyBefore(y.records, |y.records|)[..shared]
    ensures var data' := data + EntryBytes(shared, r); Laid(data', NextLayout(y, r, shared, restart, |data'|))
  {
    hide EntryBytes;
    EntryNotEmpty(shared, r);
    var data' := data + EntryBytes(shared, r);
    var y' := NextLayout(y, r, shared, restart, |data'|);
    var n := |y.records|;
    forall i: nat | i < |y'.records|
      ensures RecordOk(data', y', i)
    {
      if i < n {
        assert RecordOk(data, y, i);
        assert KeyBefore(y'.records, i) == KeyBefore(y.records, i);
        assert data'[y.offsets[i]..y.offsets[i + 1]] == data[y.offsets[i]..y.offsets[i + 1]];
      } else {
        assert KeyBefore(y'.records, n) == KeyBefore(y.records, n);
        assert data'[|data|..|data'|] == EntryBytes(shared, r);
      }
    }
  }

  lemma EntryNotEmpty(shared: nat, r: Record)
    requires shared <= |r.key|
    ensures |EntryBytes(shared, r)| > 0
  {
  }

  lemma LaidInLonger(data: Bytes, more: Bytes, y: Layout)
    requires Laid(data, y)
    ensures Laid(data + more, y)
  {
    hide EntryBytes;
    forall i: nat | i < |y.records|
      ensures RecordOk(data + more, y, i)
    {
      assert RecordOk(data, y, i);
      assert (data + more)[y.offsets[i]..y.offsets[i + 1]] == data[y.offsets[i]..y.offsets[i + 1]];
    }
  }

  lemma RestartsNext(y: Layout, interval: nat, r: Record, shared: nat, restart: bool, end: nat)
    requires Restarts(y, interval) && interval > 0 && (restart || y.records == [] ==> shared == 0)
    requires restart ==> y.records != [] && |y.records| == y.starts[|y.starts| - 1] + interval
    ensures Restarts(NextLayout(y, r, shared, restart, end), interval)
  {
    var y', n := NextLayout(y, r, shared, restart, end), |y.starts|;
    forall i | 0 <= i < |y'.starts|
      ensures y'.starts[i] < |y'.records| && y'.shares[y'.starts[i]] == 0
    {
      if i < n {
        assert y'.starts[i] == y.starts[i];
      }
    }
    forall i, j | 0 <= i && j == i + 1 < |y'.starts|
      ensures y'.starts[j] == y'.starts[i] + interval
    {
      assert y'.starts[i] == y.starts[i];
      if j < n {
        assert y'.starts[j] == y.starts[j];
      }
    }
    forall i, j | 0 <= i < j < |y'.starts|
      ensures y'.starts[i] < y'.starts[j]
    {
      assert y'.starts[i] == y.starts[i];
      if j < n {
        assert y'.starts[j] == y.starts[j];
      } else {
        assert y.starts[i] <= y.starts[n - 1];
      }
    }
  }

  lemma CompressedNext(y: Layout, r: Record, shared: nat, restart: bool, end: nat)
    requires Compressed(y) && (restart || IsCommonPrefix(KeyBefore(y.records, |y.records|), r.key, shared))
    ensures Compressed(NextLayout(y, r, shared, restart, end))
  {
    hide IsCommonPrefix;
    var y' := NextLayout(y, r, shared, restart, end);
    if restart {
      assert y'.starts[|y.starts|] == |y.records|;
    }
    forall i: nat | i < |y'.records| && i !in y'.starts
      ensures IsCommonPrefix(KeyBefore(y'.records, i), y'.records[i].key, y'.shares[i])
    {
      assert i in y.starts ==> i in y'.starts;
      assert KeyBefore(y'.records, i) == KeyBefore(y.records, i);
    }
  }

  lemma OrderedNext(rs: seq<Record>, less: (Bytes, Bytes) -> bool, r: Record)
    requires Ordered(rs, less) && (rs != [] ==> less(rs[|rs| - 1].key, r.key))
    ensures Ordered(rs + [r], less)
  {
    forall i, j | 0 <= i < j < |rs + [r]|
      ensures less((rs + [r])[i].key, (rs + [r])[j].key)
    {
      if j == |rs| && i < |rs| - 1 {
        assert less(rs[i].key, rs[|rs| - 1].key);
      }
    }
  }

  /** The builder's state after the records of y. */
  ghost predicate Built(interval: nat, less: (Bytes, Bytes) -> bool, buffer: Bytes, restarts: seq<nat>, counter: nat,
                        lastKey: Bytes, y: Layout)
  {
    && interval > 0 && Laid(buffer, y) && y.offsets[|y.records|] == |buffer|
    && Restarts(y, interval) && Compressed(y) && Ordered(y.records, less) && RestartsNoted(restarts, y)
    && |y.records| == y.starts[|y.starts| - 1] + counter && counter <= interval
    && lastKey == KeyBefore(y.records, |y.records|)
  }

  /** One more record, after the shared part or at a restart point. */
  lemma BuiltNext(interval: nat, less: (Bytes, Bytes) -> bool, buffer: Bytes, restarts: seq<nat>, counter: nat,
                  lastKey: Bytes, y: Layout, r: Record, shared: nat, restart: bool)
    requires Built(interval, less, buffer, restarts, counter, lastKey, y) && SmallRecord(r)
    requires restart == (counter >= interval) && (if restart then shared == 0
             else IsCommonPrefix(lastKey, r.key, shared))
    requires buffer != [] ==> less(lastKey, r.key)
    ensures shared <= |r.key|
    ensures var data := buffer + EntryBytes(shared, r);
            Built(interval, less, data, if restart then restarts + [|buffer|] else restarts,
                  (if restart then 0 else counter) + 1, r.key, NextLayout(y, r, shared, restart, |data|))
  {
    hide EntryBytes, Laid, Restarts, Compressed, Ordered, RestartsNoted, IsCommonPrefix;
    BuilderParts(buffer, y, interval);
    SharedParts(lastKey, r.key, shared, restart);
    var end := |buffer + EntryBytes(shared, r)|;
    LaidNext(buffer, y, r, shared, restart);
    RestartsNext(y, interval, r, shared, restart, end);
    CompressedNext(y, r, shared, restart, end);
    OrderedNext(y.records, less, r);
    NotedNext(restarts, buffer, y, r, shared, restart, end);
  }

  lemma NothingBuilt(interval: nat, less: (Bytes, Bytes) -> bool)
    requires interval > 0 && Transitive(less)
    ensures Built(interval, less, [], [0], 0, [], Layout([], [0], [], [0]))
  {
  }

  class BlockBuilder {
    const less: (Bytes, Bytes) -> bool
    const interval: nat
    var buffer: Bytes
    var restarts: seq<nat>
    var counter: nat
    var finished: bool
    var lastKey: Bytes
    ghost var y: Layout

    ghost predicate Valid()
      reads this
    {
      interval > 0 && Transitive(less) && Built(interval, less, buffer, restarts, counter, lastKey, y)
    }

    constructor (interval: nat, less: (Bytes, Bytes) -> bool)
      requires interval > 0 && Transitive(less)
      ensures Valid() && y.records == [] && !finished && this.interval == interval && this.less == less
      ensures CurrentSizeEstimate() == 8
    {
      hide Built;
      NothingBuilt(interval, less);
      this.interval, this.less := interval, less;
      buffer, restarts, counter, finished, lastKey := [], [0], 0, false, [];
      y := Layout([], [0], [], [0]);
    }

    method Reset()
      requires interval > 0 && Transitive(less)
      modifies this
      ensures Valid() && y.records == [] && !finished && CurrentSizeEstimate() == 8
    {
      hide Built;
      NothingBuilt(interval, less);
      buffer, restarts, counter, finished, lastKey := [], [0], 0, false, [];
      y := Layout([], [0], [], [0]);
    }

    /** The builder is empty exactly when it holds no record. */
    lemma Holds()
      requires Valid()
      ensures buffer == [] <==> y.records == []
      ensures lastKey == KeyBefore(y.records, |y.records|) && Ordered(y.records, less)
      ensures y.records == [] ==> CurrentSizeEstimate() == 8
    {
      hide Compressed, Ordered, RecordOk;
    }

    function CurrentSizeEstimate(): nat
      reads this
    {
      |buffer| + 4 * |restarts| + 4
    }

    /** How much of the last key the new one starts with. */
    method SharedWithLast(key: Bytes) returns (shared: nat)
      ensures IsCommonPrefix(lastKey, key, shared)
    {
      var minLength := if |lastKey| < |key| then |lastKey| else |key|;
      shared := 0;
      while shared < minLength && lastKey[shared] == key[shared]
        invariant shared <= minLength && lastKey[..shared] == key[..shared]
      {
        shared := shared + 1;
      }
    }

    method Add(key: Bytes, value: Bytes)
      requires Valid() && !finished && |key| < WIDTH32 && |value| < WIDTH32
      requires buffer != [] ==> less(lastKey, key)
      modifies this
      ensures Valid() && !finished && y.records == old(y.records) + [Record(key, value)]
      ensures CurrentSizeEstimate() <= old(CurrentSizeEstimate()) + |key| + |value| + 19
    {
      hide EntryBytes, Built, IsCommonPrefix;
      ghost var r := Record(key, value);
      var shared := 0;
      var restart := counter >= interval;
      if !restart {
        shared := SharedWithLast(key);
      }
      SharedParts(lastKey, key, shared, restart);
      BuiltNext(interval, less, buffer, restarts, counter, lastKey, y, r, shared, restart);
      if restart {
        restarts := restarts + [|buffer|];
        counter := 0;
      }
      AppendEntry(shared, key, value);
      lastKey := lastKey[..shared] + key[shared..];
      counter := counter + 1;
      y := NextLayout(y, r, shared, restart, |buffer|);
    }

    method AppendEntry(shared: nat, key: Bytes, value: Bytes)
      requires shared <= |key| < WIDTH32 && |value| < WIDTH32
      modifies this`buffer
      ensures buffer == old(buffer) + EntryBytes(shared, Record(key, value))
      ensures |buffer| <= |old(buffer)| + |key| + |value| + 15
    {
      hide EncodeVarint;
      EntryIs(buffer, shared, Record(key, value));
      var s := EncodeVarint32(shared);
      var n := EncodeVarint32(|key| - shared);
      var v := EncodeVarint32(|value|);
      buffer := buffer + s + n + v;
      buffer := buffer + key[shared..];
      buffer := buffer + value;
    }

    /** Finish: what the iterator reads. */
    method Finish() returns (block: Bytes)
      requires Valid() && !finished && CurrentSizeEstimate() < WIDTH32
      modifies this
      ensures BlockOk(block, old(y), interval) && Ordered(old(y.records), less) && Compressed(old(y))
      ensures |block| == old(CurrentSizeEstimate()) && finished && y == old(y)
    {
      hide Laid, Restarts, Compressed, Ordered, FixedOf, NumberAt, RestartsNoted, BlockOk;
      BuilderParts(buffer, y, interval);
      NotedParts(restarts, buffer, y);
      ghost var data := buffer;
      var i := 0;
      while i < |restarts|
        invariant i <= |restarts| && |buffer| == |data| + 4 * i && buffer[..|data|] == data && restarts == old(restarts)
        invariant y == old(y)
        invariant forall r :: 0 <= r < i ==> Written(buffer, |data|, r, restarts[r])
      {
        WrittenOneMore(buffer, |data|, i, restarts);
        buffer := buffer + FixedOf(restarts[i], 4);
        i := i + 1;
      }
      WrittenLast(buffer, |data|, restarts, |restarts|);
      buffer := buffer + FixedOf(|restarts|, 4);
      finished := true;
      block := buffer;
      FinishedBlock(block, data, y, restarts, interval);
    }
  }

  lemma FinishedBlock(block: Bytes, data: Bytes, y: Layout, restarts: seq<nat>, interval: nat)
    requires Laid(data, y) && y.offsets[|y.records|] == |data| && Restarts(y, interval) && RestartsNoted(restarts, y)
    requires |block| == |data| + 4 * |restarts| + 4 < WIDTH32 && block[..|data|] == data
    requires forall r :: 0 <= r < |restarts| ==> Written(block, |data|, r, restarts[r]) && restarts[r] <= |data|
    requires Written(block, |data|, |restarts|, |restarts|)
    ensures BlockOk(block, y, interval)
  {
    hide Laid, Restarts, Written;
    NotedParts(restarts, data, y);
    assert data + block[|data|..] == block;
    LaidInLonger(data, block[|data|..], y);
    RestartArray(block, data, y, restarts);
    BuilderParts(data, y, interval);
    RestartOffsets(block, y, interval);
  }

  lemma RestartOffsets(block: Bytes, y: Layout, interval: nat)
    requires Laid(block, y) && Restarts(y, interval)
    ensures forall r :: 0 <= r < |y.starts| ==> y.starts[r] < |y.offsets|
  {
    hide RecordOk;
  }

  /** The restart array so far. */
  ghost predicate RestartsNoted(restarts: seq<nat>, y: Layout) {
    && |restarts| == |y.starts|
    && forall r :: 0 <= r < |restarts| ==> y.starts[r] < |y.offsets| && restarts[r] == y.offsets[y.starts[r]]
  }

  lemma BuilderParts(data: Bytes, y: Layout, interval: nat)
    requires Laid(data, y) && Restarts(y, interval)
    ensures |y.offsets| == |y.records| + 1 && |y.shares| == |y.records| && y.starts != []
    ensures data == [] && y.offsets[|y.records|] == |data| ==> y.records == []
    ensures y.records == [] ==> |y.starts| == 1 && y.starts[0] == 0
  {
    hide RecordOk;
  }

  lemma SharedParts(lastKey: Bytes, key: Bytes, shared: nat, restart: bool)
    requires if restart then shared == 0 else IsCommonPrefix(lastKey, key, shared)
    ensures shared <= |key| && shared <= |lastKey| && key[..shared] == lastKey[..shared]
    ensures lastKey == [] ==> shared == 0
    ensures lastKey[..shared] + key[shared..] == key
  {
    assert key[..shared] + key[shared..] == key;
  }

  lemma EntryIs(buffer: Bytes, shared: nat, r: Record)
    requires shared <= |r.key|
    ensures buffer + EntryBytes(shared, r) ==
            buffer + EncodeVarint(shared) + EncodeVarint(|r.key| - shared) + EncodeVarint(|r.value|) + r.key[shared..]
              + r.value
  {
    var a, b, c, d, e := EncodeVarint(shared), EncodeVarint(|r.key| - shared), EncodeVarint(|r.value|), r.key[shared..],
      r.value;
    assert buffer + (a + b + c + (d + e)) == buffer + a + b + c + d + e;
  }

  lemma NotedNext(restarts: seq<nat>, data: Bytes, y: Layout, r: Record, shared: nat, restart: bool, end: nat)
    requires RestartsNoted(restarts, y) && |y.offsets| == |y.records| + 1 && y.offsets[|y.records|] == |data|
    ensures RestartsNoted(if restart then restarts + [|data|] else restarts, NextLayout(y, r, shared, restart, end))
  {
  }

  // ---------- The restart array ----------

  lemma NotedParts(restarts: seq<nat>, data: Bytes, y: Layout)
    requires RestartsNoted(restarts, y) && Laid(data, y)
    ensures |restarts| == |y.starts| && forall r :: 0 <= r < |restarts| ==> restarts[r] <= |data|
  {
    hide RecordOk;
  }

  lemma RestartArray(block: Bytes, data: Bytes, y: Layout, restarts: seq<nat>)
    requires RestartsNoted(restarts, y) && |block| == |data| + 4 * |restarts| + 4 < WIDTH32
    requires forall r :: 0 <= r < |restarts| ==> Written(block, |data|, r, restarts[r]) && restarts[r] <= |data|
    requires Written(block, |data|, |restarts|, |restarts|)
    ensures forall r :: 0 <= r < |y.starts| ==>
              y.starts[r] < |y.offsets| && RestartAt(block, |data|, r) == y.offsets[y.starts[r]]
    ensures NumberAt(block, |block| - 4, 4) == |y.starts|
  {
    hide NumberAt, Written;
    forall r | 0 <= r < |restarts|
      ensures RestartAt(block, |data|, r) == restarts[r]
    {
      ReadWritten(block, |data|, r, restarts[r]);
    }
    ReadWritten(block, |data|, |restarts|, |restarts|);
  }
}
