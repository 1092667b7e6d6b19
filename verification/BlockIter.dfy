/** The iterator over a finished block: a cursor over its records, read from the bytes. */
module BlockIterators {
  import opened Coding
  import opened Varints
  import opened Options
  import opened Blocks

  // ---------- What the bytes of a block say ----------

  /** The record at j is read at its offset, given any key that starts like the one before. */
  lemma RecordDecodes(data: Bytes, y: Layout, interval: nat, j: nat, key: Bytes)
    requires BlockOk(data, y, interval) && j < |y.records|
    requires y.shares[j] <= |key| && y.shares[j] <= |y.records[j].key|
             && key[..y.shares[j]] == y.records[j].key[..y.shares[j]]
    ensures var limit := y.offsets[|y.records|]; limit <= |data| && HeaderAt(data, y.offsets[j], limit).Some?
    ensures var h, r, limit := HeaderAt(data, y.offsets[j], y.offsets[|y.records|]).value, y.records[j],
            y.offsets[|y.records|];
            && h.shared == y.shares[j] && h.at + h.nonShared + h.valueLength == y.offsets[j + 1] <= limit
            && key[..h.shared] + data[h.at..h.at + h.nonShared] == r.key
            && data[h.at + h.nonShared..h.at + h.nonShared + h.valueLength] == r.value
  {
    hide EntryBytes, HeaderAt, BlockOk;
    RecordParts(data, y, interval, j);
    var p, q, limit, shared := y.offsets[j], y.offsets[j + 1], y.offsets[|y.records|], y.shares[j];
    var r := y.records[j];
    EntryDecodes(data, p, q, limit, shared, r);
    assert key[..shared] + r.key[shared..] == r.key;
  }

  lemma RecordParts(data: Bytes, y: Layout, interval: nat, j: nat)
    requires BlockOk(data, y, interval) && j < |y.records|
    ensures |y.offsets| == |y.records| + 1 && |y.shares| == |y.records|
    ensures var p, q, limit, r, shared := y.offsets[j], y.offsets[j + 1], y.offsets[|y.records|], y.records[j],
            y.shares[j];
            && SmallRecord(r) && shared <= |r.key| && p < q <= limit <= |data| < WIDTH32
               && data[p..q] == EntryBytes(shared, r)
  {
    hide EntryBytes, RestartAt, NumberAt, Restarts;
    assert RecordOk(data, y, j);
  }

  /** A record follows the one before it; one at a restart point follows any key. */
  lemma Follows(data: Bytes, y: Layout, interval: nat, j: nat)
    requires BlockOk(data, y, interval) && j < |y.records|
    ensures y.shares[j] <= |y.records[j].key|
    ensures j > 0 ==>
              y.shares[j] <= |y.records[j - 1].key| && y.records[j - 1].key[..y.shares[j]] ==
                y.records[j].key[..y.shares[j]]
    ensures forall r :: 0 <= r < |y.starts| && y.starts[r] == j ==> y.shares[j] == 0
  {
    hide EntryBytes, RestartAt, NumberAt;
    assert RecordOk(data, y, j);
  }

  lemma OffsetOrder(data: Bytes, y: Layout, interval: nat)
    requires BlockOk(data, y, interval)
    ensures |y.offsets| == |y.records| + 1 && |y.shares| == |y.records| && y.starts != [] && y.starts[0] == 0
    ensures forall i, j :: 0 <= i < j <= |y.records| ==> y.offsets[i] < y.offsets[j]
    ensures forall r, s :: 0 <= r < s < |y.starts| ==> y.starts[r] < y.starts[s]
    ensures forall r :: 0 <= r < |y.starts| ==> y.starts[r] <= |y.records| && (r > 0 ==> y.starts[r] < |y.records|)
    ensures forall r :: 0 <= r < |y.starts| ==> RestartAt(data, y.offsets[|y.records|], r) == y.offsets[y.starts[r]]
    ensures y.offsets[|y.records|] <= |data| < WIDTH32 && y.offsets[0] == 0
    ensures |data| == y.offsets[|y.records|] + 4 * |y.starts| + 4 && NumberAt(data, |data| - 4, 4) == |y.starts|
  {
    hide RecordOk, RestartAt, NumberAt;
  }

  /** Block's constructor: where the restart array starts; None when the size is wrong. */
  function RestartOffset(data: Bytes): Option<nat> {
    if |data| < 4 then None
    else
      var n := NumberAt(data, |data| - 4, 4);
      if n > (|data| - 4) / 4 then None else Some(|data| - (1 + n) * 4)
  }

  lemma RestartsFound(data: Bytes, y: Layout, interval: nat)
    requires BlockOk(data, y, interval)
    ensures RestartOffset(data) == Some(y.offsets[|y.records|])
  {
    hide RecordOk, Restarts, RestartAt, NumberAt;
  }

  /** The first record that is not less than the target. */
  ghost predicate FirstFrom(rs: seq<Record>, less: (Bytes, Bytes) -> bool, target: Bytes, i: nat) {
    && i <= |rs| && (forall j :: 0 <= j < i ==> less(rs[j].key, target))
    && (i < |rs| ==> !less(rs[i].key, target))
  }

  ghost predicate Ordered(rs: seq<Record>, less: (Bytes, Bytes) -> bool) {
    && (forall i, j :: 0 <= i < j < |rs| ==> less(rs[i].key, rs[j].key))
    && Transitive(less)
  }

  ghost predicate Transitive(less: (Bytes, Bytes) -> bool) {
    forall a, b, c :: less(a, b) && less(b, c) ==> less(a, c)
  }

  // ---------- The iterator ----------

  class Iter {
    const less: (Bytes, Bytes) -> bool
    const data: Bytes
    const restarts: nat
    const numRestarts: nat
    ghost const y: Layout
    ghost const interval: nat
    var current: nat
    var restartIndex: nat
    var key: Bytes
    var valueStart: nat
    var valueSize: nat
    /** The number of the current record; the number of all records when invalid. */
    ghost var pos: nat

    ghost predicate Over() {
      BlockOk(data, y, interval) && restarts == y.offsets[|y.records|] && numRestarts == |y.starts|
    }

    ghost predicate Inv()
      reads this
    {
      && Over() && pos <= |y.records| && Ordered(y.records, less)
      && if pos < |y.records|
         then && current == y.offsets[pos] && key == y.records[pos].key && Value() == y.records[pos].value
              && valueStart + valueSize == y.offsets[pos + 1]
              && restartIndex < numRestarts && y.starts[restartIndex] <= pos
              && (forall s :: s == restartIndex + 1 < numRestarts ==> pos <= y.starts[s])
         else current == restarts && restartIndex == numRestarts
    }

    function Value(): Bytes
      reads this
    {
      if valueStart + valueSize <= |data| then data[valueStart..valueStart + valueSize] else []
    }

    predicate Valid()
      reads this
    {
      current < restarts
    }

    constructor (less: (Bytes, Bytes) -> bool, data: Bytes, ghost y: Layout, ghost interval: nat)
      requires BlockOk(data, y, interval) && Ordered(y.records, less)
      ensures Inv() && !Valid() && pos == |y.records| && this.y == y && this.less == less
    {
      RestartsFound(data, y, interval);
      OffsetOrder(data, y, interval);
      var offset := RestartOffset(data).value;
      this.less, this.data, this.y, this.interval := less, data, y, interval;
      restarts, numRestarts := offset, NumberAt(data, |data| - 4, 4);
      current, restartIndex := offset, NumberAt(data, |data| - 4, 4);
      key, valueStart, valueSize := [], 0, 0;
      pos := |y.records|;
    }

    function NextEntryOffset(): nat
      reads this
    {
      valueStart + valueSize
    }

    /** Just before record j, with a key it may build on. */
    ghost predicate Before(j: nat)
      reads this
    {
      && Over() && Ordered(y.records, less) && j <= |y.records| && NextEntryOffset() == y.offsets[j]
      && restartIndex < numRestarts && y.starts[restartIndex] <= j
      && (j < |y.records| ==> y.shares[j] <= |key| && y.shares[j] <= |y.records[j].key| &&
                              key[..y.shares[j]] == y.records[j].key[..y.shares[j]])
    }

    method SeekToRestartPoint(index: nat)
      requires Over() && Ordered(y.records, less) && index < numRestarts
      modifies this
      ensures Before(y.starts[index]) && restartIndex == index
    {
      hide BlockOk, RestartAt, NumberAt, Ordered;
      OffsetOrder(data, y, interval);
      if y.starts[index] < |y.records| {
        Follows(data, y, interval, y.starts[index]);
      }
      key := [];
      restartIndex := index;
      valueStart, valueSize := RestartAt(data, restarts, index), 0;
    }

    /** Decode the record after the value; none is left at the restart array. */
    method ParseNextKey(ghost j: nat) returns (found: bool)
      requires Before(j)
      modifies this
      ensures Inv() && pos == j && found == (j < |y.records|)
    {
      hide BlockOk, HeaderAt, Ordered, RestartAt, NumberAt;
      OffsetOrder(data, y, interval);
      current := NextEntryOffset();
      pos := j;
      if current >= restarts {
        current, restartIndex := restarts, numRestarts;
        return false;
      }
      ReadRecord(j);
      RaiseRestartIndex(j);
      return true;
    }

    method ReadRecord(ghost j: nat)
      requires Before(j) && j < |y.records| && current == y.offsets[j]
      modifies this`key, this`valueStart, this`valueSize
      ensures key == y.records[j].key && Value() == y.records[j].value && NextEntryOffset() == y.offsets[j + 1]
    {
      hide BlockOk, HeaderAt, Ordered, RestartAt, NumberAt;
      OffsetOrder(data, y, interval);
      RecordDecodes(data, y, interval, j, key);
      var h := DecodeEntry(data, current, restarts);
      key := key[..h.value.shared] + data[h.value.at..h.value.at + h.value.nonShared];
      valueStart, valueSize := h.value.at + h.value.nonShared, h.value.valueLength;
    }

    method RaiseRestartIndex(ghost j: nat)
      requires Over() && restartIndex < numRestarts && j < |y.records| && y.starts[restartIndex] <= j
               && current == y.offsets[j]
      modifies this`restartIndex
      ensures restartIndex < numRestarts && y.starts[restartIndex] <= j
      ensures forall s :: s == restartIndex + 1 < numRestarts ==> j <= y.starts[s]
    {
      hide BlockOk, RestartAt, NumberAt;
      OffsetOrder(data, y, interval);
      while restartIndex + 1 < numRestarts && RestartAt(data, restarts, restartIndex + 1) < current
        invariant restartIndex < numRestarts && y.starts[restartIndex] <= j
        decreases numRestarts - restartIndex
      {
        restartIndex := restartIndex + 1;
      }
    }

    /** At a record, the next one can be parsed. */
    lemma MayAdvance()
      requires Inv() && pos < |y.records|
      ensures Before(pos + 1) && Over() && Ordered(y.records, less)
      ensures current == y.offsets[pos] && key == y.records[pos].key && NextEntryOffset() == y.offsets[pos + 1]
      ensures current < restarts && (pos + 1 < |y.records| <==> NextEntryOffset() < restarts)
      ensures restartIndex < numRestarts && y.starts[restartIndex] <= pos
    {
      hide BlockOk, Ordered, RestartAt, NumberAt;
      OffsetOrder(data, y, interval);
      if pos + 1 < |y.records| {
        Follows(data, y, interval, pos + 1);
      }
    }

    lemma AtRecord()
      requires Inv()
      ensures Valid() <==> pos < |y.records|
      ensures Over() && Ordered(y.records, less) && pos <= |y.records|
    {
      hide BlockOk, Ordered, RestartAt, NumberAt;
      OffsetOrder(data, y, interval);
    }

    method Next()
      requires Inv() && Valid()
      modifies this
      ensures Inv() && pos == old(pos) + 1
    {
      hide Inv, Before, Over, Ordered;
      AtRecord();
      MayAdvance();
      var _ := ParseNextKey(pos + 1);
    }

    /** Go back to a restart point before the current record, and forward again to its
        predecessor. */
    method Prev()
      requires Inv() && Valid()
      modifies this
      ensures Inv() && pos == if old(pos) == 0 then |y.records| else old(pos) - 1
    {
      hide Inv, Before, BlockOk, Ordered, RestartAt;
      AtRecord();
      MayAdvance();
      OffsetOrder(data, y, interval);
      var original := current;
      ghost var was := pos;
      var none := BackToRestart(was);
      if none {
        return;
      }
      SeekToRestartPoint(restartIndex);
      ghost var j := y.starts[restartIndex];
      var found := ParseNextKey(j);
      MayAdvance();
      while found && NextEntryOffset() < original
        invariant Inv() && pos == j < was && found && NextEntryOffset() == y.offsets[j + 1] && Before(j + 1)
        decreases was - j
      {
        found := ParseNextKey(j + 1);
        j := j + 1;
        MayAdvance();
      }
    }

    /** Prev's first loop: the last restart point before the current record, if there is one. */
    method BackToRestart(ghost was: nat) returns (none: bool)
      requires Over() && Ordered(y.records, less) && was < |y.records| && current == y.offsets[was]
      requires restartIndex < numRestarts && y.starts[restartIndex] <= was
      modifies this
      ensures none ==> Inv() && pos == |y.records| && was == 0
      ensures !none ==> restartIndex < numRestarts && y.starts[restartIndex] < was
    {
      hide BlockOk, Ordered, RestartAt;
      OffsetOrder(data, y, interval);
      var original := current;
      while RestartAt(data, restarts, restartIndex) >= original
        invariant restartIndex < numRestarts && y.starts[restartIndex] <= was
        decreases restartIndex
      {
        if restartIndex == 0 {
          current, restartIndex := restarts, numRestarts;
          pos := |y.records|;
          return true;
        }
        restartIndex := restartIndex - 1;
      }
      return false;
    }

    /** Binary search in the restart points, then linear search. */
    method Seek(target: Bytes)
      requires Over() && Ordered(y.records, less)
      modifies this
      ensures Inv() && FirstFrom(y.records, less, target, pos)
    {
      hide Inv, Before, BlockOk, Over, Ordered;
      var left := LastRestartBelow(target);
      SeekToRestartPoint(left);
      ghost var j := y.starts[left];
      var found := ParseNextKey(j);
      AtRecord();
      if found {
        MayAdvance();
      }
      while found && less(key, target)
        invariant Inv() && pos == j <= |y.records| && found == (j < |y.records|)
        invariant found ==> Before(j + 1) && key == y.records[j].key
        invariant forall i :: 0 <= i < j ==> less(y.records[i].key, target)
        decreases |y.records| - j
      {
        found := ParseNextKey(j + 1);
        j := j + 1;
        AtRecord();
        if found {
          MayAdvance();
        }
      }
    }

    method LastRestartBelow(target: Bytes) returns (left: nat)
      requires Over() && Ordered(y.records, less)
      ensures left < numRestarts == |y.starts| && y.starts[left] <= |y.records|
      ensures forall i :: 0 <= i < y.starts[left] ==> less(y.records[i].key, target)
      ensures left > 0 ==> y.starts[left] < |y.records| && less(y.records[y.starts[left]].key, target)
      ensures left + 1 < numRestarts ==>
                y.starts[left + 1] < |y.records| && !less(y.records[y.starts[left + 1]].key, target)
    {
      hide BlockOk, RestartAt, NumberAt, Ordered;
      OffsetOrder(data, y, interval);
      var right: nat;
      left, right := 0, numRestarts - 1;
      while left < right
        invariant left <= right < numRestarts
        invariant left > 0 ==> less(y.records[y.starts[left]].key, target)
        invariant right + 1 < numRestarts ==> !less(y.records[y.starts[right + 1]].key, target)
      {
        var mid := (left + right + 1) / 2;
        var midKey := RestartKey(mid);
        if less(midKey, target) {
          left := mid;
        } else {
          right := mid - 1;
        }
      }
      if left > 0 {
        BelowTarget(y.records, less, target, y.starts[left]);
      }
    }

    /** The whole key at a restart point. */
    method RestartKey(index: nat) returns (k: Bytes)
      requires Over() && 0 < index < numRestarts
      ensures y.starts[index] < |y.records| && k == y.records[y.starts[index]].key
    {
      hide BlockOk, HeaderAt, RestartAt, NumberAt;
      OffsetOrder(data, y, interval);
      Follows(data, y, interval, y.starts[index]);
      RecordDecodes(data, y, interval, y.starts[index], []);
      var h := DecodeEntry(data, RestartAt(data, restarts, index), restarts);
      return data[h.value.at..h.value.at + h.value.nonShared];
    }

    method SeekToFirst()
      requires Over() && Ordered(y.records, less)
      modifies this
      ensures Inv() && pos == 0
    {
      hide Inv, Before, BlockOk, Ordered, RestartAt, NumberAt;
      OffsetOrder(data, y, interval);
      SeekToRestartPoint(0);
      var _ := ParseNextKey(0);
    }

    method SeekToLast()
      requires Over() && Ordered(y.records, less)
      modifies this
      ensures Inv() && pos == if y.records == [] then 0 else |y.records| - 1
    {
      hide Inv, Before, BlockOk, Ordered, RestartAt, NumberAt;
      OffsetOrder(data, y, interval);
      SeekToRestartPoint(numRestarts - 1);
      ghost var j := y.starts[numRestarts - 1];
      var found := ParseNextKey(j);
      if found {
        MayAdvance();
      }
      while found && NextEntryOffset() < restarts
        invariant Inv() && pos == j <= |y.records| && found == (j < |y.records|)
        invariant found ==> Before(j + 1) && (j + 1 < |y.records| <==> NextEntryOffset() < restarts)
        invariant found == (y.records != [])
        decreases |y.records| - j
      {
        found := ParseNextKey(j + 1);
        j := j + 1;
        MayAdvance();
      }
    }
  }

  lemma BelowTarget(rs: seq<Record>, less: (Bytes, Bytes) -> bool, target: Bytes, n: nat)
    requires Ordered(rs, less) && n < |rs| && less(rs[n].key, target)
    ensures forall i :: 0 <= i < n ==> less(rs[i].key, target)
  {
  }
}
