/** The two-level iterator: an index over blocks, and a cursor inside one block. */
module TwoLevel {
  import opened InternalKeys
  import opened Options
  import opened Merger

  /** The separator is the key the index keeps for a block: no entry of the block is
      after it, every entry of a later block is.  A block may be empty. */
  datatype Block = Block(separator: InternalKey, entries: seq<Entry>)

  ghost predicate BlocksOk(blocks: seq<Block>) {
    && (forall i :: 0 <= i < |blocks| ==> Sorted(blocks[i].entries))
    && (forall i, e :: 0 <= i < |blocks| && e in blocks[i].entries ==> !Less(blocks[i].separator, e.key))
    && (forall i, j :: 0 <= i < j < |blocks| ==> Less(blocks[i].separator, blocks[j].separator))
    && (forall i, j, e :: 0 <= i < j < |blocks| && e in blocks[j].entries ==> Less(blocks[i].separator, e.key))
  }

  function Concat(blocks: seq<Block>): seq<Entry> {
    if blocks == [] then [] else Concat(blocks[..|blocks| - 1]) + blocks[|blocks| - 1].entries
  }

  ghost predicate InBlocks(blocks: seq<Block>, e: Entry) {
    exists i :: 0 <= i < |blocks| && e in blocks[i].entries
  }

  lemma SortedConcat(front: seq<Entry>, last: seq<Entry>)
    requires Sorted(front) && Sorted(last)
    requires forall d, e :: d in front && e in last ==> Less(d.key, e.key)
    ensures Sorted(front + last)
  {
    hide Less;
  }

  /** The blocks one after the other form one sorted list. */
  lemma {:induction false} ConcatSorted(blocks: seq<Block>)
    requires BlocksOk(blocks)
    ensures Sorted(Concat(blocks))
    ensures forall e :: e in Concat(blocks) <==> InBlocks(blocks, e)
  {
    if blocks != [] {
      var n := |blocks| - 1;
      var front, last := Concat(blocks[..n]), blocks[n].entries;
      ConcatSorted(blocks[..n]);
      forall d, e | d in front && e in last
        ensures Less(d.key, e.key)
      {
        var i :| 0 <= i < n && d in blocks[..n][i].entries;
        assert !Less(blocks[i].separator, d.key) && Less(blocks[i].separator, e.key);
      }
      SortedConcat(front, last);
      forall e
        ensures InBlocks(blocks, e) <==> InBlocks(blocks[..n], e) || e in last
      {
        if InBlocks(blocks[..n], e) {
          var i :| 0 <= i < n && e in blocks[..n][i].entries;
          assert e in blocks[i].entries;
        }
        if InBlocks(blocks, e) {
          var i :| 0 <= i < |blocks| && e in blocks[i].entries;
          assert i < n ==> e in blocks[..n][i].entries;
        }
      }
    }
  }

  /** Which entries a move is looking for. */
  datatype Wanted = Every | FromKey(key: InternalKey) | AfterKey(key: InternalKey) | BeforeKey(key: InternalKey)

  predicate Wants(w: Wanted, k: InternalKey) {
    match w
    case Every => true
    case FromKey(t) => !Less(k, t)
    case AfterKey(t) => Less(t, k)
    case BeforeKey(t) => Less(k, t)
  }

  /** r is the first (last) wanted entry of the list. */
  ghost predicate IsFirst(list: seq<Entry>, w: Wanted, r: Option<Entry>) {
    && (r.Some? ==> r.value in list && Wants(w, r.value.key))
    && (forall e :: e in list && Wants(w, e.key) ==> r.Some? && !Less(e.key, r.value.key))
  }

  ghost predicate IsLast(list: seq<Entry>, w: Wanted, r: Option<Entry>) {
    && (r.Some? ==> r.value in list && Wants(w, r.value.key))
    && (forall e :: e in list && Wants(w, e.key) ==> r.Some? && !Less(r.value.key, e.key))
  }

  class TwoLevelIterator {
    const blocks: seq<Block>
    /** Position of the index iterator; |blocks| when it is not valid. */
    var index: nat
    var data: Option<Cursor>
    /** The handle of the block that `data` reads. */
    var dataBlock: nat

    ghost predicate Inv()
      reads this
    {
      && BlocksOk(blocks) && index <= |blocks|
      && (data.Some? ==> dataBlock < |blocks| && data.value.Ok() && data.value.list == blocks[dataBlock].entries)
      && (Valid() ==> index == dataBlock)
    }

    predicate Valid()
      reads this
    {
      data.Some? && data.value.at.Some?
    }

    function At(): Option<Entry>
      reads this
    {
      if data.Some? then data.value.at else None
    }

    constructor (blocks: seq<Block>)
      requires BlocksOk(blocks)
      ensures Inv() && !Valid() && this.blocks == blocks
    {
      this.blocks, index, data, dataBlock := blocks, |blocks|, None, 0;
    }

    /** Open the block the index stands on, unless it is open already. */
    method InitDataBlock()
      requires Inv0()
      modifies this`data, this`dataBlock
      ensures Inv0() && (index < |blocks| <==> data.Some?)
      ensures index < |blocks| ==> dataBlock == index
    {
      if index >= |blocks| {
        data := None;
      } else if data.Some? && dataBlock == index {
      } else {
        data, dataBlock := Some(Cursor(blocks[index].entries, None)), index;
      }
    }

    /** The invariant while index and data are out of step. */
    ghost predicate Inv0()
      reads this
    {
      && BlocksOk(blocks) && index <= |blocks|
      && (data.Some? ==> dataBlock < |blocks| && data.value.Ok() && data.value.list == blocks[dataBlock].entries)
    }

    /** Skip blocks without a wanted entry; terminates because the index advances. */
    method SkipEmptyDataBlocksForward(ghost w: Wanted)
      requires Inv0() && (index < |blocks| <==> data.Some?)
      requires index < |blocks| ==> dataBlock == index && IsFirst(blocks[index].entries, w, data.value.at)
      requires forall i, e :: 0 <= i < index && i < |blocks| && e in blocks[i].entries ==> !Wants(w, e.key)
      requires forall i, e :: index < i < |blocks| && e in blocks[i].entries ==> Wants(w, e.key)
      modifies this
      ensures Inv() && IsFirst(Concat(blocks), w, At())
    {
      ConcatSorted(blocks);
      while data.None? || data.value.at.None?
        invariant Inv0() && (index < |blocks| <==> data.Some?)
        invariant index < |blocks| ==> dataBlock == index && IsFirst(blocks[index].entries, w, data.value.at)
        invariant forall i, e :: 0 <= i < index && i < |blocks| && e in blocks[i].entries ==> !Wants(w, e.key)
        invariant forall i, e :: index < i < |blocks| && e in blocks[i].entries ==> Wants(w, e.key)
        decreases |blocks| - index
      {
        if index >= |blocks| {
          data := None;
          return;
        }
        index := index + 1;
        InitDataBlock();
        if data.Some? {
          data := Some(data.value.SeekToFirst());
        }
      }
      FirstOfBlocks(blocks, index, w, At());
    }

    method SkipEmptyDataBlocksBackward(ghost w: Wanted)
      requires Inv0() && (index < |blocks| <==> data.Some?)
      requires index < |blocks| ==> dataBlock == index && IsLast(blocks[index].entries, w, data.value.at)
      requires index < |blocks| ==> forall i, e :: index < i < |blocks| && e in blocks[i].entries ==> !Wants(w, e.key)
      requires index < |blocks| ==> forall i, e :: 0 <= i < index && e in blocks[i].entries ==> Wants(w, e.key)
      requires index == |blocks| ==> forall e :: InBlocks(blocks, e) ==> !Wants(w, e.key)
      modifies this
      ensures Inv() && IsLast(Concat(blocks), w, At())
    {
      ConcatSorted(blocks);
      while data.None? || data.value.at.None?
        invariant Inv0() && (index < |blocks| <==> data.Some?)
        invariant index < |blocks| ==> dataBlock == index && IsLast(blocks[index].entries, w, data.value.at)
        invariant index < |blocks| ==> forall i, e :: index < i < |blocks| && e in blocks[i].entries ==>
                    !Wants(w, e.key)
        invariant index < |blocks| ==> forall i, e :: 0 <= i < index && e in blocks[i].entries ==> Wants(w, e.key)
        invariant index == |blocks| ==> forall e :: InBlocks(blocks, e) ==> !Wants(w, e.key)
        decreases if index < |blocks| then index + 1 else 0
      {
        if index >= |blocks| {
          data := None;
          return;
        }
        index := if index == 0 then |blocks| else index - 1;
        InitDataBlock();
        if data.Some? {
          data := Some(data.value.SeekToLast());
        }
      }
      LastOfBlocks(blocks, index, w, At());
    }

    method Seek(t: InternalKey)
      requires Inv()
      modifies this
      ensures Inv() && IsFirst(Concat(blocks), FromKey(t), At())
    {
      index := IndexSeek(t);
      InitDataBlock();
      if data.Some? {
        data := Some(data.value.Seek(t));
      }
      SkipEmptyDataBlocksForward(FromKey(t));
    }

    /** The index iterator's own search: the first separator at or after t. */
    method IndexSeek(t: InternalKey) returns (i: nat)
      requires BlocksOk(blocks)
      ensures i <= |blocks|
      ensures forall j :: 0 <= j < i ==> Less(blocks[j].separator, t)
      ensures i < |blocks| ==> !Less(blocks[i].separator, t)
    {
      i := 0;
      while i < |blocks| && Less(blocks[i].separator, t)
        invariant 0 <= i <= |blocks|
        invariant forall j :: 0 <= j < i ==> Less(blocks[j].separator, t)
      {
        i := i + 1;
      }
    }

    method SeekToFirst()
      requires Inv()
      modifies this
      ensures Inv() && IsFirst(Concat(blocks), Every, At())
    {
      index := 0;
      InitDataBlock();
      if data.Some? {
        data := Some(data.value.SeekToFirst());
      }
      SkipEmptyDataBlocksForward(Every);
    }

    method SeekToLast()
      requires Inv()
      modifies this
      ensures Inv() && IsLast(Concat(blocks), Every, At())
    {
      index := if |blocks| == 0 then 0 else |blocks| - 1;
      InitDataBlock();
      if data.Some? {
        data := Some(data.value.SeekToLast());
      }
      SkipEmptyDataBlocksBackward(Every);
    }

    method Next()
      requires Inv() && Valid()
      modifies this
      ensures Inv() && IsFirst(Concat(blocks), AfterKey(old(At().value.key)), At())
    {
      ghost var k := At().value.key;
      data := Some(data.value.Next());
      SkipEmptyDataBlocksForward(AfterKey(k));
    }

    method Prev()
      requires Inv() && Valid()
      modifies this
      ensures Inv() && IsLast(Concat(blocks), BeforeKey(old(At().value.key)), At())
    {
      ghost var k := At().value.key;
      data := Some(data.value.Prev());
      SkipEmptyDataBlocksBackward(BeforeKey(k));
    }
  }

  lemma {:induction false} FirstOfBlocks(blocks: seq<Block>, index: nat, w: Wanted, r: Option<Entry>)
    requires BlocksOk(blocks) && index < |blocks| && r.Some? && IsFirst(blocks[index].entries, w, r)
    requires forall i, e :: 0 <= i < index && e in blocks[i].entries ==> !Wants(w, e.key)
    ensures IsFirst(Concat(blocks), w, r)
  {
    ConcatSorted(blocks);
    forall e | e in Concat(blocks) && Wants(w, e.key)
      ensures !Less(e.key, r.value.key)
    {
      var i :| 0 <= i < |blocks| && e in blocks[i].entries;
      if index < i {
        assert Less(blocks[index].separator, e.key) && !Less(blocks[index].separator, r.value.key);
      }
    }
  }

  lemma {:induction false} LastOfBlocks(blocks: seq<Block>, index: nat, w: Wanted, r: Option<Entry>)
    requires BlocksOk(blocks) && index < |blocks| && r.Some? && IsLast(blocks[index].entries, w, r)
    requires forall i, e :: index < i < |blocks| && e in blocks[i].entries ==> !Wants(w, e.key)
    ensures IsLast(Concat(blocks), w, r)
  {
    ConcatSorted(blocks);
    forall e | e in Concat(blocks) && Wants(w, e.key)
      ensures !Less(r.value.key, e.key)
    {
      var i :| 0 <= i < |blocks| && e in blocks[i].entries;
      if i < index {
        assert Less(blocks[i].separator, r.value.key) && !Less(blocks[i].separator, e.key);
      }
    }
  }
}
