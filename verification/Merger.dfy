/** Cursors over sorted entries, and the merging iterator that presents several of
    them as one, in both directions, while a writer adds entries underneath. */
module Merger {
  import opened InternalKeys
  import opened Options

  function At(list: seq<Entry>, i: int): Option<Entry> {
    if 0 <= i < |list| then Some(list[i]) else None
  }

  /** `r` is the first entry of `list` at or after `t`. */
  ghost predicate IsFirstFrom(list: seq<Entry>, t: InternalKey, r: Option<Entry>) {
    && (r.Some? ==> r.value in list && !Less(r.value.key, t))
    && (forall e :: e in list && !Less(e.key, t) ==> r.Some? && !Less(e.key, r.value.key))
  }

  /** `r` is the last entry of `list` before `t`. */
  ghost predicate IsLastBefore(list: seq<Entry>, t: InternalKey, r: Option<Entry>) {
    && (r.Some? ==> r.value in list && Less(r.value.key, t))
    && (forall e :: e in list && Less(e.key, t) ==> r.Some? && !Less(r.value.key, e.key))
  }

  /** `r` is the first entry of `list` after `t`. */
  ghost predicate IsFirstAfter(list: seq<Entry>, t: InternalKey, r: Option<Entry>) {
    && (r.Some? ==> r.value in list && Less(t, r.value.key))
    && (forall e :: e in list && Less(t, e.key) ==> r.Some? && !Less(e.key, r.value.key))
  }

  lemma SeekIndexOf(list: seq<Entry>, e: Entry)
    requires Sorted(list) && e in list
    ensures var i := SeekIndex(list, e.key); i < |list| && list[i] == e
  {
    var j :| 0 <= j < |list| && list[j] == e;
    var i := SeekIndex(list, e.key);
    assert i <= j;
  }

  /** A child iterator: a sorted list and the entry it stands on, if any.  The list may
      grow between calls, as a memtable does; the cursor then stays on its entry. */
  datatype Cursor = Cursor(list: seq<Entry>, at: Option<Entry>)
  {
    ghost predicate Ok() {
      Sorted(list) && (at.Some? ==> at.value in list)
    }

    function Seek(t: InternalKey): (r: Cursor)
      requires Ok()
      ensures r.list == list && r.Ok() && IsFirstFrom(list, t, r.at)
    {
      Cursor(list, At(list, SeekIndex(list, t)))
    }

    function SeekToFirst(): (r: Cursor)
      requires Ok()
      ensures r.list == list && r.Ok()
      ensures forall e :: e in list ==> r.at.Some? && !Less(e.key, r.at.value.key)
    {
      Cursor(list, At(list, 0))
    }

    function SeekToLast(): (r: Cursor)
      requires Ok()
      ensures r.list == list && r.Ok()
      ensures forall e :: e in list ==> r.at.Some? && !Less(r.at.value.key, e.key)
    {
      Cursor(list, At(list, |list| - 1))
    }

    function Next(): (r: Cursor)
      requires Ok() && at.Some?
      ensures r.list == list && r.Ok() && IsFirstAfter(list, at.value.key, r.at)
    {
      SeekIndexOf(list, at.value);
      Cursor(list, At(list, SeekIndex(list, at.value.key) + 1))
    }

    function Prev(): (r: Cursor)
      requires Ok() && at.Some?
      ensures r.list == list && r.Ok() && IsLastBefore(list, at.value.key, r.at)
    {
      SeekIndexOf(list, at.value);
      Cursor(list, At(list, SeekIndex(list, at.value.key) - 1))
    }

    /** How the merging iterator puts another child just after its own key... */
    function JustAfter(k: InternalKey): (r: Cursor)
      requires Ok()
      ensures r.list == list && r.Ok() && IsFirstAfter(list, k, r.at)
    {
      var c := Seek(k);
      if c.at.Some? && c.at.value.key == k then c.Next() else c
    }

    /** ...or just before it. */
    function JustBefore(k: InternalKey): (r: Cursor)
      requires Ok()
      ensures r.list == list && r.Ok() && IsLastBefore(list, k, r.at)
    {
      var c := Seek(k);
      if c.at.Some? then c.Prev() else c.SeekToLast()
    }
  }

  // ---------- Several cursors ----------

  datatype Direction = Forward | Reverse

  ghost predicate CursorsOk(cs: seq<Cursor>) {
    && (forall i :: 0 <= i < |cs| ==> cs[i].Ok())
    && (forall i, j, d, e :: 0 <= i < j < |cs| && d in cs[i].list && e in cs[j].list ==> d.key != e.key)
  }

  ghost predicate SameLists(cs: seq<Cursor>, ds: seq<Cursor>) {
    |cs| == |ds| && forall i :: 0 <= i < |cs| ==> cs[i].list == ds[i].list
  }

  /** All entries of all children. */
  ghost function Union(cs: seq<Cursor>): set<Entry> {
    set i, e | 0 <= i < |cs| && e in cs[i].list :: e
  }

  /** Entries above the bound may have been added while the iterator was in use; the
      iterator need not notice them. */
  predicate Late(e: Entry, bound: nat) { e.key.sequence > bound }

  /** Every cursor but number `skip` stands after k, with only late entries passed over. */
  ghost predicate Ahead(cs: seq<Cursor>, skip: int, k: InternalKey, bound: nat) {
    forall j :: 0 <= j < |cs| && j != skip ==>
      && (cs[j].at.Some? ==> Less(k, cs[j].at.value.key))
      && forall e :: e in cs[j].list && Less(k, e.key) && (cs[j].at.None? || Less(e.key, cs[j].at.value.key)) ==>
         Late(e, bound)
  }

  /** Every cursor but number `skip` stands before k, with only late entries passed over. */
  ghost predicate Behind(cs: seq<Cursor>, skip: int, k: InternalKey, bound: nat) {
    forall j :: 0 <= j < |cs| && j != skip ==>
      && (cs[j].at.Some? ==> Less(cs[j].at.value.key, k))
      && forall e :: e in cs[j].list && Less(e.key, k) && (cs[j].at.None? || Less(cs[j].at.value.key, e.key)) ==>
         Late(e, bound)
  }

  /** Number `i` is a cursor with the smallest key; -1 when no cursor is valid. */
  ghost predicate IsSmallest(cs: seq<Cursor>, i: int) {
    && -1 <= i < |cs|
    && (i >= 0 ==> cs[i].at.Some?)
    && (forall j :: 0 <= j < |cs| && cs[j].at.Some? ==> i >= 0 && !Less(cs[j].at.value.key, cs[i].at.value.key))
  }

  ghost predicate IsLargest(cs: seq<Cursor>, i: int) {
    && -1 <= i < |cs|
    && (i >= 0 ==> cs[i].at.Some?)
    && (forall j :: 0 <= j < |cs| && cs[j].at.Some? ==> i >= 0 && !Less(cs[i].at.value.key, cs[j].at.value.key))
  }

  lemma UnionOfSame(cs: seq<Cursor>, ds: seq<Cursor>)
    requires SameLists(cs, ds)
    ensures Union(cs) == Union(ds)
    ensures CursorsOk(cs) && (forall i :: 0 <= i < |ds| ==> ds[i].Ok()) ==> CursorsOk(ds)
  {
    forall e
      ensures e in Union(cs) <==> e in Union(ds)
    {
      if e in Union(cs) {
        var i :| 0 <= i < |cs| && e in cs[i].list;
        assert e in ds[i].list;
      }
      if e in Union(ds) {
        var i :| 0 <= i < |ds| && e in ds[i].list;
        assert e in cs[i].list;
      }
    }
  }

  /** Cursors that all stand ahead of k: the smallest of them is the next entry. */
  lemma SmallestIsNext(cs: seq<Cursor>, k: InternalKey, i: int, bound: nat)
    requires CursorsOk(cs) && Ahead(cs, -1, k, bound) && IsSmallest(cs, i)
    ensures i >= 0 ==>
              cs[i].at.value in Union(cs) && Less(k, cs[i].at.value.key) && Ahead(cs, i, cs[i].at.value.key, bound)
    ensures forall e :: e in Union(cs) && Less(k, e.key) && (i < 0 || Less(e.key, cs[i].at.value.key)) ==>
              Late(e, bound)
  {
    if i >= 0 {
      forall j | 0 <= j < |cs| && j != i && cs[j].at.Some?
        ensures Less(cs[i].at.value.key, cs[j].at.value.key)
      {
        DifferentKeys(cs, i, j);
      }
    }
  }

  lemma LargestIsPrev(cs: seq<Cursor>, k: InternalKey, i: int, bound: nat)
    requires CursorsOk(cs) && Behind(cs, -1, k, bound) && IsLargest(cs, i)
    ensures i >= 0 ==>
              cs[i].at.value in Union(cs) && Less(cs[i].at.value.key, k) && Behind(cs, i, cs[i].at.value.key, bound)
    ensures forall e :: e in Union(cs) && Less(e.key, k) && (i < 0 || Less(cs[i].at.value.key, e.key)) ==>
              Late(e, bound)
  {
    if i >= 0 {
      forall j | 0 <= j < |cs| && j != i && cs[j].at.Some?
        ensures Less(cs[j].at.value.key, cs[i].at.value.key)
      {
        DifferentKeys(cs, i, j);
      }
    }
  }

  lemma DifferentKeys(cs: seq<Cursor>, i: int, j: int)
    requires CursorsOk(cs) && 0 <= i < |cs| && 0 <= j < |cs| && i != j
    requires cs[i].at.Some? && cs[j].at.Some?
    ensures Less(cs[i].at.value.key, cs[j].at.value.key) || Less(cs[j].at.value.key, cs[i].at.value.key)
  {
    assert cs[i].at.value in cs[i].list && cs[j].at.value in cs[j].list;
  }

  // ---------- The merging iterator ----------

  class MergingIterator {
    const children: array<Cursor>
    var current: int
    var direction: Direction
    ghost const bound: nat

    ghost predicate Inv()
      reads this, children
    {
      && CursorsOk(children[..])
      && -1 <= current < children.Length
      && (current >= 0 ==>
            && children[current].at.Some?
            && (direction.Forward? ==> Ahead(children[..], current, Key(), bound))
            && (direction.Reverse? ==> Behind(children[..], current, Key(), bound)))
    }

    predicate Valid()
      reads this
    {
      current >= 0
    }

    function Cur(): Entry
      reads this, children
      requires 0 <= current < children.Length && children[current].at.Some?
    {
      children[current].at.value
    }

    function Key(): InternalKey
      reads this, children
      requires 0 <= current < children.Length && children[current].at.Some?
    {
      Cur().key
    }

    ghost function All(): set<Entry>
      reads this, children
    {
      Union(children[..])
    }

    constructor (cursors: seq<Cursor>, ghost bound: nat)
      requires CursorsOk(cursors)
      ensures Inv() && !Valid() && fresh(children)
      ensures All() == Union(cursors) && this.bound == bound
    {
      this.bound := bound;
      var a := new Cursor[|cursors|](i requires 0 <= i < |cursors| => cursors[i]);
      children := a;
      current, direction := -1, Forward;
      new;
      assert children[..] == cursors;
    }

    method FindSmallest()
      requires CursorsOk(children[..])
      modifies this
      ensures IsSmallest(children[..], current) && direction == old(direction)
    {
      var smallest := -1;
      var i := 0;
      while i < children.Length
        invariant 0 <= i <= children.Length && -1 <= smallest < i
        invariant smallest >= 0 ==> children[smallest].at.Some?
        invariant forall j :: 0 <= j < i && children[j].at.Some? ==>
                    smallest >= 0 && !Less(children[j].at.value.key, children[smallest].at.value.key)
      {
        if children[i].at.Some? {
          if smallest == -1 {
            smallest := i;
          } else if Less(children[i].at.value.key, children[smallest].at.value.key) {
            smallest := i;
          }
        }
        i := i + 1;
      }
      current := smallest;
    }

    method FindLargest()
      requires CursorsOk(children[..])
      modifies this
      ensures IsLargest(children[..], current) && direction == old(direction)
    {
      var largest := -1;
      var i := children.Length - 1;
      while i >= 0
        invariant -1 <= i < children.Length && (largest == -1 || i < largest < children.Length)
        invariant largest >= 0 ==> children[largest].at.Some?
        invariant forall j :: i < j < children.Length && children[j].at.Some? ==>
                    largest >= 0 && !Less(children[largest].at.value.key, children[j].at.value.key)
      {
        if children[i].at.Some? {
          if largest == -1 {
            largest := i;
          } else if Less(children[largest].at.value.key, children[i].at.value.key) {
            largest := i;
          }
        }
        i := i - 1;
      }
      current := largest;
    }

    /** Move the other children to just after the current key. */
    method TurnForward()
      requires Inv() && Valid()
      modifies children
      ensures children[..] == Turned(old(children[..]), current, old(Key()), true)
    {
      hide Less, CursorsOk, Ahead, Behind;
      ghost var was := children[..];
      assert forall j :: 0 <= j < |was| ==> was[j].Ok() by { OneOk(was); }
      var key := Key();
      var i := 0;
      while i < children.Length
        invariant 0 <= i <= children.Length
        invariant forall j :: i <= j < children.Length ==> children[j] == was[j]
        invariant forall j :: 0 <= j < i ==> children[j] == if j == current then was[j] else was[j].JustAfter(key)
      {
        if i != current {
          children[i] := children[i].JustAfter(key);
        }
        i := i + 1;
      }
    }

    /** Move the other children to just before the current key. */
    method TurnBackward()
      requires Inv() && Valid()
      modifies children
      ensures children[..] == Turned(old(children[..]), current, old(Key()), false)
    {
      hide Less, CursorsOk, Ahead, Behind;
      ghost var was := children[..];
      assert forall j :: 0 <= j < |was| ==> was[j].Ok() by { OneOk(was); }
      var key := Key();
      var i := 0;
      while i < children.Length
        invariant 0 <= i <= children.Length
        invariant forall j :: i <= j < children.Length ==> children[j] == was[j]
        invariant forall j :: 0 <= j < i ==> children[j] == if j == current then was[j] else was[j].JustBefore(key)
      {
        if i != current {
          children[i] := children[i].JustBefore(key);
        }
        i := i + 1;
      }
    }

    /** The first entry at or after t. */
    method Seek(t: InternalKey)
      requires Inv()
      modifies this, children
      ensures Inv() && All() == old(All()) && direction.Forward?
      ensures Valid() ==> Cur() in All() && !Less(Key(), t)
      ensures forall e :: e in All() && !Less(e.key, t) ==> Valid() && !Less(e.key, Key())
    {
      hide Less, CursorsOk, Ahead, Behind, Union, IsSmallest;
      ghost var was := children[..];
      OneOk(was);
      var i := 0;
      while i < children.Length
        invariant 0 <= i <= children.Length
        invariant forall j :: i <= j < children.Length ==> children[j] == was[j]
        invariant forall j :: 0 <= j < i ==> children[j] == was[j].Seek(t)
      {
        children[i] := children[i].Seek(t);
        i := i + 1;
      }
      SoughtFrom(was, children[..], t);
      FindSmallest();
      direction := Forward;
      SmallestFrom(children[..], t, current, bound);
    }

    method SeekToFirst()
      requires Inv()
      modifies this, children
      ensures Inv() && All() == old(All()) && direction.Forward?
      ensures Valid() ==> Cur() in All()
      ensures forall e :: e in All() ==> Valid() && !Less(e.key, Key())
    {
      hide Less, CursorsOk, Ahead, Behind, Union, IsSmallest;
      ghost var was := children[..];
      OneOk(was);
      var i := 0;
      while i < children.Length
        invariant 0 <= i <= children.Length
        invariant forall j :: i <= j < children.Length ==> children[j] == was[j]
        invariant forall j :: 0 <= j < i ==> children[j] == was[j].SeekToFirst()
      {
        children[i] := children[i].SeekToFirst();
        i := i + 1;
      }
      SoughtFirst(was, children[..]);
      FindSmallest();
      direction := Forward;
      SmallestOfAll(children[..], current, bound);
    }

    method SeekToLast()
      requires Inv()
      modifies this, children
      ensures Inv() && All() == old(All()) && direction.Reverse?
      ensures Valid() ==> Cur() in All()
      ensures forall e :: e in All() ==> Valid() && !Less(Key(), e.key)
    {
      hide Less, CursorsOk, Ahead, Behind, Union, IsLargest;
      ghost var was := children[..];
      OneOk(was);
      var i := 0;
      while i < children.Length
        invariant 0 <= i <= children.Length
        invariant forall j :: i <= j < children.Length ==> children[j] == was[j]
        invariant forall j :: 0 <= j < i ==> children[j] == was[j].SeekToLast()
      {
        children[i] := children[i].SeekToLast();
        i := i + 1;
      }
      SoughtLast(was, children[..]);
      FindLargest();
      direction := Reverse;
      LargestOfAll(children[..], current, bound);
    }

    /** A writer adds a late entry to the list under one child. */
    method InsertUnderneath(i: nat, e: Entry)
      requires Inv() && i < children.Length
      requires Late(e, bound) && forall d :: d in All() ==> d.key != e.key
      modifies children
      ensures Inv() && All() == old(All()) + {e}
      ensures Valid() ==> Cur() == old(Cur())
    {
      hide Ahead, Behind, CursorsOk, Union, InsertEntry;
      ghost var was := children[..];
      InsertKeeps(was, i, e, current, bound);
      children[i] := Inserted(children[i], e);
      assert children[..] == was[i := Inserted(was[i], e)];
    }

    /** The next entry of the union; at most late entries are passed over. */
    method Next()
      requires Inv() && Valid()
      modifies this, children
      ensures Inv() && All() == old(All())
      ensures Valid() ==> Cur() in All() && Less(old(Key()), Key())
      ensures forall e :: e in All() && Less(old(Key()), e.key) && (Valid() ==> Less(e.key, Key())) ==> Late(e, bound)
    {
      hide Less, CursorsOk, Ahead, Behind, Union, IsSmallest, Turned;
      ghost var was, k := children[..], Key();
      if direction != Forward {
        TurnForward();
        direction := Forward;
        TurnedAhead(was, current, k, bound);
      }
      ghost var turned := children[..];
      OneOk(turned);
      children[current] := children[current].Next();
      StepAhead(turned, current, k, bound);
      assert children[..] == turned[current := turned[current].Next()];
      FindSmallest();
      SmallestIsNext(children[..], k, current, bound);
    }

    /** The entry before; at most late entries are passed over. */
    method Prev()
      requires Inv() && Valid()
      modifies this, children
      ensures Inv() && All() == old(All())
      ensures Valid() ==> Cur() in All() && Less(Key(), old(Key()))
      ensures forall e :: e in All() && Less(e.key, old(Key())) && (Valid() ==> Less(Key(), e.key)) ==> Late(e, bound)
    {
      hide Less, CursorsOk, Ahead, Behind, Union, IsLargest, Turned;
      ghost var was, k := children[..], Key();
      if direction != Reverse {
        TurnBackward();
        direction := Reverse;
        TurnedBehind(was, current, k, bound);
      }
      ghost var turned := children[..];
      OneOk(turned);
      children[current] := children[current].Prev();
      StepBehind(turned, current, k, bound);
      assert children[..] == turned[current := turned[current].Prev()];
      FindLargest();
      LargestIsPrev(children[..], k, current, bound);
    }
  }

  // ---------- Facts about the child cursors ----------

  lemma OneOk(cs: seq<Cursor>)
    requires CursorsOk(cs)
    ensures forall j :: 0 <= j < |cs| ==> cs[j].Ok()
  {
  }

  /** The children after a change of direction. */
  ghost function Turned(cs: seq<Cursor>, current: int, k: InternalKey, forward: bool): seq<Cursor>
    requires forall j :: 0 <= j < |cs| ==> cs[j].Ok()
  {
    seq(|cs|, j requires 0 <= j < |cs| =>
      if j == current then cs[j] else if forward then cs[j].JustAfter(k) else cs[j].JustBefore(k))
  }

  lemma TurnedAhead(cs: seq<Cursor>, current: int, k: InternalKey, bound: nat)
    requires CursorsOk(cs)
    ensures var ds := Turned(cs, current, k, true);
            CursorsOk(ds) && Union(ds) == Union(cs) && Ahead(ds, current, k, bound)
            && (0 <= current < |cs| ==> ds[current] == cs[current])
  {
    UnionOfSame(cs, Turned(cs, current, k, true));
  }

  lemma TurnedBehind(cs: seq<Cursor>, current: int, k: InternalKey, bound: nat)
    requires CursorsOk(cs)
    ensures var ds := Turned(cs, current, k, false);
            CursorsOk(ds) && Union(ds) == Union(cs) && Behind(ds, current, k, bound)
            && (0 <= current < |cs| ==> ds[current] == cs[current])
  {
    UnionOfSame(cs, Turned(cs, current, k, false));
  }

  lemma StepAhead(cs: seq<Cursor>, i: nat, k: InternalKey, bound: nat)
    requires CursorsOk(cs) && i < |cs| && cs[i].at.Some? && cs[i].at.value.key == k
    requires Ahead(cs, i, k, bound)
    ensures var ds := cs[i := cs[i].Next()];
            CursorsOk(ds) && Union(ds) == Union(cs) && Ahead(ds, -1, k, bound)
  {
    hide Union, Sorted;
    UnionOfSame(cs, cs[i := cs[i].Next()]);
  }

  lemma StepBehind(cs: seq<Cursor>, i: nat, k: InternalKey, bound: nat)
    requires CursorsOk(cs) && i < |cs| && cs[i].at.Some? && cs[i].at.value.key == k
    requires Behind(cs, i, k, bound)
    ensures var ds := cs[i := cs[i].Prev()];
            CursorsOk(ds) && Union(ds) == Union(cs) && Behind(ds, -1, k, bound)
  {
    hide Union, Sorted;
    UnionOfSame(cs, cs[i := cs[i].Prev()]);
  }

  /** Every cursor stands on its first entry at or after t. */
  ghost predicate From(cs: seq<Cursor>, t: InternalKey) {
    forall j :: 0 <= j < |cs| ==> IsFirstFrom(cs[j].list, t, cs[j].at)
  }

  lemma SoughtFrom(cs: seq<Cursor>, ds: seq<Cursor>, t: InternalKey)
    requires CursorsOk(cs) && |ds| == |cs|
    requires forall j :: 0 <= j < |cs| ==> cs[j].Ok() && ds[j] == cs[j].Seek(t)
    ensures CursorsOk(ds) && Union(ds) == Union(cs) && From(ds, t)
  {
    UnionOfSame(cs, ds);
  }

  lemma SmallestFrom(cs: seq<Cursor>, t: InternalKey, i: int, bound: nat)
    requires CursorsOk(cs) && From(cs, t) && IsSmallest(cs, i)
    ensures i >= 0 ==>
              cs[i].at.value in Union(cs) && !Less(cs[i].at.value.key, t) && Ahead(cs, i, cs[i].at.value.key, bound)
    ensures forall e :: e in Union(cs) && !Less(e.key, t) ==> i >= 0 && !Less(e.key, cs[i].at.value.key)
  {
    if i >= 0 {
      forall j | 0 <= j < |cs| && j != i && cs[j].at.Some?
        ensures Less(cs[i].at.value.key, cs[j].at.value.key)
      {
        DifferentKeys(cs, i, j);
      }
    }
  }

  /** Every cursor stands on its first entry. */
  ghost predicate AtFirst(cs: seq<Cursor>) {
    forall j, e :: 0 <= j < |cs| && e in cs[j].list ==> cs[j].at.Some? && !Less(e.key, cs[j].at.value.key)
  }

  ghost predicate AtLast(cs: seq<Cursor>) {
    forall j, e :: 0 <= j < |cs| && e in cs[j].list ==> cs[j].at.Some? && !Less(cs[j].at.value.key, e.key)
  }

  lemma SoughtFirst(cs: seq<Cursor>, ds: seq<Cursor>)
    requires CursorsOk(cs) && |ds| == |cs|
    requires forall j :: 0 <= j < |cs| ==> cs[j].Ok() && ds[j] == cs[j].SeekToFirst()
    ensures CursorsOk(ds) && Union(ds) == Union(cs) && AtFirst(ds)
  {
    UnionOfSame(cs, ds);
  }

  lemma SoughtLast(cs: seq<Cursor>, ds: seq<Cursor>)
    requires CursorsOk(cs) && |ds| == |cs|
    requires forall j :: 0 <= j < |cs| ==> cs[j].Ok() && ds[j] == cs[j].SeekToLast()
    ensures CursorsOk(ds) && Union(ds) == Union(cs) && AtLast(ds)
  {
    UnionOfSame(cs, ds);
  }

  lemma SmallestOfAll(cs: seq<Cursor>, i: int, bound: nat)
    requires CursorsOk(cs) && AtFirst(cs) && IsSmallest(cs, i)
    ensures i >= 0 ==> cs[i].at.value in Union(cs) && Ahead(cs, i, cs[i].at.value.key, bound)
    ensures forall e :: e in Union(cs) ==> i >= 0 && !Less(e.key, cs[i].at.value.key)
  {
    if i >= 0 {
      forall j | 0 <= j < |cs| && j != i && cs[j].at.Some?
        ensures Less(cs[i].at.value.key, cs[j].at.value.key)
      {
        DifferentKeys(cs, i, j);
      }
    }
  }

  lemma LargestOfAll(cs: seq<Cursor>, i: int, bound: nat)
    requires CursorsOk(cs) && AtLast(cs) && IsLargest(cs, i)
    ensures i >= 0 ==> cs[i].at.value in Union(cs) && Behind(cs, i, cs[i].at.value.key, bound)
    ensures forall e :: e in Union(cs) ==> i >= 0 && !Less(cs[i].at.value.key, e.key)
  {
    if i >= 0 {
      forall j | 0 <= j < |cs| && j != i && cs[j].at.Some?
        ensures Less(cs[j].at.value.key, cs[i].at.value.key)
      {
        DifferentKeys(cs, i, j);
      }
    }
  }

  function Inserted(c: Cursor, e: Entry): Cursor
    requires Sorted(c.list)
  {
    Cursor(InsertEntry(c.list, e), c.at)
  }

  lemma InsertKeeps(cs: seq<Cursor>, i: nat, e: Entry, current: int, bound: nat)
    requires CursorsOk(cs) && i < |cs| && -1 <= current < |cs|
    requires Late(e, bound) && forall d :: d in Union(cs) ==> d.key != e.key
    ensures cs[i].Ok()
    ensures var ds := cs[i := Inserted(cs[i], e)];
            && CursorsOk(ds) && Union(ds) == Union(cs) + {e}
            && (current >= 0 ==> ds[current].at == cs[current].at)
            && forall k :: (Ahead(cs, current, k, bound) ==> Ahead(ds, current, k, bound))
                        && (Behind(cs, current, k, bound) ==> Behind(ds, current, k, bound))
  {
    hide Ahead, Behind, Less, InsertEntry, Sorted;
    forall d | d in cs[i].list
      ensures d.key != e.key
    {
      assert d in Union(cs);
    }
    InsertEntryKeepsOrder(cs[i].list, e);
    InsertedUnion(cs, i, e);
    InsertedDistinct(cs, i, e);
    forall k
      ensures Ahead(cs, current, k, bound) ==> Ahead(cs[i := Inserted(cs[i], e)], current, k, bound)
      ensures Behind(cs, current, k, bound) ==> Behind(cs[i := Inserted(cs[i], e)], current, k, bound)
    {
      InsertedAround(cs, i, e, current, k, bound);
    }
  }

  lemma InsertedDistinct(cs: seq<Cursor>, i: nat, e: Entry)
    requires CursorsOk(cs) && i < |cs| && forall d :: d in Union(cs) ==> d.key != e.key
    requires forall d :: d in Inserted(cs[i], e).list <==> d in cs[i].list || d == e
    requires Sorted(Inserted(cs[i], e).list)
    ensures CursorsOk(cs[i := Inserted(cs[i], e)])
  {
    hide Sorted, InsertEntry;
    var ds := cs[i := Inserted(cs[i], e)];
    forall a, b, d, f | 0 <= a < b < |ds| && d in ds[a].list && f in ds[b].list
      ensures d.key != f.key
    {
      assert d in Union(cs) || (d == e && a == i);
      assert f in Union(cs) || (f == e && b == i);
    }
  }

  lemma InsertedAround(cs: seq<Cursor>, i: nat, e: Entry, current: int, k: InternalKey, bound: nat)
    requires i < |cs| && Sorted(cs[i].list) && Late(e, bound)
    requires forall d :: d in Inserted(cs[i], e).list <==> d in cs[i].list || d == e
    ensures Ahead(cs, current, k, bound) ==> Ahead(cs[i := Inserted(cs[i], e)], current, k, bound)
    ensures Behind(cs, current, k, bound) ==> Behind(cs[i := Inserted(cs[i], e)], current, k, bound)
  {
    hide Sorted, InsertEntry, Less;
  }

  lemma InsertedUnion(cs: seq<Cursor>, i: nat, e: Entry)
    requires i < |cs| && Sorted(cs[i].list)
    requires forall d :: d in Inserted(cs[i], e).list <==> d in cs[i].list || d == e
    ensures Union(cs[i := Inserted(cs[i], e)]) == Union(cs) + {e}
  {
    var ds := cs[i := Inserted(cs[i], e)];
    forall d
      ensures d in Union(ds) <==> d in Union(cs) || d == e
    {
      if d in Union(cs) {
        var j :| 0 <= j < |cs| && d in cs[j].list;
        assert d in ds[j].list;
      }
      if d in Union(ds) {
        var j :| 0 <= j < |ds| && d in ds[j].list;
        assert j != i ==> d in cs[j].list;
      }
      assert e in ds[i].list;
    }
  }
}
