/** One shard of the block cache: two circular lists through the entries, a hash table over
    them, reference counts, and deletion at the last release. */
module LruCaches {
  import opened HandleTables

  // ---------- Circular lists ----------

  /** Number i around the circle; -1 and |list| are both the head. */
  ghost function Around(head: Handle, list: seq<Handle>, i: int): Handle {
    if 0 <= i < |list| then list[i] else head
  }

  /** `next` and `prev` lead around head and list, and back. */
  ghost predicate Circle(head: Handle, list: seq<Handle>)
    reads head`next, head`prev, list`next, list`prev
  {
    && head !in list && NoTwins(list)
    && forall i, j :: -1 <= i && j == i + 1 <= |list| ==>
         Around(head, list, i).next == Around(head, list, j) && Around(head, list, j).prev == Around(head, list, i)
  }

  ghost function Charges(list: seq<Handle>): nat {
    if list == [] then 0 else Charges(list[..|list| - 1]) + list[|list| - 1].charge
  }

  lemma {:induction false} ChargesWithout(list: seq<Handle>, k: nat)
    requires k < |list|
    ensures Charges(Without(list, k)) + list[k].charge == Charges(list)
  {
    var n := |list| - 1;
    if k == n {
      assert Without(list, k) == list[..n];
    } else {
      ChargesWithout(list[..n], k);
      assert Without(list, k)[..n - 1] == Without(list[..n], k);
      assert Without(list, k)[n - 1] == list[n];
    }
  }

  lemma ChargesAppend(list: seq<Handle>, e: Handle)
    ensures Charges(list + [e]) == Charges(list) + e.charge
  {
    assert (list + [e])[..|list|] == list;
  }

  /** LRU_Remove: close the circle around e. */
  method ListRemove(e: Handle, ghost head: Handle, ghost list: seq<Handle>, ghost k: nat)
    requires Circle(head, list) && k < |list| && list[k] == e
    modifies Around(head, list, k - 1)`next, Around(head, list, k + 1)`prev
    ensures Circle(head, Without(list, k))
  {
    ghost var before, after := Around(head, list, k - 1), Around(head, list, k + 1);
    assert e == Around(head, list, k) && e.next == after && e.prev == before;
    e.next.prev := e.prev;
    e.prev.next := e.next;
    MembersWithout(list, k);
    ghost var rest := Without(list, k);
    forall i, j | -1 <= i && j == i + 1 <= |rest|
      ensures Around(head, rest, i).next == Around(head, rest, j) && Around(head, rest, j).prev == Around(head, rest, i)
    {
      RestAround(head, list, k, i);
      RestAround(head, list, k, j);
    }
  }

  lemma RestAround(head: Handle, list: seq<Handle>, k: nat, i: int)
    requires k < |list| && -1 <= i <= |list| - 1
    ensures Around(head, Without(list, k), i) == Around(head, list, if i < k then i else i + 1)
  {
  }

  /** LRU_Append: make e the newest entry, just before the head. */
  method ListAppend(head: Handle, e: Handle, ghost list: seq<Handle>)
    requires Circle(head, list) && e !in list && e != head
    modifies e`next, e`prev, Around(head, list, |list| - 1)`next, head`prev
    ensures Circle(head, list + [e])
  {
    ghost var last := Around(head, list, |list| - 1);
    assert Around(head, list, |list|) == head;
    assert head.prev == last;
    e.next := head;
    e.prev := head.prev;
    e.prev.next := e;
    e.next.prev := e;
    ghost var longer := list + [e];
    forall i, j | -1 <= i && j == i + 1 <= |longer|
      ensures Around(head, longer, i).next == Around(head, longer, j)
              && Around(head, longer, j).prev == Around(head, longer, i)
    {
      assert i < |list| ==> Around(head, longer, i) == Around(head, list, i);
      assert 0 <= j < |list| ==> Around(head, longer, j) == Around(head, list, j);
    }
  }

  /** Take e out of one circle and make it the newest entry of another. */
  method ListMove(e: Handle, ghost from: Handle, ghost list: seq<Handle>, ghost k: nat, to: Handle,
                  ghost other: seq<Handle>)
    requires Circle(from, list) && k < |list| && list[k] == e && Circle(to, other)
    requires from != to && to !in list && from !in other && forall h :: h in other ==> h !in list
    modifies e`next, e`prev, from`next, from`prev, list`next, list`prev, to`next, to`prev, other`next, other`prev
    ensures Circle(from, Without(list, k)) && Circle(to, other + [e])
  {
    hide Circle;
    CircleParts(from, list);
    AroundMember(from, list, k - 1);
    AroundMember(from, list, k + 1);
    AroundMember(to, other, |other| - 1);
    BusyWithout(list, k);
    ListRemove(e, from, list, k);
    ListAppend(to, e, other);
  }

  // ---------- The cache ----------

  ghost predicate Listed(idle: seq<Handle>, busy: seq<Handle>, h: Handle) {
    h in idle || h in busy
  }

  /** The two lists are circles of their own. */
  ghost predicate ListsOk(lru: Handle, inUse: Handle, idle: seq<Handle>, busy: seq<Handle>)
    reads lru`next, lru`prev, inUse`next, inUse`prev, idle`next, idle`prev, busy`next, busy`prev
  {
    && Circle(lru, idle) && Circle(inUse, busy)
    && lru != inUse && lru !in busy && inUse !in idle && forall h :: h in idle ==> h !in busy
  }

  /** An entry counts its outside handles, plus one for the cache; `extra` more during a release. */
  ghost predicate CountOk(outside: map<Handle, nat>, idle: seq<Handle>, busy: seq<Handle>, h: Handle, extra: nat)
    reads h`refs, h`inCache
  {
    && h in outside && h.refs == outside[h] + (if h.inCache then 1 else 0) + extra
    && (h.inCache <==> Listed(idle, busy, h))
  }

  /** The given entries count correctly. */
  ghost predicate CountsOk(outside: map<Handle, nat>, idle: seq<Handle>, busy: seq<Handle>, some: set<Handle>)
    reads some`refs, some`inCache
  {
    forall h :: h in some ==> CountOk(outside, idle, busy, h, 0)
  }

  lemma CountsElsewhere(outside: map<Handle, nat>, idle: seq<Handle>, busy: seq<Handle>,
                        outside': map<Handle, nat>, idle': seq<Handle>, busy': seq<Handle>, some: set<Handle>)
    requires CountsOk(outside, idle, busy, some)
    requires forall h :: h in some && h in outside ==> h in outside' && outside'[h] == outside[h]
    requires forall h :: h in some ==> (Listed(idle', busy', h) <==> Listed(idle, busy, h))
    ensures CountsOk(outside', idle', busy', some)
  {
    forall h | h in some
      ensures CountOk(outside', idle', busy', h, 0)
    {
      assert CountOk(outside, idle, busy, h, 0);
    }
  }

  lemma CountsSplit(outside: map<Handle, nat>, idle: seq<Handle>, busy: seq<Handle>, some: set<Handle>, e: Handle)
    ensures CountsOk(outside, idle, busy, some) <==>
            CountsOk(outside, idle, busy, some - {e}) && (e in some ==> CountOk(outside, idle, busy, e, 0))
  {
  }

  /** Entries nobody outside holds are in the one list, entries in use in the other; what is
      neither held nor cached is gone. */
  ghost predicate SortedOut(outside: map<Handle, nat>, idle: seq<Handle>, busy: seq<Handle>) {
    && (forall h :: h in idle ==> h in outside && outside[h] == 0)
    && (forall h :: h in busy ==> h in outside && outside[h] > 0)
    && (forall h :: h in outside ==> outside[h] > 0 || h in idle)
  }

  /** A list without the given entry. */
  ghost function LessOf(list: seq<Handle>, e: Handle?): seq<Handle> {
    if e in list then var k: nat :| k < |list| && list[k] == e; Without(list, k) else list
  }

  lemma LessMembers(list: seq<Handle>, e: Handle)
    requires NoTwins(list)
    ensures forall k: nat :: k < |list| && list[k] == e ==> LessOf(list, e) == Without(list, k)
    ensures Entries(LessOf(list, e)) == Entries(list) - {e} && NoTwins(LessOf(list, e))
  {
    hide NoTwins, Without;
    DistinctIn(list);
    if e in list {
      var k: nat :| k < |list| && list[k] == e && LessOf(list, e) == Without(list, k);
      MembersWithout(list, k);
      assert forall j: nat :: j < |list| && list[j] == e ==> j == k;
      assert Entries(Without(list, k)) == Entries(list) - {e};
    } else {
      assert Entries(list) == Entries(list) - {e};
    }
  }

  lemma RemovedParts(idle: seq<Handle>, busy: seq<Handle>, list: seq<Handle>, k: nat, wasIdle: bool)
    requires NoTwins(idle) && NoTwins(busy) && (forall h :: h in idle ==> h !in busy)
    requires list == (if wasIdle then idle else busy) && k < |list| && (wasIdle <==> list[k] in idle)
    ensures LessOf(list, list[k]) == Without(list, k) && Charges(Without(list, k)) + list[k].charge == Charges(list)
    ensures wasIdle ==> LessOf(busy, list[k]) == busy
    ensures !wasIdle ==> LessOf(idle, list[k]) == idle
    ensures forall h :: h in Without(list, k) ==> h in list
  {
    hide Charges, NoTwins;
    LessMembers(list, list[k]);
    MembersWithout(list, k);
    ChargesWithout(list, k);
  }

  /** An entry that nobody holds ceases to exist when it leaves the cache. */
  ghost function Unheld(outside: map<Handle, nat>, e: Handle?): map<Handle, nat> {
    if e in outside && outside[e] == 0 then outside - {e} else outside
  }

  /** What taking another reference to e does to the lists. */
  lemma RefParts(outside: map<Handle, nat>, idle: seq<Handle>, busy: seq<Handle>, e: Handle)
    requires SortedOut(outside, idle, busy) && e in outside && NoTwins(idle)
    ensures Listed(idle, busy, e) && outside[e] == 0 <==> e in idle
    ensures forall h :: h in idle || h in busy ==> h in outside
    ensures forall h :: Listed(LessOf(idle, e), busy + [e], h) <==> Listed(idle, busy, h) || h == e
    ensures var outside' := outside[e := outside[e] + 1];
      if e in idle
      then SortedOut(outside', LessOf(idle, e), busy + [e]) &&
           Entries(LessOf(idle, e)) + Entries(busy + [e]) == Entries(idle) + Entries(busy)
      else SortedOut(outside', idle, busy)
  {
    LessMembers(idle, e);
    assert forall h :: h in LessOf(idle, e) <==> h in Entries(LessOf(idle, e));
    assert forall h :: h in idle <==> h in Entries(idle);
  }

  /** A new entry, alone or at the end of the list of those in use. */
  lemma NewParts(lru: Handle, inUse: Handle, outside: map<Handle, nat>, idle: seq<Handle>, busy: seq<Handle>,
                 deletions: seq<Handle>, e: Handle)
    requires SortedOut(outside, idle, busy) && Deleted(deletions, outside) && Unlisted(lru, inUse, outside, deletions)
    requires e !in outside && e !in deletions && e != lru && e != inUse
    ensures e !in idle && e !in busy && !Listed(idle, busy, e)
    ensures forall h :: h in idle || h in busy ==> h in outside
    ensures var outside' := outside[e := 1];
      && SortedOut(outside', idle, busy) && SortedOut(outside', idle, busy + [e])
      && Deleted(deletions, outside') && Unlisted(lru, inUse, outside', deletions)
    ensures forall h :: Listed(idle, busy + [e], h) <==> Listed(idle, busy, h) || h == e
    ensures Entries(idle) + Entries(busy) == Entries(idle) + Entries(busy + [e]) - {e}
    ensures e !in Entries(idle) + Entries(busy)
  {
  }

  lemma NodesKnown(outside: map<Handle, nat>, idle: seq<Handle>, busy: seq<Handle>)
    requires SortedOut(outside, idle, busy)
    ensures Entries(idle) + Entries(busy) <= outside.Keys
    ensures forall h :: h in Entries(idle) + Entries(busy) ==> Listed(idle, busy, h)
  {
  }

  lemma Displacing(nodes: set<Handle>, nodes': set<Handle>, idle: seq<Handle>, busy: seq<Handle>, e: Handle,
                   displaced: Handle?)
    requires nodes == Entries(idle) + Entries(busy) - {e} && Listed(idle, busy, e)
    requires displaced != null ==> displaced in nodes && nodes' == nodes - {displaced} + {e}
    requires displaced == null ==> nodes' == nodes + {e}
    ensures nodes' == Entries(idle) + Entries(busy) - Gone(displaced)
    ensures displaced != null ==> Listed(idle, busy, displaced)
  {
  }

  /** What giving back a handle of e does to the lists. */
  lemma ReleaseParts(lru: Handle, inUse: Handle, outside: map<Handle, nat>, idle: seq<Handle>, busy: seq<Handle>,
                     deletions: seq<Handle>, e: Handle)
    requires SortedOut(outside, idle, busy) && e in outside && outside[e] > 0 && NoTwins(busy)
    requires Deleted(deletions, outside) && Unlisted(lru, inUse, outside, deletions)
    ensures e !in idle && forall h :: h in idle || h in busy ==> h in outside
    ensures lru !in outside && inUse !in outside && deletions + [] == deletions
    ensures outside[e] == 1 && e !in busy ==>
      var outside' := outside - {e};
      && outside' == outside[e := 0] - {e} && SortedOut(outside', idle, busy)
      && Deleted(deletions + [e], outside') && Unlisted(lru, inUse, outside', deletions + [e])
    ensures outside[e] > 1 || e in busy ==>
      var outside' := outside[e := outside[e] - 1];
      && Deleted(deletions, outside') && Unlisted(lru, inUse, outside', deletions)
      && (outside[e] > 1 ==> SortedOut(outside', idle, busy))
    ensures outside[e] == 1 && e in busy ==>
      && SortedOut(outside[e := 0], idle + [e], LessOf(busy, e))
      && Entries(idle + [e]) + Entries(LessOf(busy, e)) == Entries(idle) + Entries(busy)
  {
    LessMembers(busy, e);
    assert forall h :: h in LessOf(busy, e) <==> h in Entries(LessOf(busy, e));
    assert forall h :: h in busy <==> h in Entries(busy);
  }

  lemma KnownEntries(outside: map<Handle, nat>, idle: seq<Handle>, busy: seq<Handle>)
    requires SortedOut(outside, idle, busy)
    ensures forall h :: h in idle || h in busy ==> h in outside
    ensures forall h :: Listed(idle, busy, h) ==> h in outside
  {
  }

  lemma AfterErase(outside: map<Handle, nat>, idle: seq<Handle>, busy: seq<Handle>, idle': seq<Handle>,
                   busy': seq<Handle>, e: Handle)
    requires SortedOut(outside, idle, busy) && Listed(idle, busy, e)
    requires idle' == LessOf(idle, e) && busy' == LessOf(busy, e) && NoTwins(idle) && NoTwins(busy)
    ensures forall h :: h in idle' || h in busy' ==> h in outside && h != e
    ensures forall h :: Listed(idle', busy', h) <==> Listed(idle, busy, h) && h != e
    ensures Entries(idle') + Entries(busy') == Entries(idle) + Entries(busy) - {e}
    ensures SortedOut(Unheld(outside, e), idle', busy')
  {
    LessMembers(idle, e);
    LessMembers(busy, e);
    assert forall h :: h in idle' <==> h in Entries(idle');
    assert forall h :: h in idle <==> h in Entries(idle);
    assert forall h :: h in busy' <==> h in Entries(busy');
    assert forall h :: h in busy <==> h in Entries(busy);
  }

  /** Deleted entries are gone for good, and were deleted once. */
  ghost predicate Deleted(deletions: seq<Handle>, outside: map<Handle, nat>) {
    NoTwins(deletions) && forall h :: h in deletions ==> h !in outside
  }

  /** The heads of the two lists are not entries. */
  ghost predicate Unlisted(lru: Handle, inUse: Handle, outside: map<Handle, nat>, deletions: seq<Handle>) {
    lru !in outside && inUse !in outside && lru !in deletions && inUse !in deletions
  }

  lemma AfterDeletion(deletions: seq<Handle>, outside: map<Handle, nat>, lru: Handle, inUse: Handle, e: Handle)
    requires Deleted(deletions, outside) && e in outside && Unlisted(lru, inUse, outside, deletions)
    ensures Deleted(deletions + [e], outside - {e}) && Unlisted(lru, inUse, outside - {e}, deletions + [e])
    ensures deletions + [] == deletions && lru !in outside && inUse !in outside
  {
  }

  lemma AfterMove(idle: seq<Handle>, busy: seq<Handle>, busy': seq<Handle>, e: Handle)
    requires e in busy && Entries(busy') == Entries(busy) - {e}
    ensures forall h :: Listed(idle + [e], busy', h) <==> Listed(idle, busy, h)
  {
    assert forall h :: h in busy' <==> h in Entries(busy');
    assert forall h :: h in busy <==> h in Entries(busy);
  }

  class LRUCache {
    const capacity: nat
    var usage: nat
    const lru: Handle
    const inUse: Handle
    const table: HandleTable
    /** Entries in the cache: unreferenced ones, oldest first, and referenced ones. */
    ghost var idle: seq<Handle>
    ghost var busy: seq<Handle>
    /** Entries that exist, with the number of handles that clients hold. */
    ghost var outside: map<Handle, nat>
    /** Entries whose deleter ran, in that order. */
    ghost var deletions: seq<Handle>

    /** The invariant; `gone` is an entry that has left the hash table but not yet the cache. */
    ghost predicate Consistent(gone: Handle?)
      reads this, lru, inUse, outside.Keys, table, table.list, table.nodes
    {
      && SortedOut(outside, idle, busy) && Deleted(deletions, outside) && Unlisted(lru, inUse, outside, deletions)
      && ListsOk(lru, inUse, idle, busy)
      && CountsOk(outside, idle, busy, outside.Keys)
      && usage == Charges(idle) + Charges(busy)
      && table.Valid() && table.nodes == Entries(idle) + Entries(busy) - Gone(gone)
    }

    ghost predicate Valid()
      reads this, lru, inUse, outside.Keys, table, table.list, table.nodes
    {
      Consistent(null)
    }

    constructor (capacity: nat, ghost hashOf: string -> nat)
      ensures Valid() && idle == busy == deletions == [] && outside == map[] && usage == 0
      ensures this.capacity == capacity && table.hashOf == hashOf
      ensures fresh(lru) && fresh(inUse) && fresh(table) && fresh(table.list)
    {
      var a := new Handle("", 0, 0, 0);
      var b := new Handle("", 0, 0, 0);
      a.next, a.prev, b.next, b.prev := a, a, b, b;
      var t := new HandleTable(hashOf);
      lru, inUse, table := a, b, t;
      this.capacity, usage := capacity, 0;
      idle, busy, outside, deletions := [], [], map[], [];
    }

    /** A referenced entry becomes the newest unreferenced one. */
    method MoveToIdle(e: Handle)
      requires ListsOk(lru, inUse, idle, busy) && e in busy && e != lru
      modifies e`next, e`prev, this`idle, this`busy, lru`next, lru`prev, inUse`next, inUse`prev,
               idle`next, idle`prev, busy`next, busy`prev
      ensures ListsOk(lru, inUse, idle, busy)
      ensures idle == old(idle) + [e] && busy == LessOf(old(busy), e)
      ensures Charges(idle) + Charges(busy) == old(Charges(idle) + Charges(busy))
    {
      hide Circle, Charges, LessOf;
      CircleParts(inUse, busy);
      ghost var k: nat :| k < |busy| && busy[k] == e;
      BusyWithout(busy, k);
      LessMembers(busy, e);
      ChargesWithout(busy, k);
      ChargesAppend(idle, e);
      ListMove(e, inUse, busy, k, lru, idle);
      busy := Without(busy, k);
      idle := idle + [e];
    }

    /** An unreferenced entry joins the referenced ones. */
    method MoveToBusy(e: Handle)
      requires ListsOk(lru, inUse, idle, busy) && e in idle && e != inUse
      modifies e`next, e`prev, this`idle, this`busy, lru`next, lru`prev, inUse`next, inUse`prev,
               idle`next, idle`prev, busy`next, busy`prev
      ensures ListsOk(lru, inUse, idle, busy)
      ensures busy == old(busy) + [e] && idle == LessOf(old(idle), e)
      ensures Charges(idle) + Charges(busy) == old(Charges(idle) + Charges(busy))
    {
      hide Circle, Charges, LessOf;
      CircleParts(lru, idle);
      ghost var k: nat :| k < |idle| && idle[k] == e;
      BusyWithout(idle, k);
      LessMembers(idle, e);
      ChargesWithout(idle, k);
      ChargesAppend(busy, e);
      ListMove(e, lru, idle, k, inUse, busy);
      idle := Without(idle, k);
      busy := busy + [e];
    }

    /** Take one more reference. */
    method Ref(e: Handle)
      requires ListsOk(lru, inUse, idle, busy) && lru !in outside && inUse !in outside
      requires CountsOk(outside, idle, busy, outside.Keys)
      requires e in outside && (e in idle <==> Listed(idle, busy, e) && outside[e] == 0)
      requires forall h :: Listed(LessOf(idle, e), busy + [e], h) <==> Listed(idle, busy, h) || h == e
      modifies e`refs, e`next, e`prev, this`idle, this`busy, this`outside,
               lru`next, lru`prev, inUse`next, inUse`prev, idle`next, idle`prev, busy`next, busy`prev
      ensures ListsOk(lru, inUse, idle, busy) && CountsOk(outside, idle, busy, outside.Keys)
      ensures outside == old(outside)[e := old(outside)[e] + 1]
      ensures Charges(idle) + Charges(busy) == old(Charges(idle) + Charges(busy))
      ensures if e in old(idle) then idle == LessOf(old(idle), e) && busy == old(busy) + [e]
              else idle == old(idle) && busy == old(busy)
    {
      hide Circle, Charges, CountsOk, LessOf, ListsOk;
      ghost var idle0, busy0, outside0 := idle, busy, outside;
      CountsSplit(outside, idle, busy, outside.Keys, e);
      if e.refs == 1 && e.inCache {
        MoveToBusy(e);
      }
      e.refs := e.refs + 1;
      outside := outside[e := outside[e] + 1];
      assert outside.Keys == outside0.Keys;
      CountsElsewhere(outside0, idle0, busy0, outside, idle, busy, outside.Keys - {e});
      CountsSplit(outside, idle, busy, outside.Keys, e);
    }

    /** A client gets a handle of an entry. */
    method Acquire(e: Handle)
      requires Valid() && e in outside
      modifies this`idle, this`busy, this`outside, lru, inUse, outside.Keys
      ensures Valid() && table.nodes == old(table.nodes)
      ensures outside == old(outside)[e := old(outside)[e] + 1]
      ensures if e in old(idle) then idle == LessOf(old(idle), e) && busy == old(busy) + [e]
              else idle == old(idle) && busy == old(busy)
    {
      hide Circle, Charges, CountsOk, ListsOk, SortedOut, LessOf, Entries, HandleTable.Valid, NoTwins;
      ListsParts(lru, inUse, idle, busy);
      RefParts(outside, idle, busy, e);
      Ref(e);
    }

    /** Drop one reference: delete the entry with the last one, and move it to the idle list
        when only the cache's is left. */
    method Unref(e: Handle)
      requires ListsOk(lru, inUse, idle, busy) && lru !in outside && inUse !in outside
      requires CountsOk(outside, idle, busy, outside.Keys - {e})
      requires e in outside && CountOk(outside, idle, busy, e, 1) && e !in idle
      modifies e`refs, e`next, e`prev, this`idle, this`busy, this`outside, this`deletions,
               lru`next, lru`prev, inUse`next, inUse`prev, idle`next, idle`prev, busy`next, busy`prev
      ensures ListsOk(lru, inUse, idle, busy) && CountsOk(outside, idle, busy, outside.Keys)
      ensures outside == if old(outside)[e] == 0 && !e.inCache then old(outside) - {e} else old(outside)
      ensures deletions == old(deletions) + if old(outside)[e] == 0 && !e.inCache then [e] else []
      ensures Charges(idle) + Charges(busy) == old(Charges(idle) + Charges(busy))
      ensures if old(outside)[e] == 0 && e.inCache
              then idle == old(idle) + [e] && busy == LessOf(old(busy), e)
              else idle == old(idle) && busy == old(busy)
    {
      hide Circle, Charges, CountsOk, LessOf;
      ghost var idle0, busy0, outside0 := idle, busy, outside;
      e.refs := e.refs - 1;
      if e.refs == 0 {
        deletions := deletions + [e];
        outside := outside - {e};
        assert outside.Keys == outside0.Keys - {e} && outside.Keys - {e} == outside.Keys;
      } else if e.inCache && e.refs == 1 {
        assert e in busy;
        CircleParts(inUse, busy);
        LessMembers(busy, e);
        MoveToIdle(e);
        AfterMove(idle0, busy0, busy, e);
      }
      CountsElsewhere(outside0, idle0, busy0, outside, idle, busy, outside0.Keys - {e});
      CountsSplit(outside, idle, busy, outside.Keys, e);
    }

    /** A client gives a handle back. */
    method Release(e: Handle)
      requires Valid() && e in outside && outside[e] > 0
      modifies this`idle, this`busy, this`outside, this`deletions, lru, inUse, outside.Keys
      ensures Valid() && table.nodes == old(table.nodes)
      ensures var last := old(outside)[e] == 1; var cached := Listed(old(idle), old(busy), e);
              && outside == (if last && !cached then old(outside) - {e} else old(outside)[e := old(outside)[e] - 1])
              && deletions == old(deletions) + (if last && !cached then [e] else [])
              && (if last && cached then idle == old(idle) + [e] && busy == LessOf(old(busy), e)
                  else idle == old(idle) && busy == old(busy))
    {
      hide Circle, Charges, CountsOk, ListsOk, SortedOut, LessOf, Entries, HandleTable.Valid, Deleted, Unlisted,
           NoTwins;
      ghost var idle0, busy0, outside0 := idle, busy, outside;
      CountsSplit(outside, idle, busy, outside.Keys, e);
      ListsParts(lru, inUse, idle, busy);
      ReleaseParts(lru, inUse, outside, idle, busy, deletions, e);
      outside := outside[e := outside[e] - 1];
      assert outside.Keys == outside0.Keys;
      CountsElsewhere(outside0, idle0, busy0, outside, idle, busy, outside.Keys - {e});
      Unref(e);
    }

    /** The state after e left the cache: it is deleted now if no client holds it. */
    ghost predicate Erased(idle0: seq<Handle>, busy0: seq<Handle>, outside0: map<Handle, nat>, deletions0: seq<Handle>,
                           e: Handle?)
      reads this
    {
      && idle == LessOf(idle0, e) && busy == LessOf(busy0, e)
      && outside == Unheld(outside0, e)
      && deletions == deletions0 + if e in outside0 && outside0[e] == 0 then [e] else []
    }

    /** Take an entry that left the hash table out of the cache. */
    method FinishErase(e: Handle?) returns (erased: bool)
      requires Consistent(e) && (e != null ==> Listed(idle, busy, e))
      modifies this`idle, this`busy, this`outside, this`deletions, this`usage, lru, inUse, outside.Keys
      ensures Valid() && erased == (e != null)
      ensures table.nodes == old(table.nodes)
      ensures Erased(old(idle), old(busy), old(outside), old(deletions), e)
    {
      if e != null {
        EraseEntry(e);
      }
      return e != null;
    }

    /** Unlink e from whichever list it is on. */
    method RemoveFromList(e: Handle)
      requires ListsOk(lru, inUse, idle, busy) && Listed(idle, busy, e)
      modifies this`idle, this`busy, lru`next, lru`prev, inUse`next, inUse`prev, idle`next, idle`prev, busy`next,
               busy`prev
      ensures ListsOk(lru, inUse, idle, busy)
      ensures idle == LessOf(old(idle), e) && busy == LessOf(old(busy), e)
      ensures NoTwins(old(idle)) && NoTwins(old(busy))
      ensures Charges(idle) + Charges(busy) + e.charge == old(Charges(idle) + Charges(busy))
    {
      hide Circle, Charges, LessOf, Entries, NoTwins;
      ListsParts(lru, inUse, idle, busy);
      ghost var wasIdle := e in idle;
      ghost var head, list := if wasIdle then lru else inUse, if wasIdle then idle else busy;
      ghost var k: nat :| k < |list| && list[k] == e;
      RemovedParts(idle, busy, list, k, wasIdle);
      AroundMember(head, list, k - 1);
      AroundMember(head, list, k + 1);
      ListRemove(e, head, list, k);
      if wasIdle {
        idle := Without(list, k);
      } else {
        busy := Without(list, k);
      }
    }

    method EraseEntry(e: Handle)
      requires Consistent(e) && Listed(idle, busy, e)
      modifies this`idle, this`busy, this`outside, this`deletions, this`usage, lru, inUse, outside.Keys
      ensures Valid()
      ensures table.nodes == old(table.nodes)
      ensures Erased(old(idle), old(busy), old(outside), old(deletions), e)
    {
      hide Circle, Charges, CountsOk, ListsOk, SortedOut, Listed, Entries, HandleTable.Valid, Deleted, Unlisted, LessOf;
      ghost var idle0, busy0 := idle, busy;
      CountsSplit(outside, idle, busy, outside.Keys, e);
      KnownEntries(outside, idle, busy);
      RemoveFromList(e);
      AfterErase(outside, idle0, busy0, idle, busy, e);
      assert CountOk(outside, idle0, busy0, e, 0);
      AfterDeletion(deletions, outside, lru, inUse, e);
      e.inCache := false;
      usage := usage - e.charge;
      CountsElsewhere(outside, idle0, busy0, outside, idle, busy, outside.Keys - {e});
      Unref(e);
      assert table.Valid() && table.nodes == Entries(idle) + Entries(busy);
    }

    /** Lookup: a cached entry gains a handle, and is no longer a candidate for eviction. */
    method Lookup(key: string, hash: nat) returns (r: Handle?)
      requires Valid() && hash == table.hashOf(key)
      modifies this`idle, this`busy, this`outside, lru, inUse, outside.Keys
      ensures Valid() && table.nodes == old(table.nodes)
      ensures r == null ==> (forall h :: h in table.nodes ==> h.key != key) &&
                            idle == old(idle) && busy == old(busy) && outside == old(outside)
      ensures r != null ==>
                r.key == key && Listed(old(idle), old(busy), r) && r in old(outside)
                  && outside == old(outside)[r := old(outside)[r] + 1]
      ensures r != null ==> if r in old(idle) then idle == LessOf(old(idle), r) && busy == old(busy) + [r]
                            else idle == old(idle) && busy == old(busy)
    {
      hide CountsOk, ListsOk, LessOf, HandleTable.Valid, Deleted, Unlisted, Charges;
      r := table.Lookup(key, hash);
      if r != null {
        Acquire(r);
      }
    }

    /** Erase: an entry with the key leaves the cache, and is deleted unless clients hold it. */
    method Erase(key: string, hash: nat) returns (ghost gone: Handle?)
      requires Valid() && hash == table.hashOf(key)
      modifies this`idle, this`busy, this`outside, this`deletions, this`usage, lru, inUse, outside.Keys, table,
               table.list
      ensures Valid() && table.list == old(table.list)
      ensures forall h :: h in table.nodes ==> h.key != key
      ensures gone != null ==> gone.key == key && Listed(old(idle), old(busy), gone)
      ensures gone == null ==> forall h :: h in old(table.nodes) ==> h.key != key
      ensures Erased(old(idle), old(busy), old(outside), old(deletions), gone)
    {
      hide CountsOk, ListsOk, LessOf, HandleTable.Valid, Deleted, Unlisted, Charges;
      KeysDiffer(table);
      var e := table.Remove(key, hash);
      gone := e;
      var _ := FinishErase(e);
    }

    /** Evict the entry that has been unreferenced longest. */
    method EvictOldest()
      requires Valid() && idle != []
      modifies this`idle, this`busy, this`outside, this`deletions, this`usage, lru, inUse, outside.Keys, table,
               table.list
      ensures Valid() && table.list == old(table.list)
      ensures var e := old(idle)[0];
              && idle == old(idle)[1..] && busy == old(busy) && e in old(outside)
              && outside == old(outside) - {e} && deletions == old(deletions) + [e]
    {
      hide CountsOk, ListsOk, LessOf, HandleTable.Valid, Deleted, Unlisted, Charges, Circle;
      OldestFirst(lru, inUse, idle, busy);
      KeysDiffer(table);
      var e := lru.next;
      assert e in idle;
      var r := table.Remove(e.key, e.hash);
      var _ := FinishErase(r);
    }

    /** Prune: evict every unreferenced entry, oldest first. */
    method Prune()
      requires Valid()
      modifies this`idle, this`busy, this`outside, this`deletions, this`usage, lru, inUse, outside.Keys, table,
               table.list
      ensures Valid() && table.list == old(table.list)
      ensures idle == [] && busy == old(busy)
      ensures deletions == old(deletions) + old(idle) && outside == old(outside) - Entries(old(idle))
    {
      hide *;
      ghost var n := 0;
      EvictedNone(idle, outside, deletions);
      var more := HasIdle();
      while more
        invariant Valid() && table.list == old(table.list) && outside.Keys <= old(outside).Keys
        invariant Evicted(old(idle), old(outside), old(deletions), n, idle, outside, deletions) && busy == old(busy)
        invariant more == (idle != [])
        decreases |idle|
      {
        EvictedNext(old(idle), old(outside), old(deletions), n, idle, outside, deletions);
        EvictOldest();
        n := n + 1;
        more := HasIdle();
      }
      EvictedAll(old(idle), old(outside), old(deletions), n, outside, deletions);
    }

    /** The test that ends the eviction loops: `lru.next != lru`. */
    method HasIdle() returns (b: bool)
      requires Valid()
      ensures b == (idle != [])
    {
      hide CountsOk, HandleTable.Valid, Deleted, Unlisted, Charges, ListsOk;
      if idle != [] {
        OldestFirst(lru, inUse, idle, busy);
      } else {
        NoneIdle(lru, inUse, busy);
      }
      return lru.next != lru;
    }

    /** The client's handle of a new entry, when the cache itself keeps none. */
    ghost predicate IsNew(e: Handle)
      reads this, e, table
    {
      && e !in outside && e !in deletions && e != lru && e != inUse
      && e.refs == 1 && !e.inCache && e.hash == table.hashOf(e.key)
    }

    /** With a capacity of 0 the entry belongs to its client alone. */
    method KeepOut(e: Handle)
      requires Valid() && IsNew(e)
      modifies e`next, this`outside
      ensures Valid() && outside == old(outside)[e := 1]
    {
      hide Circle, Charges, ListsOk, CountsOk, Entries, HandleTable.Valid;
      ghost var outside0 := outside;
      e.next := null;
      outside := outside[e := 1];
      NewParts(lru, inUse, outside0, idle, busy, deletions, e);
      CountsElsewhere(outside0, idle, busy, outside, idle, busy, outside0.Keys);
      assert outside.Keys - {e} == outside0.Keys;
      CountsSplit(outside, idle, busy, outside.Keys, e);
    }

    /** The new entry becomes the newest one in use, and displaces any other with its key. */
    method TakeIn(e: Handle) returns (displaced: Handle?)
      requires Valid() && IsNew(e)
      modifies e, this`idle, this`busy, this`outside, this`deletions, this`usage, lru, inUse, outside.Keys, table,
               table.list
      ensures Valid() && (table.list == old(table.list) || fresh(table.list))
      ensures displaced == null ==> forall h :: h in old(table.nodes) ==> h.key != e.key
      ensures displaced != null ==> displaced.key == e.key && Listed(old(idle), old(busy), displaced)
      ensures Erased(old(idle), old(busy) + [e], old(outside)[e := 1], old(deletions), displaced)
    {
      hide Circle, Charges, ListsOk, CountsOk, Entries, HandleTable.Valid, LessOf, SortedOut, Deleted, Unlisted;
      ghost var outside0, idle0, busy0 := outside, idle, busy;
      NewParts(lru, inUse, outside, idle, busy, deletions, e);
      ListsParts(lru, inUse, idle, busy);
      NodesKnown(outside, idle, busy);
      JoinInUse(e);
      assert outside.Keys - {e} == outside0.Keys;
      ghost var nodes0 := table.nodes;
      displaced := table.Insert(e);
      Displacing(nodes0, table.nodes, idle, busy, e, displaced);
      var _ := FinishErase(displaced);
    }

    method JoinInUse(e: Handle)
      requires Valid() && IsNew(e)
      modifies e`refs, e`inCache, e`next, e`prev, this`busy, this`outside, this`usage, lru, inUse, outside.Keys
      ensures Consistent(e) && busy == old(busy) + [e] && outside == old(outside)[e := 1] && Listed(idle, busy, e)
    {
      hide Circle, Charges, ListsOk, CountsOk, Entries, HandleTable.Valid, SortedOut, Deleted, Unlisted;
      ghost var outside0, busy0 := outside, busy;
      NewParts(lru, inUse, outside, idle, busy, deletions, e);
      ListsParts(lru, inUse, idle, busy);
      e.refs := e.refs + 1;
      e.inCache := true;
      AppendInUse(e);
      usage := usage + e.charge;
      outside := outside[e := 1];
      assert outside.Keys - {e} == outside0.Keys;
      CountsElsewhere(outside0, idle, busy0, outside, idle, busy, outside0.Keys);
      CountsSplit(outside, idle, busy, outside.Keys, e);
    }

    method AppendInUse(e: Handle)
      requires ListsOk(lru, inUse, idle, busy) && e !in idle && e !in busy && e != lru && e != inUse
      modifies e`next, e`prev, this`busy, inUse`next, inUse`prev, busy`next, busy`prev
      ensures ListsOk(lru, inUse, idle, busy) && busy == old(busy) + [e]
      ensures Charges(busy) == Charges(old(busy)) + e.charge
    {
      hide Circle, Charges;
      AroundMember(inUse, busy, |busy| - 1);
      CircleParts(inUse, busy);
      ChargesAppend(busy, e);
      ListAppend(inUse, e, busy);
      busy := busy + [e];
    }

    /** What Insert leaves behind: first the entry with the same key goes, then the n entries
        unreferenced longest, no more of them than the capacity demands. */
    ghost predicate Inserted(idle0: seq<Handle>, busy0: seq<Handle>, outside0: map<Handle, nat>,
                             deletions0: seq<Handle>,
                             e: Handle, displaced: Handle?, n: nat)
      reads this
    {
      var idle1, outside1 := LessOf(idle0, displaced), Unheld(outside0[e := 1], displaced);
      var deletions1 := deletions0 + if displaced in outside0 && outside0[displaced] == 0 then [displaced] else [];
      && Evicted(idle1, outside1, deletions1, n, idle, outside, deletions)
      && busy == LessOf(if capacity > 0 then busy0 + [e] else busy0, displaced)
      && (n > 0 ==> Charges(idle1[n - 1..]) + Charges(busy) > capacity)
    }

    /** The first half of Insert: the entry joins the cache, if there is one. */
    method Admit(e: Handle) returns (displaced: Handle?)
      requires Valid() && IsNew(e)
      modifies e, this`idle, this`busy, this`outside, this`deletions, this`usage, lru, inUse, outside.Keys, table,
               table.list
      ensures Valid() && (table.list == old(table.list) || fresh(table.list))
      ensures displaced == null && capacity > 0 ==> forall h :: h in old(table.nodes) ==> h.key != e.key
      ensures displaced != null ==> capacity > 0 && displaced.key == e.key && Listed(old(idle), old(busy), displaced)
      ensures Inserted(old(idle), old(busy), old(outside), old(deletions), e, displaced, 0)
      ensures outside.Keys <= old(outside).Keys + {e}
    {
      hide CountsOk, ListsOk, HandleTable.Valid, Charges, LessOf, Entries, Deleted, Unlisted;
      ghost var idle0, busy0 := idle, busy;
      LessOfNull(idle);
      LessOfNull(busy);
      displaced := null;
      if capacity > 0 {
        displaced := TakeIn(e);
        assert displaced != e;
      } else {
        KeepOut(e);
      }
      EvictedNone(idle, outside, deletions);
      assert deletions + [] == deletions;
    }

    lemma InsertedNext(idle0: seq<Handle>, busy0: seq<Handle>, outside0: map<Handle, nat>, deletions0: seq<Handle>,
                       e: Handle, displaced: Handle?, n: nat)
      requires Inserted(idle0, busy0, outside0, deletions0, e, displaced, n) && idle != []
      requires Charges(idle) + Charges(busy) > capacity
      ensures var idle1, outside1 := LessOf(idle0, displaced), Unheld(outside0[e := 1], displaced);
              var deletions1 := deletions0 + if displaced in outside0 && outside0[displaced] == 0 then [displaced]
                else [];
              && Evicted(idle1, outside1, deletions1, n + 1, idle[1..], outside - {idle[0]}, deletions + [idle[0]])
              && Charges(idle1[n..]) + Charges(busy) > capacity
    {
      hide LessOf;
      var idle1, outside1 := LessOf(idle0, displaced), Unheld(outside0[e := 1], displaced);
      var deletions1 := deletions0 + if displaced in outside0 && outside0[displaced] == 0 then [displaced] else [];
      EvictedNext(idle1, outside1, deletions1, n, idle, outside, deletions);
    }

    /** Insert: the client gets a handle of the new entry. */
    method Insert(key: string, hash: nat, value: nat, charge: nat)
      returns (e: Handle, ghost displaced: Handle?, ghost n: nat)
      requires Valid() && hash == table.hashOf(key)
      modifies this`idle, this`busy, this`outside, this`deletions, this`usage, lru, inUse, outside.Keys, table,
               table.list
      ensures Valid() && (table.list == old(table.list) || fresh(table.list))
      ensures fresh(e) && e.key == key && e.hash == hash && e.value == value && e.charge == charge
      ensures usage <= capacity || idle == []
      ensures displaced == null && capacity > 0 ==> forall h :: h in old(table.nodes) ==> h.key != key
      ensures displaced != null ==> capacity > 0 && displaced.key == key && Listed(old(idle), old(busy), displaced)
      ensures Inserted(old(idle), old(busy), old(outside), old(deletions), e, displaced, n)
    {
      hide CountsOk, ListsOk, HandleTable.Valid, Charges, LessOf, Evicted, SortedOut, Circle, Entries;
      e := new Handle(key, hash, value, charge);
      displaced := Admit(e);
      n := 0;
      var more := HasIdle();
      while usage > capacity && more
        invariant Valid() && (table.list == old(table.list) || fresh(table.list))
                  && outside.Keys <= old(outside).Keys + {e}
        invariant Inserted(old(idle), old(busy), old(outside), old(deletions), e, displaced, n)
        invariant more == (idle != [])
        decreases |idle|
      {
        InsertedNext(old(idle), old(busy), old(outside), old(deletions), e, displaced, n);
        EvictOldest();
        n := n + 1;
        more := HasIdle();
      }
    }
  }

  lemma LessOfNull(list: seq<Handle>)
    ensures LessOf(list, null) == list
  {
  }

  lemma OldestFirst(lru: Handle, inUse: Handle, idle: seq<Handle>, busy: seq<Handle>)
    requires ListsOk(lru, inUse, idle, busy) && idle != []
    ensures lru.next == idle[0] && idle[0] in idle && lru.next != lru
    ensures LessOf(idle, idle[0]) == idle[1..] && LessOf(busy, idle[0]) == busy
  {
    LessMembers(idle, idle[0]);
    assert lru.next == Around(lru, idle, 0) by {
      assert lru == Around(lru, idle, -1);
    }
    assert Without(idle, 0) == idle[1..];
  }

  lemma NoneIdle(lru: Handle, inUse: Handle, busy: seq<Handle>)
    requires ListsOk(lru, inUse, [], busy)
    ensures lru.next == lru
  {
    assert lru == Around(lru, [], -1) == Around(lru, [], 0);
  }

  /** The n oldest of the unreferenced entries were evicted, in order. */
  ghost predicate Evicted(idle0: seq<Handle>, outside0: map<Handle, nat>, deletions0: seq<Handle>, n: nat,
                          idle: seq<Handle>, outside: map<Handle, nat>, deletions: seq<Handle>)
  {
    && n <= |idle0| && idle == idle0[n..] && deletions == deletions0 + idle0[..n]
    && outside == outside0 - Entries(idle0[..n])
  }

  lemma EvictedNone(idle: seq<Handle>, outside: map<Handle, nat>, deletions: seq<Handle>)
    ensures Evicted(idle, outside, deletions, 0, idle, outside, deletions)
  {
    assert idle[..0] == [];
  }

  lemma EvictedNext(idle0: seq<Handle>, outside0: map<Handle, nat>, deletions0: seq<Handle>, n: nat,
                    idle: seq<Handle>, outside: map<Handle, nat>, deletions: seq<Handle>)
    requires Evicted(idle0, outside0, deletions0, n, idle, outside, deletions) && idle != []
    ensures Evicted(idle0, outside0, deletions0, n + 1, idle[1..], outside - {idle[0]}, deletions + [idle[0]])
    ensures n < |idle0| && idle == idle0[n..]
  {
    assert idle0[..n + 1] == idle0[..n] + [idle[0]];
    assert Entries(idle0[..n + 1]) == Entries(idle0[..n]) + {idle[0]};
  }

  lemma EvictedAll(idle0: seq<Handle>, outside0: map<Handle, nat>, deletions0: seq<Handle>, n: nat,
                   outside: map<Handle, nat>, deletions: seq<Handle>)
    requires Evicted(idle0, outside0, deletions0, n, [], outside, deletions)
    ensures deletions == deletions0 + idle0 && outside == outside0 - Entries(idle0)
  {
    assert idle0[..n] == idle0;
  }

  lemma KeysDiffer(table: HandleTable)
    requires table.Valid()
    ensures OnePerKey(table.nodes, table.hashOf)
  {
  }

  lemma ListsParts(lru: Handle, inUse: Handle, idle: seq<Handle>, busy: seq<Handle>)
    requires ListsOk(lru, inUse, idle, busy)
    ensures NoTwins(idle) && NoTwins(busy) && forall h :: h in idle ==> h !in busy
  {
  }

  lemma CircleParts(head: Handle, list: seq<Handle>)
    requires Circle(head, list)
    ensures head !in list && NoTwins(list)
  {
  }

  lemma AroundMember(head: Handle, list: seq<Handle>, i: int)
    ensures Around(head, list, i) == head || Around(head, list, i) in list
  {
  }

  lemma BusyWithout(busy: seq<Handle>, k: nat)
    requires NoTwins(busy) && k < |busy|
    ensures forall h :: h in Without(busy, k) <==> h in busy && h != busy[k]
    ensures Entries(Without(busy, k)) == Entries(busy) - {busy[k]}
  {
    MembersWithout(busy, k);
  }
}
