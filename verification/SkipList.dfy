/** The skip list behind a memtable: one writer links nodes level by level, readers
    search while it does. */
module SkipLists {
  type Key = real

  const MAX_HEIGHT: nat := 12

  class Node {
    const key: Key
    /** Links at the levels below the node's height. */
    var next: seq<Node?>

    constructor (key: Key, height: nat)
      ensures this.key == key && |next| == height
    {
      this.key := key;
      next := seq(height, _ => null);
    }
  }

  // ---------- The lists, level by level ----------

  ghost predicate Increasing(list: seq<Node>) {
    forall i, j :: 0 <= i < j < |list| ==> list[i].key < list[j].key
  }

  /** Every level is sorted and contained in the levels below it. */
  ghost predicate Shape(order: seq<seq<Node>>, maxHeight: nat) {
    && |order| == MAX_HEIGHT && 1 <= maxHeight <= MAX_HEIGHT
    && (forall l :: 0 <= l < MAX_HEIGHT ==> Increasing(order[l]))
    && (forall k, l, n :: 0 <= k < l < MAX_HEIGHT && n in order[l] ==> n in order[k])
    && (forall l :: maxHeight <= l < MAX_HEIGHT ==> order[l] == [])
  }

  /** Node number i of a level; number -1 is the head. */
  ghost function NodeAt(head: Node, list: seq<Node>, i: int): Node
    requires -1 <= i < |list|
  {
    if i < 0 then head else list[i]
  }

  ghost function Following(list: seq<Node>, i: int): Node?
    requires -1 <= i < |list|
  {
    if i + 1 < |list| then list[i + 1] else null
  }

  /** The links of level l run through `list`. */
  ghost predicate Linked(head: Node, list: seq<Node>, l: nat)
    reads head, list
  {
    forall i :: -1 <= i < |list| ==>
      l < |NodeAt(head, list, i).next| && NodeAt(head, list, i).next[l] == Following(list, i)
  }

  /** Node number p is the last one before `key`. */
  ghost predicate LastBefore(list: seq<Node>, key: Key, p: int) {
    && -1 <= p < |list|
    && (forall i :: 0 <= i <= p ==> list[i].key < key)
    && (forall i :: p < i < |list| ==> key <= list[i].key)
  }

  /** r is the first node at or after `key`. */
  ghost predicate FirstFrom(list: seq<Node>, key: Key, r: Node?) {
    && (r != null ==> r in list && key <= r.key)
    && (forall n :: n in list && key <= n.key ==> r != null && r.key <= n.key)
  }

  lemma FollowingIsFirst(list: seq<Node>, key: Key, p: int)
    requires Increasing(list) && LastBefore(list, key, p)
    ensures FirstFrom(list, key, Following(list, p))
  {
    forall n | n in list && key <= n.key
      ensures Following(list, p) != null && Following(list, p).key <= n.key
    {
      var i :| 0 <= i < |list| && list[i] == n;
      assert p < i;
    }
  }

  /** Going down a level: everything up to the same node is still before the key. */
  lemma StepDown(head: Node, order: seq<seq<Node>>, maxHeight: nat, l: nat, m: nat, p: int, key: Key) returns (q: int)
    requires Shape(order, maxHeight) && l == m + 1 < MAX_HEIGHT && -1 <= p < |order[l]|
    requires forall i :: 0 <= i <= p ==> order[l][i].key < key
    ensures -1 <= q < |order[m]| && NodeAt(head, order[m], q) == NodeAt(head, order[l], p)
    ensures forall i :: 0 <= i <= q ==> order[m][i].key < key
  {
    q := SameNodeBelow(head, order, maxHeight, l, m, p);
  }

  lemma SameNodeBelow(head: Node, order: seq<seq<Node>>, maxHeight: nat, l: nat, m: nat, p: int) returns (q: int)
    requires Shape(order, maxHeight) && l == m + 1 < MAX_HEIGHT && -1 <= p < |order[l]|
    ensures -1 <= q < |order[m]| && NodeAt(head, order[m], q) == NodeAt(head, order[l], p) && (p == -1 <==> q == -1)
  {
    q := -1;
    if p >= 0 {
      assert order[l][p] in order[l];
      q :| 0 <= q < |order[m]| && order[m][q] == order[l][p];
    }
  }

  /** `node` is the last node of the level before `key`, or the head. */
  ghost predicate Precedes(head: Node, list: seq<Node>, key: Key, node: Node) {
    exists p :: LastBefore(list, key, p) && node == NodeAt(head, list, p)
  }

  class SkipList {
    const head: Node
    var maxHeight: nat
    /** The nodes of each level, in order, without the head. */
    ghost var order: seq<seq<Node>>
    ghost var nodes: set<Node>

    ghost predicate Valid()
      reads this, head, nodes
    {
      && |order| == MAX_HEIGHT && Shape(order, maxHeight) && head !in nodes
      && (forall l, n :: 0 <= l < MAX_HEIGHT && n in order[l] ==> n in nodes)
      && (forall l :: 0 <= l < MAX_HEIGHT ==> Linked(head, order[l], l))
    }

    /** The keys in the list. */
    ghost predicate Has(key: Key)
      reads this
    {
      order != [] && exists n :: n in order[0] && n.key == key
    }

    constructor ()
      ensures Valid() && fresh(head) && fresh(nodes) && forall k :: !Has(k)
    {
      var h := new Node(0.0, MAX_HEIGHT);
      var i := 0;
      while i < MAX_HEIGHT
        invariant 0 <= i <= MAX_HEIGHT && |h.next| == MAX_HEIGHT
        invariant forall l :: 0 <= l < i ==> h.next[l] == null
        modifies h
      {
        h.next := h.next[i := null];
        i := i + 1;
      }
      head, maxHeight, nodes := h, 1, {};
      order := seq(MAX_HEIGHT, _ => []);
    }

    /** What a node's link at a level is. */
    lemma LinkIs(l: nat, p: int)
      requires Valid() && l < MAX_HEIGHT && -1 <= p < |order[l]|
      ensures l < |NodeAt(head, order[l], p).next| && NodeAt(head, order[l], p).next[l] == Following(order[l], p)
    {
      assert Linked(head, order[l], l);
    }

    /** The search of the writer, which fills prev; a reader's search is the same without it. */
    method FindGreaterOrEqual(key: Key, prev: array<Node>) returns (r: Node?)
      requires Valid() && prev.Length == MAX_HEIGHT
      modifies prev
      ensures FirstFrom(order[0], key, r)
      ensures forall l :: 0 <= l < maxHeight ==> Precedes(head, order[l], key, prev[l])
    {
      hide Shape, Linked;
      ShapeParts(order, maxHeight);
      var x := head;
      var level := maxHeight - 1;
      ghost var p := -1;
      while true
        invariant Valid() && order == old(order) && maxHeight == old(maxHeight)
        invariant 0 <= level < maxHeight && -1 <= p < |order[level]| && x == NodeAt(head, order[level], p)
        invariant forall i :: 0 <= i <= p ==> order[level][i].key < key
        invariant forall l :: level < l < maxHeight ==> Precedes(head, order[l], key, prev[l])
        decreases level, |order[level]| - p
      {
        LinkIs(level, p);
        var next := x.next[level];
        if next != null && next.key < key {
          x := next;
          p := p + 1;
        } else {
          prev[level] := x;
          StopsBefore(order[level], key, p);
          assert Precedes(head, order[level], key, x);
          if level == 0 {
            FollowingIsFirst(order[0], key, p);
            return next;
          }
          p := StepDown(head, order, maxHeight, level, level - 1, p, key);
          level := level - 1;
        }
      }
    }

    /** The last node before `key`; the head if there is none. */
    method FindLessThan(key: Key) returns (r: Node)
      requires Valid()
      ensures Precedes(head, order[0], key, r)
    {
      hide Shape, Linked;
      ShapeParts(order, maxHeight);
      var x := head;
      var level := maxHeight - 1;
      ghost var p := -1;
      while true
        invariant 0 <= level < maxHeight && -1 <= p < |order[level]| && x == NodeAt(head, order[level], p)
        invariant forall i :: 0 <= i <= p ==> order[level][i].key < key
        decreases level, |order[level]| - p
      {
        LinkIs(level, p);
        var next := x.next[level];
        if next == null || next.key >= key {
          if level == 0 {
            StopsBefore(order[0], key, p);
            return x;
          }
          p := StepDown(head, order, maxHeight, level, level - 1, p, key);
          level := level - 1;
        } else {
          x := next;
          p := p + 1;
        }
      }
    }

    /** The last node of the list; the head if it is empty. */
    method FindLast() returns (r: Node)
      requires Valid()
      ensures r == NodeAt(head, order[0], |order[0]| - 1)
    {
      hide Shape, Linked;
      ShapeParts(order, maxHeight);
      var x := head;
      var level := maxHeight - 1;
      ghost var p := -1;
      while true
        invariant 0 <= level < maxHeight && -1 <= p < |order[level]| && x == NodeAt(head, order[level], p)
        decreases level, |order[level]| - p
      {
        LinkIs(level, p);
        var next := x.next[level];
        if next == null {
          if level == 0 {
            return x;
          }
          p := SameNodeBelow(head, order, maxHeight, level, level - 1, p);
          level := level - 1;
        } else {
          x := next;
          p := p + 1;
        }
      }
    }

    method Contains(key: Key) returns (found: bool)
      requires Valid()
      ensures found <==> Has(key)
    {
      var prev := new Node[MAX_HEIGHT](_ => head);
      var x := FindGreaterOrEqual(key, prev);
      found := x != null && x.key == key;
    }

    // ---------- Inserting ----------

    /** The new node gets its own link; nobody can see it at this level yet. */
    method PrepareLink(x: Node, i: nat, prev: Node, ghost p: int)
      requires Valid() && i < MAX_HEIGHT && i < |x.next| && x !in order[i] && x != head
      requires -1 <= p < |order[i]| && prev == NodeAt(head, order[i], p)
      modifies x
      ensures Valid() && |x.next| == old(|x.next|) && x.next[i] == Following(order[i], p)
    {
      LinkIs(i, p);
      ghost var was := x.next;
      x.next := x.next[i := prev.next[i]];
      forall l | 0 <= l < MAX_HEIGHT
        ensures Linked(head, order[l], l)
      {
        assert old(Linked(head, order[l], l));
      }
    }

    /** One store makes the new node visible at one more level. */
    method PublishLink(x: Node, i: nat, prev: Node, ghost p: int)
      requires Valid() && i < maxHeight && i < |x.next| && x !in order[i] && x != head
      requires LastBefore(order[i], x.key, p) && prev == NodeAt(head, order[i], p)
      requires x.next[i] == Following(order[i], p)
      requires forall n :: n in order[i] ==> n.key != x.key
      requires forall k :: 0 <= k < i ==> x in order[k]
      requires forall k :: i < k < MAX_HEIGHT ==> x !in order[k]
      modifies this`order, this`nodes, prev
      ensures Valid() && nodes == old(nodes) + {x}
      ensures order == old(order)[i := Spliced(old(order[i]), p, x)]
    {
      LinkIs(i, p);
      ghost var list := order[i];
      prev.next := prev.next[i := x];
      order := order[i := Spliced(order[i], p, x)];
      nodes := nodes + {x};
      SplicedShape(old(order), maxHeight, i, p, x);
      assert old(Linked(head, order[i], i));
      DistinctNodes(head, list, p);
      RelinkedLevel(head, list, i, p, x);
      forall l | 0 <= l < MAX_HEIGHT && l != i
        ensures Linked(head, order[l], l)
      {
        assert old(Linked(head, order[l], l));
      }
    }

    /** Link a new node from the lowest level up; readers may look between any two stores. */
    method Insert(key: Key, height: nat)
      requires Valid() && 1 <= height <= MAX_HEIGHT && !Has(key)
      modifies this, head, nodes
      ensures Valid() && fresh(nodes - old(nodes))
      ensures forall k :: Has(k) <==> old(Has(k)) || k == key
      ensures maxHeight == if height > old(maxHeight) then height else old(maxHeight)
    {
      hide Shape, Linked, LastBefore;
      forall n | n in order[0]
        ensures n.key != key
      {
      }
      var prev := new Node[MAX_HEIGHT](_ => head);
      var _ := FindGreaterOrEqual(key, prev);
      if height > maxHeight {
        EmptyAbove(order, maxHeight, height, head, key);
        var i := maxHeight;
        while i < height
          invariant maxHeight <= i <= height
          invariant forall l :: maxHeight <= l < i ==> prev[l] == head
          invariant forall l :: 0 <= l < maxHeight ==> Precedes(head, order[l], key, prev[l])
          modifies prev
        {
          prev[i] := head;
          i := i + 1;
        }
        maxHeight := height;
      }
      var x := new Node(key, height);
      ghost var was := order;
      LinkLevels(x, prev, height);
      assert forall k :: old(Has(k)) <==> exists n: Node :: n in was[0] && n.key == k;
    }

    method LinkLevels(x: Node, prev: array<Node>, height: nat)
      requires Valid() && 1 <= height <= maxHeight && prev.Length == MAX_HEIGHT && |x.next| == height
      requires x != head && x !in nodes && forall l :: 0 <= l < MAX_HEIGHT ==> x !in order[l]
      requires forall n :: n in order[0] ==> n.key != x.key
      requires forall l :: 0 <= l < height ==> Precedes(head, order[l], x.key, prev[l])
      modifies this`order, this`nodes, head, nodes, x
      ensures Valid() && nodes == old(nodes) + {x}
      ensures |order| == |old(order)| == MAX_HEIGHT && forall n :: n in order[0] <==> n in old(order[0]) || n == x
    {
      hide Shape, Linked, LastBefore;
      ShapeParts(order, maxHeight);
      ghost var was := order;
      var i := 0;
      while i < height
        invariant 0 <= i <= height && Valid() && |x.next| == height && |order| == |was| == MAX_HEIGHT
        invariant nodes == old(nodes) + (if i > 0 then {x} else {})
        invariant forall l :: i <= l < MAX_HEIGHT ==> order[l] == was[l]
        invariant forall l :: 0 <= l < i ==> forall n :: n in order[l] <==> n in was[l] || n == x
      {
        ghost var p := PositionBefore(head, order[i], x.key, prev[i]);
        NodeKnown(head, order[i], p, nodes, x.key);
        KeysApart(was, maxHeight, i, x);
        PrepareLink(x, i, prev[i], p);
        PublishLink(x, i, prev[i], p);
        SplicedMembers(was[i], p, x);
        i := i + 1;
      }
    }
  }

  lemma EmptyAbove(order: seq<seq<Node>>, maxHeight: nat, height: nat, head: Node, key: Key)
    requires Shape(order, maxHeight) && maxHeight <= height <= MAX_HEIGHT
    ensures Shape(order, height) && forall l :: maxHeight <= l < MAX_HEIGHT ==> Precedes(head, order[l], key, head)
  {
    forall l | maxHeight <= l < MAX_HEIGHT
      ensures Precedes(head, order[l], key, head)
    {
      assert LastBefore(order[l], key, -1);
    }
  }

  lemma PositionBefore(head: Node, list: seq<Node>, key: Key, node: Node) returns (p: int)
    requires Precedes(head, list, key, node)
    ensures LastBefore(list, key, p) && -1 <= p < |list| && node == NodeAt(head, list, p)
  {
    p :| LastBefore(list, key, p) && node == NodeAt(head, list, p);
  }

  lemma NodeKnown(head: Node, list: seq<Node>, p: int, nodes: set<Node>, key: Key)
    requires LastBefore(list, key, p) && forall n :: n in list ==> n in nodes
    ensures -1 <= p < |list| && (NodeAt(head, list, p) == head || NodeAt(head, list, p) in nodes)
  {
    assert p >= 0 ==> list[p] in list;
  }

  lemma KeysApart(order: seq<seq<Node>>, maxHeight: nat, l: nat, x: Node)
    requires |order| == MAX_HEIGHT && Shape(order, maxHeight) && l < MAX_HEIGHT && forall n :: n in order[0] ==>
               n.key != x.key
    ensures forall n :: n in order[l] ==> n.key != x.key
  {
  }

  lemma SplicedMembers(list: seq<Node>, p: int, x: Node)
    requires -1 <= p < |list|
    ensures forall n :: n in Spliced(list, p, x) <==> n in list || n == x
  {
    assert list == list[..p + 1] + list[p + 1..];
  }

  lemma DistinctNodes(head: Node, list: seq<Node>, p: int)
    requires Increasing(list) && head !in list && -1 <= p < |list|
    ensures forall k :: -1 <= k < |list| && k != p ==> NodeAt(head, list, k) != NodeAt(head, list, p)
  {
    assert forall k :: 0 <= k < |list| ==> list[k] in list;
  }

  /** One link changed and one node put in between: the level is linked again. */
  lemma RelinkedLevel(head: Node, list: seq<Node>, l: nat, p: int, x: Node)
    requires -1 <= p < |list|
    requires forall k :: -1 <= k < |list| ==> l < |NodeAt(head, list, k).next|
    requires forall k :: -1 <= k < |list| ==> NodeAt(head, list, k).next[l] == if k == p then x else Following(list, k)
    requires l < |x.next| && x.next[l] == Following(list, p)
    ensures Linked(head, Spliced(list, p, x), l)
  {
    var r := Spliced(list, p, x);
    forall k | -1 <= k < |r|
      ensures l < |NodeAt(head, r, k).next| && NodeAt(head, r, k).next[l] == Following(r, k)
    {
      if k <= p {
        assert NodeAt(head, r, k) == NodeAt(head, list, k);
      } else if k > p + 1 {
        assert NodeAt(head, r, k) == NodeAt(head, list, k - 1);
      }
    }
  }

  /** A level with x put in after node number p. */
  ghost function Spliced(list: seq<Node>, p: int, x: Node): seq<Node>
    requires -1 <= p < |list|
  {
    list[..p + 1] + [x] + list[p + 1..]
  }

  lemma SplicedShape(order: seq<seq<Node>>, maxHeight: nat, i: nat, p: int, x: Node)
    requires Shape(order, maxHeight) && i < maxHeight
    requires LastBefore(order[i], x.key, p)
    requires forall n :: n in order[i] ==> n.key != x.key
    requires forall k :: 0 <= k < i ==> x in order[k]
    requires forall k :: i < k < MAX_HEIGHT ==> x !in order[k]
    ensures Shape(order[i := Spliced(order[i], p, x)], maxHeight)
    ensures forall n :: n in Spliced(order[i], p, x) <==> n in order[i] || n == x
  {
    var list := order[i];
    assert list == list[..p + 1] + list[p + 1..];
    var r := Spliced(list, p, x);
    assert Increasing(r) by {
      forall k | p < k < |list|
        ensures x.key < list[k].key
      {
        assert list[k] in list;
      }
    }
  }

  lemma ShapeParts(order: seq<seq<Node>>, maxHeight: nat)
    requires Shape(order, maxHeight)
    ensures |order| == MAX_HEIGHT && 1 <= maxHeight <= MAX_HEIGHT && forall l :: 0 <= l < MAX_HEIGHT ==>
              Increasing(order[l])
  {
  }

  lemma StopsBefore(list: seq<Node>, key: Key, p: int)
    requires Increasing(list) && -1 <= p < |list| && forall i :: 0 <= i <= p ==> list[i].key < key
    requires p + 1 < |list| ==> key <= list[p + 1].key
    ensures LastBefore(list, key, p)
  {
  }

  // ---------- A reader beside the writer ----------

  /** A search in progress: where it stands, and the keys that were there when it began. */
  class Search {
    const list: SkipList
    const key: Key
    var x: Node
    var level: nat
    ghost const present: set<Key>

    ghost predicate Good()
      reads this, list, list.head, list.nodes
    {
      && list.Valid() && level < MAX_HEIGHT
      && (x == list.head || (x in list.order[level] && x.key < key))
      && forall k :: k in present ==> list.Has(k)
    }

    /** A search starts at the head, on the level below the height it read, or on any other. */
    constructor (list: SkipList, key: Key, level: nat, ghost present: set<Key>)
      requires list.Valid() && level < MAX_HEIGHT && forall k :: k in present ==> list.Has(k)
      ensures Good() && this.list == list && this.key == key && this.level == level && this.present == present
    {
      this.list, this.key, this.present := list, key, present;
      x, this.level := list.head, level;
    }

    /** One turn of FindGreaterOrEqual's loop: forward over a node before the key, or down where
        there is none, and at the bottom the end: r is then the first node at or after the key,
        and no key that was there from the beginning has been passed over. */
    method Step() returns (done: bool, r: Node?)
      requires Good()
      modifies this`x, this`level
      ensures Good()
      ensures !done && level == old(level) ==>
                && x in list.order[level] && (old(x) == list.head || old(x).key < x.key < key)
                && forall n :: n in list.order[level] && n.key < x.key ==> old(x) != list.head && n.key <= old(x).key
      ensures !done && level != old(level) ==> x == old(x) && level + 1 == old(level)
      ensures done ==> x == old(x) && level == old(level) == 0
      ensures done || level != old(level) ==>
                forall n :: n in list.order[old(level)] && n.key < key ==> x != list.head && n.key <= x.key
      ensures done && r != null ==> r in list.order[0] && key <= r.key
      ensures done ==> forall n :: n in list.order[0] && key <= n.key ==> r != null && r.key <= n.key
      ensures done ==> forall k :: k in present && key <= k ==> r != null && r.key <= k
    {
      hide Shape, Linked, Increasing, LastBefore;
      ghost var p := -1;
      if x != list.head {
        p :| 0 <= p < |list.order[level]| && list.order[level][p] == x;
      }
      ShapeParts(list.order, list.maxHeight);
      list.LinkIs(level, p);
      Around(list.order[level], p);
      var next := x.next[level];
      done, r := false, null;
      if next != null && next.key < key {
        x := next;
      } else if level == 0 {
        done, r := true, next;
        SortedUpTo(list.order[0], p, key);
        StopsBefore(list.order[0], key, p);
        FollowingIsFirst(list.order[0], key, p);
      } else {
        ghost var q := SameNodeBelow(list.head, list.order, list.maxHeight, level, level - 1, p);
        level := level - 1;
      }
    }

    /** The writer's stores, between two steps of the search: first the height of the list,
        then the two links of each level of a new node. */
    method WriterRaisesHeight(height: nat)
      requires Good() && list.maxHeight <= height <= MAX_HEIGHT
      modifies list`maxHeight
      ensures Good() && list.maxHeight == height
    {
      hide Shape, Linked;
      EmptyAbove(list.order, list.maxHeight, height, list.head, key);
      list.maxHeight := height;
    }

    method WriterPreparesLink(n: Node, i: nat, prev: Node, ghost p: int)
      requires Good() && i < MAX_HEIGHT && i < |n.next| && n !in list.order[i] && n != list.head
      requires -1 <= p < |list.order[i]| && prev == NodeAt(list.head, list.order[i], p)
      modifies n
      ensures Good() && i < |n.next| && n.next[i] == Following(list.order[i], p)
    {
      list.PrepareLink(n, i, prev, p);
    }

    method WriterPublishesLink(n: Node, i: nat, prev: Node, ghost p: int)
      requires Good() && i < list.maxHeight && i < |n.next| && n !in list.order[i] && n != list.head
      requires LastBefore(list.order[i], n.key, p) && prev == NodeAt(list.head, list.order[i], p)
      requires n.next[i] == Following(list.order[i], p)
      requires forall m :: m in list.order[i] ==> m.key != n.key
      requires forall k :: 0 <= k < i ==> n in list.order[k]
      requires forall k :: i < k < MAX_HEIGHT ==> n !in list.order[k]
      modifies list`order, list`nodes, prev
      ensures Good() && n in list.order[i]
    {
      hide Shape, Linked;
      ShapeParts(list.order, list.maxHeight);
      SplicedMembers(list.order[i], p, n);
      list.PublishLink(n, i, prev, p);
    }
  }

  /** Nothing lies between two neighbours of a level. */
  lemma Around(list: seq<Node>, p: int)
    requires Increasing(list) && -1 <= p < |list|
    ensures 0 <= p < |list| - 1 ==> list[p].key < list[p + 1].key
    ensures forall n :: n in list && (p + 1 == |list| || n.key < list[p + 1].key) ==> p >= 0 && n.key <= list[p].key
  {
    forall n | n in list && (p + 1 == |list| || n.key < list[p + 1].key)
      ensures p >= 0 && n.key <= list[p].key
    {
      var i :| 0 <= i < |list| && list[i] == n;
      assert i <= p;
    }
  }

  lemma SortedUpTo(list: seq<Node>, p: int, key: Key)
    requires Increasing(list) && -1 <= p < |list| && (p >= 0 ==> list[p].key < key)
    ensures forall i :: 0 <= i <= p ==> list[i].key < key
  {
  }

  // ---------- The iterator ----------

  class Iterator {
    const list: SkipList
    var node: Node?

    ghost predicate Ok()
      reads this, list, list.head, list.nodes
    {
      list.Valid() && (node != null ==> node in list.order[0])
    }

    constructor (list: SkipList)
      requires list.Valid()
      ensures Ok() && node == null && this.list == list
    {
      this.list, node := list, null;
    }

    method Next()
      requires Ok() && node != null
      modifies this`node
      ensures Ok()
      ensures node != null ==> old(node.key) < node.key
      ensures forall n :: n in list.order[0] && old(node.key) < n.key ==> node != null && node.key <= n.key
    {
      hide Shape, Linked;
      ShapeParts(list.order, list.maxHeight);
      ghost var p: int :| 0 <= p < |list.order[0]| && list.order[0][p] == node;
      list.LinkIs(0, p);
      node := node.next[0];
      forall n | n in list.order[0] && list.order[0][p].key < n.key
        ensures node != null && node.key <= n.key
      {
        var i :| 0 <= i < |list.order[0]| && list.order[0][i] == n;
        assert p < i;
      }
    }

    /** No back links: search for the last node before the current key. */
    method Prev()
      requires Ok() && node != null
      modifies this`node
      ensures Ok()
      ensures node != null ==> node.key < old(node.key)
      ensures forall n :: n in list.order[0] && n.key < old(node.key) ==> node != null && n.key <= node.key
    {
      hide Shape, Linked;
      ShapeParts(list.order, list.maxHeight);
      ghost var key := node.key;
      var r := list.FindLessThan(node.key);
      BeforeIsLargest(list.head, list.order[0], key, r, list.nodes);
      node := if r == list.head then null else r;
    }

    method Seek(target: Key)
      requires Ok()
      modifies this`node
      ensures Ok() && FirstFrom(list.order[0], target, node)
    {
      var prev := new Node[MAX_HEIGHT](_ => list.head);
      node := list.FindGreaterOrEqual(target, prev);
    }

    method SeekToFirst()
      requires Ok()
      modifies this`node
      ensures Ok() && forall n :: n in list.order[0] ==> node != null && node.key <= n.key
    {
      hide Shape, Linked;
      ShapeParts(list.order, list.maxHeight);
      list.LinkIs(0, -1);
      node := list.head.next[0];
    }

    method SeekToLast()
      requires Ok()
      modifies this`node
      ensures Ok() && forall n :: n in list.order[0] ==> node != null && n.key <= node.key
    {
      hide Shape, Linked;
      ShapeParts(list.order, list.maxHeight);
      var r := list.FindLast();
      assert list.order[0] != [] ==> list.order[0][|list.order[0]| - 1] in list.order[0];
      node := if r == list.head then null else r;
    }
  }

  lemma BeforeIsLargest(head: Node, list: seq<Node>, key: Key, r: Node, nodes: set<Node>)
    requires Increasing(list) && Precedes(head, list, key, r) && head !in nodes && forall n :: n in list ==> n in nodes
    ensures r != head ==> r in list && r.key < key
    ensures forall n :: n in list && n.key < key ==> r != head && n.key <= r.key
  {
    var p := PositionBefore(head, list, key, r);
    assert p >= 0 ==> list[p] in list;
    forall n | n in list && n.key < key
      ensures r != head && n.key <= r.key
    {
      var i :| 0 <= i < |list| && list[i] == n;
      assert i <= p;
    }
  }
}
