/** The cache's own hash table: buckets of entries chained through the entries themselves. */
module HandleTables {

  /** One cache entry.  `key`, `hash` and `charge` never change; the links belong to the
      hash table and to the two lists of the cache. */
  class Handle {
    const key: string
    const hash: nat
    const charge: nat
    const value: nat
    var refs: nat
    var inCache: bool
    var nextHash: Handle?
    var next: Handle?
    var prev: Handle?

    constructor (key: string, hash: nat, value: nat, charge: nat)
      ensures this.key == key && this.hash == hash && this.value == value && this.charge == charge
      ensures refs == 1 && !inCache && nextHash == null
    {
      this.key, this.hash, this.value, this.charge := key, hash, value, charge;
      refs, inCache, nextHash := 1, false, null;
    }
  }

  /** Entry number i of a chain; null at its end. */
  ghost function At(c: seq<Handle>, i: int): Handle? {
    if 0 <= i < |c| then c[i] else null
  }

  /** The links from `first` run through c. */
  ghost predicate Chain(first: Handle?, c: seq<Handle>)
    reads c`nextHash
  {
    first == At(c, 0) && forall i :: 0 <= i < |c| ==> c[i].nextHash == At(c, i + 1)
  }

  ghost predicate NoTwins(c: seq<Handle>) {
    forall i, j :: 0 <= i < j < |c| ==> c[i] != c[j]
  }

  predicate PowerOfTwo(n: nat) {
    n == 1 || (n > 0 && n % 2 == 0 && PowerOfTwo(n / 2))
  }

  /** `a & b`. */
  function And(a: nat, b: nat): (r: nat)
    ensures r <= b
    decreases b
  {
    if b == 0 then 0 else 2 * And(a / 2, b / 2) + if a % 2 == 1 && b % 2 == 1 then 1 else 0
  }

  /** The bucket of a hash: `hash & (length - 1)`. */
  function Slot(hash: nat, length: nat): (b: nat)
    requires length > 0
    ensures b < length
  {
    And(hash, length - 1)
  }

  /** With a power of two as length the mask takes the remainder, so the hashes spread over all buckets. */
  lemma {:induction false} SlotIsRemainder(hash: nat, length: nat)
    requires PowerOfTwo(length)
    ensures Slot(hash, length) == hash % length
  {
    if length > 1 {
      SlotIsRemainder(hash / 2, length / 2);
      assert (length - 1) / 2 == length / 2 - 1 && (length - 1) % 2 == 1;
      HalfRemainder(hash, length / 2);
    }
  }

  lemma FirstPower()
    ensures PowerOfTwo(4)
  {
  }

  lemma TwicePower(n: nat)
    requires PowerOfTwo(n)
    ensures PowerOfTwo(n * 2)
  {
    assert n * 2 % 2 == 0 && n * 2 / 2 == n;
  }

  lemma HalfRemainder(a: nat, n: nat)
    requires n > 0
    ensures a % (2 * n) == 2 * (a / 2 % n) + a % 2
  {
    var h := a / 2;
    var q, r := h / n, h % n;
    assert h == q * n + r;
    assert a == q * (2 * n) + (2 * r + a % 2) by {
      assert 2 * (q * n) == q * (2 * n);
    }
    Remainder(a, 2 * n, q, 2 * r + a % 2);
  }

  lemma Remainder(a: nat, n: nat, q: nat, r: nat)
    requires r < n && a == q * n + r
    ensures a % n == r
  {
    SameQuotient(n, q, r, a / n, a % n) by {
      assert a == n * (a / n) + a % n;
    }
  }

  lemma SameQuotient(n: nat, q: nat, r: nat, q': nat, r': nat)
    requires r < n && r' < n && q * n + r == q' * n + r'
    ensures q == q' && r == r'
  {
    if q < q' {
      Multiples(n, q, q');
    } else if q' < q {
      Multiples(n, q', q);
    }
  }

  lemma {:induction false} Multiples(n: nat, q: nat, q': nat)
    requires q < q'
    ensures q' * n >= q * n + n
  {
    if q + 1 < q' {
      Multiples(n, q, q' - 1);
    }
  }

  /** Each entry is in the bucket of its hash, once. */
  ghost predicate Buckets(chains: seq<seq<Handle>>, nodes: set<Handle>) {
    && chains != []
    && (forall b, h :: 0 <= b < |chains| && h in chains[b] ==> h in nodes && Slot(h.hash, |chains|) == b)
    && (forall h :: h in nodes ==> h in chains[Slot(h.hash, |chains|)])
    && (forall b :: 0 <= b < |chains| ==> NoTwins(chains[b]))
  }

  /** The entries of a table have different keys. */
  ghost predicate OnePerKey(nodes: set<Handle>, hashOf: string -> nat) {
    && (forall h :: h in nodes ==> h.hash == hashOf(h.key))
    && (forall g, h :: g in nodes && h in nodes && g.key == h.key ==> g == h)
  }

  /** The links in memory are those of the given chains. */
  ghost predicate LinkedIn(list: array<Handle?>, nodes: set<Handle>, cs: seq<seq<Handle>>)
    reads list, nodes`nextHash
  {
    |cs| == list.Length && forall b :: 0 <= b < |cs| ==>
      (forall h :: h in cs[b] ==> h in nodes) && Chain(list[b], cs[b])
  }

  lemma BucketFacts(list: array<Handle?>, nodes: set<Handle>, cs: seq<seq<Handle>>, b: nat)
    requires LinkedIn(list, nodes, cs) && Buckets(cs, nodes) && b < |cs| && |cs| == list.Length
    ensures list[b] == At(cs[b], 0) && forall h :: h in cs[b] ==> h in nodes
    ensures forall h :: h in nodes && Slot(h.hash, |cs|) == b ==> h in cs[b]
  {
    hide Slot;
    assert Chain(list[b], cs[b]);
  }

  lemma NextInBucket(list: array<Handle?>, nodes: set<Handle>, cs: seq<seq<Handle>>, b: nat, i: nat)
    requires LinkedIn(list, nodes, cs) && b < |cs| && |cs| == list.Length && i < |cs[b]|
    ensures cs[b][i].nextHash == At(cs[b], i + 1)
  {
    assert Chain(list[b], cs[b]);
  }

  class HandleTable {
    var length: nat
    var elems: nat
    var list: array<Handle?>
    ghost var chains: seq<seq<Handle>>
    /** All entries in the table. */
    ghost var nodes: set<Handle>
    ghost const hashOf: string -> nat

    ghost predicate Valid()
      reads this, list, nodes`nextHash
    {
      && 4 <= length == list.Length == |chains| && PowerOfTwo(length) && elems == |nodes|
      && Buckets(chains, nodes) && OnePerKey(nodes, hashOf)
      && LinkedIn(list, nodes, chains)
    }

    constructor (ghost hashOf: string -> nat)
      ensures Valid() && nodes == {} && fresh(list) && this.hashOf == hashOf
    {
      length, elems, nodes := 4, 0, {};
      list := new Handle?[4](_ => null);
      chains := [[], [], [], []];
      this.hashOf := hashOf;
    }

    /** Walk the bucket of a hash to the entry with the given key, or to the end.  `prev` is
        the entry whose link leads there; null means the bucket itself. */
    method FindPointer(key: string, hash: nat) returns (prev: Handle?, cur: Handle?, ghost i: nat)
      requires Valid()
      ensures var c := chains[Slot(hash, |chains|)]; i <= |c| && prev == At(c, i - 1) && cur == At(c, i)
      ensures cur != null ==> cur in nodes && cur.key == key && cur.hash == hash
      ensures cur == null ==> forall h :: h in nodes ==> h.key != key || h.hash != hash
    {
      hide Slot, OnePerKey, NoTwins, Buckets, LinkedIn, PowerOfTwo, And;
      var b := Slot(hash, length);
      BucketFacts(list, nodes, chains, b);
      ghost var c := chains[b];
      prev, cur, i := null, list[b], 0;
      while cur != null && (cur.hash != hash || cur.key != key)
        invariant i <= |c| && prev == At(c, i - 1) && cur == At(c, i)
        invariant forall j :: 0 <= j < i ==> c[j].key != key || c[j].hash != hash
        decreases |c| - i
      {
        NextInBucket(list, nodes, chains, b, i);
        prev, cur := cur, cur.nextHash;
        i := i + 1;
      }
      if cur == null {
        forall h | h in nodes && h.hash == hash
          ensures h.key != key
        {
          assert h in c;
        }
      } else {
        assert cur in c;
      }
    }

    method Lookup(key: string, hash: nat) returns (r: Handle?)
      requires Valid() && hash == hashOf(key)
      ensures r != null ==> r in nodes && r.key == key
      ensures r == null ==> forall h :: h in nodes ==> h.key != key
    {
      hide Buckets;
      var _, cur, _ := FindPointer(key, hash);
      r := cur;
    }

    /** Unlink the entry with the given key, if there is one. */
    method Remove(key: string, hash: nat) returns (r: Handle?)
      requires Valid() && hash == hashOf(key)
      modifies this`elems, this`chains, this`nodes, list, nodes`nextHash
      ensures Valid() && list == old(list)
      ensures r != null ==> r in old(nodes) && r.key == key && nodes == old(nodes) - {r}
      ensures r == null ==> nodes == old(nodes) && forall h :: h in nodes ==> h.key != key
    {
      hide Slot, Buckets, Chain, NoTwins;
      var prev, cur, i := FindPointer(key, hash);
      r := cur;
      if r != null {
        var b := Slot(hash, length);
        BucketParts(chains, nodes, b);
        Redirect(b, i, prev, r.nextHash, Without(chains[b], i)) by {
          ChainLinks(list[b], chains[b]);
          WithoutKeepsLinks(chains[b], i);
        }
        RemovedBuckets(chains, nodes, b, i, r);
        elems := elems - 1;
        chains := chains[b := Without(chains[b], i)];
        nodes := nodes - {r};
        BucketParts(chains, nodes, b);
      }
    }

    /** Enter h in the place of the entry with the same key, or at the end of its bucket. */
    method Insert(h: Handle) returns (displaced: Handle?)
      requires Valid() && h !in nodes && h.hash == hashOf(h.key)
      modifies this, list, nodes`nextHash, h`nextHash
      ensures Valid() && (list == old(list) || fresh(list))
      ensures displaced != null ==>
                displaced in old(nodes) && displaced.key == h.key && nodes == old(nodes) - {displaced} + {h}
      ensures displaced == null ==> nodes == old(nodes) + {h} && forall g :: g in old(nodes) ==> g.key != h.key
      ensures if displaced == null && elems > old(length)
              then fresh(list) && elems <= length && (length == 4 || length < 2 * elems)
              else list == old(list) && length == old(length)
    {
      hide Slot, Buckets, LinkedIn, OnePerKey;
      displaced := PutIn(h);
      if displaced == null && elems > length {
        Resize();
      }
    }

    method PutIn(h: Handle) returns (displaced: Handle?)
      requires Valid() && h !in nodes && h.hash == hashOf(h.key)
      modifies this`nodes, this`chains, this`elems, list, nodes`nextHash, h`nextHash
      ensures Valid() && length == old(length)
      ensures displaced != null ==>
                displaced in old(nodes) && displaced.key == h.key && nodes == old(nodes) - {displaced} + {h}
      ensures displaced == null ==> nodes == old(nodes) + {h} && forall g :: g in old(nodes) ==> g.key != h.key
    {
      hide Slot, Buckets, Chain, NoTwins, OnePerKey, Relinked, LinkedIn, With, Gone;
      var prev, cur, i := FindPointer(h.key, h.hash);
      displaced := cur;
      var b := Slot(h.hash, length);
      OneMoreKey(nodes, h, cur, hashOf);
      InsertedBuckets(chains, nodes, b, i, h);
      CountAfter(nodes, h, cur);
      LinkIn(h, b, i, prev, cur);
    }

    /** The two stores of an insertion: the new entry's link, and the link to it. */
    method LinkIn(h: Handle, b: nat, ghost i: nat, prev: Handle?, cur: Handle?)
      requires LinkedIn(list, nodes, chains) && Buckets(chains, nodes) && |chains| == list.Length && b < |chains|
               && h !in nodes
      requires i <= |chains[b]| && prev == At(chains[b], i - 1) && cur == At(chains[b], i)
      requires Buckets(chains[b := With(chains[b], i, h)], nodes + {h} - Gone(cur))
      modifies this`nodes, this`chains, this`elems, list, nodes`nextHash, h`nextHash
      ensures nodes == old(nodes) + {h} - Gone(cur) && chains == old(chains)[b := With(old(chains)[b], i, h)]
      ensures elems == old(elems) + (if cur == null then 1 else 0) && |chains| == |old(chains)|
              && LinkedIn(list, nodes, chains)
    {
      hide Slot, Buckets, NoTwins, Relinked;
      ghost var c := chains[b];
      BucketParts(chains, nodes, b);
      ChainLinks(list[b], c);
      h.nextHash := if cur == null then null else cur.nextHash;
      nodes := nodes + {h};
      WithLinks(c, i, h);
      Redirect(b, i, prev, h, With(c, i, h));
      nodes := nodes - Gone(cur);
      chains := chains[b := With(c, i, h)];
      BucketParts(chains, nodes, b);
      if cur == null {
        elems := elems + 1;
      }
    }

    /** Spread the entries over a longer list of buckets: at least as many as there are entries. */
    method Resize()
      requires Valid()
      modifies this, nodes`nextHash
      ensures Valid() && nodes == old(nodes) && fresh(list) && elems == old(elems) <= length
      ensures length == 4 || length < 2 * elems
    {
      hide Slot, Buckets, Chain, NoTwins, OnePerKey, LinkedIn;
      FirstPower();
      var newLength := 4;
      while newLength < elems
        invariant newLength >= 4 && PowerOfTwo(newLength) && (newLength == 4 || newLength < 2 * elems)
        modifies {}
        decreases elems - newLength
      {
        TwicePower(newLength);
        newLength := newLength * 2;
      }
      var newList := new Handle?[newLength](_ => null);
      ghost var newChains := seq(newLength, _ => []);
      EmptyTable(newList, nodes, newChains);
      StillToMove(list, nodes, chains);
      var i := 0;
      while i < length
        invariant 0 <= i <= length == list.Length == |chains| && newList.Length == |newChains| == newLength
        invariant LinkedIn(newList, nodes, newChains) && Buckets(newChains, InFirst(chains, i))
        invariant forall a :: i <= a < length ==> Chain(list[a], chains[a])
        modifies newList, nodes`nextHash
      {
        BucketParts(chains, nodes, i);
        NotYetMoved(chains, nodes, i);
        newChains := MoveBucket(list[i], chains[i], newList, nodes, newChains, InFirst(chains, i));
        FirstAndNext(chains, i);
        i := i + 1;
      }
      AllMoved(chains, nodes);
      list, length, chains := newList, newLength, newChains;
    }

    /** Store a new pointer in the slot that FindPointer found: the bucket itself, or the
        link of the entry before. */
    method Redirect(b: nat, ghost i: nat, prev: Handle?, target: Handle?, ghost c': seq<Handle>)
      requires LinkedIn(list, nodes, chains) && |chains| == list.Length && b < |chains| && i <= |chains[b]|
               && prev == At(chains[b], i - 1)
      requires forall a :: 0 <= a < |chains| ==> NoTwins(chains[a])
      requires forall a, h :: 0 <= a < |chains| && a != b && h in chains[a] ==> h !in chains[b]
      requires forall h :: h in c' ==> h in nodes
      requires Relinked(chains[b], i, target, c')
      modifies list, nodes`nextHash
      ensures LinkedIn(list, nodes, chains[b := c'])
    {
      hide NoTwins;
      ghost var c := chains[b];
      assert Chain(list[b], c);
      DistinctIn(c);
      if prev == null {
        list[b] := target;
      } else {
        assert prev in c && prev in nodes;
        prev.nextHash := target;
      }
      forall a | 0 <= a < |chains| && a != b
        ensures Chain(list[a], chains[a])
      {
        assert old(Chain(list[a], chains[a]));
      }
      assert forall j :: 0 <= j < |c| ==> c[j].nextHash == if j + 1 == i then target else At(c, j + 1);
      assert Chain(list[b], c') by { RelinkedChain(list[b], c, i, target, c'); }
    }
  }

  ghost function Without(c: seq<Handle>, i: nat): seq<Handle>
    requires i < |c|
  {
    c[..i] + c[i + 1..]
  }

  /** c' is the chain that results when the link before entry i is made to lead to `target`
      and every other entry of c keeps its link. */
  ghost predicate Relinked(c: seq<Handle>, i: nat, target: Handle?, c': seq<Handle>)
    reads c', c
  {
    && i <= |c| && |c'| >= i && c'[..i] == c[..i] && At(c', i) == target
    && forall j :: i <= j < |c'| ==> c'[j].nextHash == At(c', j + 1) && c'[j] !in c[..i]
  }

  lemma RelinkedChain(first: Handle?, c: seq<Handle>, i: nat, target: Handle?, c': seq<Handle>)
    requires i <= |c| && |c'| >= i && c'[..i] == c[..i] && At(c', i) == target
    requires first == if i == 0 then target else At(c, 0)
    requires forall j :: i <= j < |c'| ==> c'[j].nextHash == At(c', j + 1)
    requires forall j :: 0 <= j < i ==> c[j].nextHash == if j + 1 == i then target else At(c, j + 1)
    ensures Chain(first, c')
  {
    assert forall j :: 0 <= j < i ==> c'[j] == c'[..i][j] == c[..i][j] == c[j];
  }

  lemma DistinctIn(c: seq<Handle>)
    requires NoTwins(c)
    ensures forall i, j :: 0 <= i < |c| && 0 <= j < |c| && i != j ==> c[i] != c[j]
  {
  }

  lemma BucketParts(chains: seq<seq<Handle>>, nodes: set<Handle>, b: nat)
    requires Buckets(chains, nodes) && b < |chains|
    ensures forall a :: 0 <= a < |chains| ==> NoTwins(chains[a])
    ensures forall a, h :: 0 <= a < |chains| && a != b && h in chains[a] ==> h !in chains[b]
    ensures forall a, h :: 0 <= a < |chains| && h in chains[a] ==> h in nodes
  {
    hide Slot;
    forall a, h | 0 <= a < |chains| && a != b && h in chains[a]
      ensures h !in chains[b]
    {
      assert Slot(h.hash, |chains|) == a;
    }
  }

  lemma ChainLinks(first: Handle?, c: seq<Handle>)
    requires Chain(first, c)
    ensures first == At(c, 0) && forall i :: 0 <= i < |c| ==> c[i].nextHash == At(c, i + 1)
  {
  }

  lemma WithoutKeepsLinks(c: seq<Handle>, i: nat)
    requires i < |c| && NoTwins(c) && forall j :: i <= j < |c| ==> c[j].nextHash == At(c, j + 1)
    ensures Relinked(c, i, c[i].nextHash, Without(c, i))
    ensures forall h :: h in Without(c, i) ==> h in c
  {
    var c' := Without(c, i);
    forall j | i <= j < |c'|
      ensures c'[j].nextHash == At(c', j + 1) && c'[j] !in c[..i]
    {
      assert c'[j] == c[j + 1];
    }
  }

  lemma MembersWithout(c: seq<Handle>, i: nat)
    requires i < |c| && NoTwins(c)
    ensures NoTwins(Without(c, i)) && forall h :: h in Without(c, i) <==> h in c && h != c[i]
  {
    var c' := Without(c, i);
    forall h | h in c && h != c[i]
      ensures h in c'
    {
      var j :| 0 <= j < |c| && c[j] == h;
      assert c'[if j < i then j else j - 1] == h;
    }
    forall h | h in c'
      ensures h in c && h != c[i]
    {
      var j :| 0 <= j < |c'| && c'[j] == h;
      assert c[if j < i then j else j + 1] == h;
    }
  }

  function Gone(cur: Handle?): set<Handle> {
    if cur == null then {} else {cur}
  }

  lemma CountAfter(nodes: set<Handle>, h: Handle, cur: Handle?)
    requires h !in nodes && (cur != null ==> cur in nodes)
    ensures |nodes + {h} - Gone(cur)| == |nodes| + if cur == null then 1 else 0
    ensures nodes + {h} - Gone(cur) == if cur == null then nodes + {h} else nodes - {cur} + {h}
  {
    assert |nodes + {h}| == |nodes| + 1;
    if cur != null {
      assert nodes + {h} == (nodes + {h} - {cur}) + {cur};
    }
  }

  lemma OneMoreKey(nodes: set<Handle>, h: Handle, cur: Handle?, hashOf: string -> nat)
    requires OnePerKey(nodes, hashOf) && h.hash == hashOf(h.key)
    requires cur != null ==> cur in nodes && cur.key == h.key
    requires cur == null ==> forall g :: g in nodes ==> g.key != h.key || g.hash != h.hash
    ensures OnePerKey(nodes + {h} - Gone(cur), hashOf)
    ensures cur == null ==> forall g :: g in nodes ==> g.key != h.key
  {
  }

  // ---------- Resizing ----------

  /** The entries of the first n buckets. */
  ghost function InFirst(chains: seq<seq<Handle>>, n: nat): set<Handle>
    requires n <= |chains|
  {
    set b, h | 0 <= b < n && h in chains[b] :: h
  }

  lemma EmptyTable(list: array<Handle?>, nodes: set<Handle>, cs: seq<seq<Handle>>)
    requires |cs| == list.Length > 0 && forall b :: 0 <= b < |cs| ==> cs[b] == [] && list[b] == null
    ensures LinkedIn(list, nodes, cs) && Buckets(cs, {}) && forall old' :: InFirst(old', 0) == {}
  {
  }

  lemma StillToMove(list: array<Handle?>, nodes: set<Handle>, cs: seq<seq<Handle>>)
    requires LinkedIn(list, nodes, cs)
    ensures forall a :: 0 <= a < |cs| ==> Chain(list[a], cs[a])
  {
  }

  lemma NotYetMoved(chains: seq<seq<Handle>>, nodes: set<Handle>, i: nat)
    requires Buckets(chains, nodes) && i < |chains|
    ensures forall h :: h in chains[i] ==> h !in InFirst(chains, i) && h in nodes
    ensures NoTwins(chains[i])
    ensures forall a, h :: i < a < |chains| && h in chains[a] ==> h !in chains[i]
  {
    BucketParts(chains, nodes, i);
  }

  lemma FirstAndNext(chains: seq<seq<Handle>>, i: nat)
    requires i < |chains|
    ensures InFirst(chains, i + 1) == InFirst(chains, i) + Entries(chains[i])
  {
  }

  lemma AllMoved(chains: seq<seq<Handle>>, nodes: set<Handle>)
    requires Buckets(chains, nodes)
    ensures InFirst(chains, |chains|) == nodes
  {
    hide Slot;
  }

  /** The inner loop: every entry of one bucket goes to the front of its new bucket. */
  method MoveBucket(first: Handle?, ghost c: seq<Handle>, newList: array<Handle?>, ghost nodes: set<Handle>,
                    ghost newChains: seq<seq<Handle>>, ghost moved: set<Handle>)
    returns (ghost newChains': seq<seq<Handle>>)
    requires Chain(first, c) && NoTwins(c) && newList.Length == |newChains| > 0 && PowerOfTwo(newList.Length)
    requires forall h :: h in c ==> h in nodes && h !in moved
    requires LinkedIn(newList, nodes, newChains) && Buckets(newChains, moved)
    modifies newList, c`nextHash
    ensures |newChains'| == |newChains| && LinkedIn(newList, nodes, newChains')
            && Buckets(newChains', moved + Entries(c))
  {
    hide Slot, Buckets, LinkedIn, NoTwins;
    ChainLinks(first, c);
    DistinctIn(c);
    newChains' := newChains;
    var h := first;
    ghost var k := 0;
    assert moved + Entries(c[..0]) == moved;
    while h != null
      invariant 0 <= k <= |c| && h == At(c, k) && |newChains'| == |newChains|
      invariant forall j :: k <= j < |c| ==> c[j].nextHash == At(c, j + 1)
      invariant LinkedIn(newList, nodes, newChains') && Buckets(newChains', moved + Entries(c[..k]))
      decreases |c| - k
    {
      var next := h.nextHash;
      var b := Slot(h.hash, newList.Length);
      assert h == c[k] && h in c;
      EntriesNext(c, k, moved);
      PushedBuckets(newChains', moved + Entries(c[..k]), h);
      PushFront(newList, b, h, nodes, newChains');
      newChains' := newChains'[b := [h] + newChains'[b]];
      h := next;
      k := k + 1;
    }
    assert c[..k] == c;
  }

  ghost function Entries(c: seq<Handle>): set<Handle> { set h | h in c }

  lemma EntriesNext(c: seq<Handle>, k: nat, moved: set<Handle>)
    requires k < |c| && NoTwins(c) && forall h :: h in c ==> h !in moved
    ensures moved + Entries(c[..k + 1]) == moved + Entries(c[..k]) + {c[k]} && c[k] !in moved + Entries(c[..k])
  {
    assert c[..k + 1] == c[..k] + [c[k]];
  }

  lemma PushedBuckets(cs: seq<seq<Handle>>, moved: set<Handle>, h: Handle)
    requires Buckets(cs, moved) && h !in moved
    ensures var b := Slot(h.hash, |cs|); Buckets(cs[b := [h] + cs[b]], moved + {h})
    ensures forall a :: 0 <= a < |cs| ==> h !in cs[a]
  {
    hide Slot;
    var n, b := |cs|, Slot(h.hash, |cs|);
    var cs' := cs[b := [h] + cs[b]];
    forall a, g | 0 <= a < n && g in cs'[a]
      ensures g in moved + {h} && Slot(g.hash, n) == a
    {
      if a == b {
        assert g == h || g in cs[b];
      } else {
        assert g in cs[a];
      }
    }
    forall g | g in moved + {h}
      ensures g in cs'[Slot(g.hash, n)]
    {
      assert g == h || g in cs[Slot(g.hash, n)];
    }
  }

  method PushFront(list: array<Handle?>, b: nat, h: Handle, ghost nodes: set<Handle>, ghost cs: seq<seq<Handle>>)
    requires LinkedIn(list, nodes, cs) && b < list.Length == |cs| && h in nodes
    requires forall a :: 0 <= a < |cs| ==> h !in cs[a]
    modifies list, h`nextHash
    ensures LinkedIn(list, nodes, cs[b := [h] + cs[b]])
  {
    h.nextHash := list[b];
    list[b] := h;
    ghost var cs' := cs[b := [h] + cs[b]];
    forall a | 0 <= a < |cs'|
      ensures Chain(list[a], cs'[a]) && forall g :: g in cs'[a] ==> g in nodes
    {
      assert old(Chain(list[a], cs[a]));
      assert forall i :: 0 <= i < |cs[a]| ==> cs[a][i] in cs[a];
    }
  }

  /** A chain with h at position i, in place of the entry there. */
  ghost function With(c: seq<Handle>, i: nat, h: Handle): seq<Handle>
    requires i <= |c|
  {
    c[..i] + [h] + if i == |c| then [] else c[i + 1..]
  }

  lemma WithLinks(c: seq<Handle>, i: nat, h: Handle)
    requires i <= |c| && NoTwins(c) && h !in c && h.nextHash == At(c, i + 1)
    requires forall j :: 0 <= j < |c| ==> c[j].nextHash == At(c, j + 1)
    ensures Relinked(c, i, h, With(c, i, h))
    ensures forall g :: g in With(c, i, h) ==> g in c || g == h
  {
    var c' := With(c, i, h);
    forall j | i <= j < |c'|
      ensures c'[j].nextHash == At(c', j + 1) && c'[j] !in c[..i]
    {
      assert j > i ==> c'[j] == c[j];
    }
  }

  lemma MembersWith(c: seq<Handle>, i: nat, h: Handle)
    requires i <= |c| && NoTwins(c) && h !in c
    ensures NoTwins(With(c, i, h))
    ensures forall g :: g in With(c, i, h) <==> g == h || (g in c && (i < |c| ==> g != c[i]))
  {
    var c' := With(c, i, h);
    assert forall j :: 0 <= j < |c'| ==> c'[j] == if j == i then h else c[j];
    forall g | g in c && (i < |c| ==> g != c[i])
      ensures g in c'
    {
      var j :| 0 <= j < |c| && c[j] == g;
      assert c'[j] == g;
    }
  }

  lemma InsertedBuckets(chains: seq<seq<Handle>>, nodes: set<Handle>, b: nat, i: nat, h: Handle)
    requires Buckets(chains, nodes) && b < |chains| && i <= |chains[b]| && h !in nodes && Slot(h.hash, |chains|) == b
    ensures Buckets(chains[b := With(chains[b], i, h)], nodes + {h} - Gone(At(chains[b], i)))
  {
    hide Slot, NoTwins;
    var n, c, c' := |chains|, chains[b], With(chains[b], i, h);
    var chains' := chains[b := c'];
    assert h !in c;
    MembersWith(c, i, h);
    if i < |c| {
      assert c[i] in c;
      assert Slot(c[i].hash, n) == b;
    }
    var nodes' := nodes + {h} - Gone(At(c, i));
    forall a, g | 0 <= a < n && g in chains'[a]
      ensures g in nodes' && Slot(g.hash, n) == a
    {
      if a == b {
        assert g in c';
      } else {
        assert g in chains[a];
      }
    }
    forall g | g in nodes'
      ensures g in chains'[Slot(g.hash, n)]
    {
      assert g == h || g in chains[Slot(g.hash, n)];
    }
  }

  lemma RemovedBuckets(chains: seq<seq<Handle>>, nodes: set<Handle>, b: nat, i: nat, r: Handle)
    requires Buckets(chains, nodes) && b < |chains| && i < |chains[b]| && chains[b][i] == r
    ensures Buckets(chains[b := Without(chains[b], i)], nodes - {r})
  {
    hide Slot, NoTwins;
    var n, c' := |chains|, Without(chains[b], i);
    var chains' := chains[b := c'];
    MembersWithout(chains[b], i);
    assert r in chains[b];
    assert Slot(r.hash, n) == b;
    forall a, h | 0 <= a < n && h in chains'[a]
      ensures h in nodes - {r} && Slot(h.hash, n) == a
    {
      if a == b {
        assert h in c';
      }
      assert h in chains[a];
    }
    forall h | h in nodes - {r}
      ensures h in chains'[Slot(h.hash, n)]
    {
      assert h in chains[Slot(h.hash, n)];
    }
  }
}
