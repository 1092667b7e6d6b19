/** The sorted lists behind an internal iterator: memtables, level-0 tables one by one,
    deeper levels as one concatenation each. */
module Reading {
  import opened InternalKeys
  import opened Options
  import opened Files
  import opened Picking
  import opened Versions
  import opened VersionChanges
  import opened Merger
  import opened TwoLevel
  import opened DbIterator

  /** Sorted lists no two of which hold the same key. */
  ghost predicate ListsOk(lists: seq<seq<Entry>>) {
    && (forall i :: 0 <= i < |lists| ==> Sorted(lists[i]))
    && (forall i, j, d, e :: 0 <= i < j < |lists| && d in lists[i] && e in lists[j] ==> d.key != e.key)
  }

  ghost predicate InLists(lists: seq<seq<Entry>>, e: Entry) {
    exists i :: 0 <= i < |lists| && e in lists[i]
  }

  ghost predicate InFiles(fs: seq<File>, e: Entry) {
    exists f :: f in fs && e in f.entries
  }

  ghost predicate FilesApart(fs: seq<File>) {
    forall i, j, d, e :: 0 <= i < j < |fs| && d in fs[i].entries && e in fs[j].entries ==> d.key != e.key
  }

  lemma JoinLists(a: seq<seq<Entry>>, b: seq<seq<Entry>>)
    requires ListsOk(a) && ListsOk(b)
    requires forall d, e :: InLists(a, d) && InLists(b, e) ==> d.key != e.key
    ensures ListsOk(a + b)
    ensures forall e :: InLists(a + b, e) <==> InLists(a, e) || InLists(b, e)
  {
    forall e
      ensures InLists(a + b, e) <==> InLists(a, e) || InLists(b, e)
    {
      if i :| 0 <= i < |a| && e in a[i] {
        assert e in (a + b)[i];
      }
      if i :| 0 <= i < |b| && e in b[i] {
        assert e in (a + b)[|a| + i];
      }
    }
  }

  function BlockOf(f: File): Block { Block(f.largest, f.entries) }

  function BlocksOf(fs: seq<File>): seq<Block> { seq(|fs|, i requires 0 <= i < |fs| => BlockOf(fs[i])) }

  /** Files in order form the blocks of a concatenating iterator. */
  lemma FilesAreBlocks(fs: seq<File>)
    requires Ascending(fs) && forall f :: f in fs ==> FileOk(f)
    ensures BlocksOk(BlocksOf(fs))
    ensures forall e :: InBlocks(BlocksOf(fs), e) <==> InFiles(fs, e)
  {
    var blocks := BlocksOf(fs);
    forall i, e | 0 <= i < |fs| && e in fs[i].entries
      ensures !Less(fs[i].largest, e.key) && !Less(e.key, fs[i].smallest)
    {
      assert fs[i] in fs;
      EntryInRange(fs[i], e);
    }
    forall i | 0 <= i < |fs|
      ensures Sorted(fs[i].entries) && !Less(fs[i].largest, fs[i].smallest)
    {
      assert fs[i] in fs;
    }
    forall e
      ensures InBlocks(blocks, e) <==> InFiles(fs, e)
    {
      BlockEntries(fs, e);
    }
  }

  lemma BlockEntries(fs: seq<File>, e: Entry)
    ensures InBlocks(BlocksOf(fs), e) <==> InFiles(fs, e)
  {
    var blocks := BlocksOf(fs);
    if i :| 0 <= i < |blocks| && e in blocks[i].entries {
      assert fs[i] in fs;
    }
    if f :| f in fs && e in f.entries {
      var i :| 0 <= i < |fs| && fs[i] == f;
      assert e in blocks[i].entries;
    }
  }

  /** The iterators over one level's files: one each at level 0, else one for all. */
  method FileLists(fs: seq<File>, level0: bool) returns (lists: seq<seq<Entry>>)
    requires forall f :: f in fs ==> FileOk(f)
    requires if level0 then FilesApart(fs) else Ascending(fs)
    ensures ListsOk(lists) && forall e :: InLists(lists, e) <==> InFiles(fs, e)
    ensures fs == [] ==> lists == []
  {
    lists := [];
    if level0 {
      var i := 0;
      while i < |fs|
        invariant 0 <= i <= |fs| == |fs| && |lists| == i
        invariant forall j :: 0 <= j < i ==> lists[j] == fs[j].entries
      {
        lists := lists + [fs[i].entries];
        i := i + 1;
      }
      OnePerFile(fs, lists);
    } else if fs != [] {
      FilesAreBlocks(fs);
      ConcatSorted(BlocksOf(fs));
      lists := [Concat(BlocksOf(fs))];
      OneList(lists[0], lists);
    }
  }

  lemma OneList(list: seq<Entry>, lists: seq<seq<Entry>>)
    requires lists == [list] && Sorted(list)
    ensures ListsOk(lists) && forall e :: InLists(lists, e) <==> e in list
  {
    forall e | e in list
      ensures InLists(lists, e)
    {
      assert e in lists[0];
    }
  }

  lemma OnePerFile(fs: seq<File>, lists: seq<seq<Entry>>)
    requires forall f :: f in fs ==> FileOk(f)
    requires FilesApart(fs) && |lists| == |fs| && forall j :: 0 <= j < |fs| ==> lists[j] == fs[j].entries
    ensures ListsOk(lists) && forall e :: InLists(lists, e) <==> InFiles(fs, e)
  {
    hide Less, Sorted;
    forall e
      ensures InLists(lists, e) <==> InFiles(fs, e)
    {
      if i :| 0 <= i < |lists| && e in lists[i] {
        assert fs[i] in fs;
      }
      if f :| f in fs && e in f.entries {
        var i :| 0 <= i < |fs| && fs[i] == f;
        assert e in lists[i];
      }
    }
    forall i | 0 <= i < |lists|
      ensures Sorted(lists[i])
    {
      assert fs[i] in fs;
    }
  }

  /** Level-0 files never hold the same key twice: the newer file's entries are newer. */
  lemma Level0Apart(levels: Levels, fs: seq<File>)
    requires Shape(levels) && Recency(levels)
    requires forall f :: f in fs ==> f in levels[0]
    requires Unrepeated(fs)
    ensures FilesApart(fs)
  {
    forall i, j, d, e | 0 <= i < j < |fs| && d in fs[i].entries && e in fs[j].entries
      ensures d.key != e.key
    {
      var f, g := fs[i], fs[j];
      assert f in fs && g in fs;
      assert InLevel(levels, 0, f) && InLevel(levels, 0, g);
      assert f.number != g.number;
      if f.number > g.number {
        assert FileNewer(f, g);
      } else {
        assert FileNewer(g, f);
      }
    }
  }

  /** Version::AddIterators. */
  method AddIterators(levels: Levels) returns (lists: seq<seq<Entry>>)
    requires Shape(levels) && Recency(levels)
    ensures ListsOk(lists) && forall e :: InLists(lists, e) <==> Holds(levels, e)
  {
    hide Recency, FileOk, SortedLevel, Apart, ListsOk, FilesApart, Ascending;
    ShapeGivesRanges(levels);
    Level0Apart(levels, levels[0]);
    assert forall l, f :: 0 <= l < NUM_LEVELS && f in levels[l] ==> InLevel(levels, l, f);
    lists := FileLists(levels[0], true);
    var l := 1;
    while l < NUM_LEVELS
      invariant 1 <= l <= NUM_LEVELS && ListsOk(lists)
      invariant forall e :: InLists(lists, e) <==> HeldAbove(levels, l, e)
    {
      var more := FileLists(levels[l], false);
      LevelAddsKeys(levels, l, lists, more);
      lists := lists + more;
      l := l + 1;
    }
  }

  ghost predicate HeldAbove(levels: Levels, n: nat, e: Entry) {
    exists l, f :: l < n && InLevel(levels, l, f) && e in f.entries
  }

  lemma LevelAddsKeys(levels: Levels, l: nat, lists: seq<seq<Entry>>, more: seq<seq<Entry>>)
    requires |levels| == NUM_LEVELS && Recency(levels) && l < NUM_LEVELS
    requires ListsOk(lists) && forall e :: InLists(lists, e) <==> HeldAbove(levels, l, e)
    requires ListsOk(more) && forall e :: InLists(more, e) <==> InFiles(levels[l], e)
    ensures ListsOk(lists + more) && forall e :: InLists(lists + more, e) <==> HeldAbove(levels, l + 1, e)
  {
    hide ListsOk, InLists;
    forall d, e | InLists(lists, d) && InLists(more, e)
      ensures d.key != e.key
    {
      var m, f :| m < l && InLevel(levels, m, f) && d in f.entries;
      var g :| g in levels[l] && e in g.entries;
      assert InLevel(levels, l, g) && FileNewer(f, g);
    }
    JoinLists(lists, more);
    forall e
      ensures HeldAbove(levels, l + 1, e) <==> HeldAbove(levels, l, e) || InFiles(levels[l], e)
    {
      if f :| f in levels[l] && e in f.entries {
        assert InLevel(levels, l, f);
      }
    }
  }

  /** Only the inputs of a compaction: VersionSet::MakeInputIterator. */
  method MakeInputLists(levels: Levels, c: Inputs) returns (lists: seq<seq<Entry>>)
    requires Shape(levels) && Recency(levels) && InputsIn(levels, c) && c.level + 1 < NUM_LEVELS
    requires InOrder(c)
    ensures ListsOk(lists) && forall e :: InLists(lists, e) <==> InInputs(c, e)
  {
    hide Recency, FileOk, SortedLevel, Apart, ListsOk, FilesApart, Ascending;
    forall f | f in c.upper
      ensures InLevel(levels, c.level, f)
    {
      assert IsInput(c, c.level, f);
    }
    forall f | f in c.lower
      ensures InLevel(levels, c.level + 1, f)
    {
      assert IsInput(c, c.level + 1, f);
    }
    if c.level == 0 {
      Level0Apart(levels, c.upper);
    }
    var upper := FileLists(c.upper, c.level == 0);
    var lower := FileLists(c.lower, false);
    InputsSplit(levels, c, upper, lower);
    lists := upper + lower;
  }

  lemma InputsSplit(levels: Levels, c: Inputs, upper: seq<seq<Entry>>, lower: seq<seq<Entry>>)
    requires Recency(levels) && InputsIn(levels, c)
    requires ListsOk(upper) && forall e :: InLists(upper, e) <==> InFiles(c.upper, e)
    requires ListsOk(lower) && forall e :: InLists(lower, e) <==> InFiles(c.lower, e)
    ensures ListsOk(upper + lower) && forall e :: InLists(upper + lower, e) <==> InInputs(c, e)
  {
    hide ListsOk, InLists;
    forall d, e | InLists(upper, d) && InLists(lower, e)
      ensures d.key != e.key
    {
      var f :| f in c.upper && d in f.entries;
      var g :| g in c.lower && e in g.entries;
      assert IsInput(c, c.level, f) && IsInput(c, c.level + 1, g);
      assert FileNewer(f, g);
    }
    JoinLists(upper, lower);
    forall e
      ensures InInputs(c, e) <==> InFiles(c.upper, e) || InFiles(c.lower, e)
    {
      if f :| f in c.upper && e in f.entries {
        assert IsInput(c, c.level, f);
      }
      if f :| f in c.lower && e in f.entries {
        assert IsInput(c, c.level + 1, f);
      }
    }
  }

  /** A merging iterator over sorted lists that share no key. */
  method MergeLists(lists: seq<seq<Entry>>, ghost bound: nat) returns (iter: MergingIterator)
    requires ListsOk(lists)
    ensures fresh(iter) && fresh(iter.children)
    ensures iter.Inv() && !iter.Valid() && iter.bound == bound
    ensures forall e :: e in iter.All() <==> InLists(lists, e)
  {
    var cursors := seq(|lists|, i requires 0 <= i < |lists| => Cursor(lists[i], None));
    iter := new MergingIterator(cursors, bound);
    forall e
      ensures e in Union(cursors) <==> InLists(lists, e)
    {
      if i :| 0 <= i < |lists| && e in lists[i] {
        assert e in cursors[i].list;
      }
    }
  }

  lemma KeysIdentify(lists: seq<seq<Entry>>)
    requires ListsOk(lists)
    ensures forall d, e :: InLists(lists, d) && InLists(lists, e) && d.key == e.key ==> d == e
  {
    hide Less, Sorted;
    forall d, e | InLists(lists, d) && InLists(lists, e) && d.key == e.key
      ensures d == e
    {
      var i :| 0 <= i < |lists| && d in lists[i];
      var j :| 0 <= j < |lists| && e in lists[j];
      if i == j {
        OneKeyOnce(lists[i], d, e);
      }
    }
  }

  lemma OneKeyOnce(list: seq<Entry>, d: Entry, e: Entry)
    requires Sorted(list) && d in list && e in list && d.key == e.key
    ensures d == e
  {
    var a :| 0 <= a < |list| && list[a] == d;
    var b :| 0 <= b < |list| && list[b] == e;
    assert a < b ==> Less(d.key, e.key);
    assert b < a ==> Less(e.key, d.key);
  }

  /** Everything an internal iterator yields from first to last: the sorted union. */
  method Drain(lists: seq<seq<Entry>>) returns (input: seq<Entry>)
    requires ListsOk(lists)
    requires forall e :: InLists(lists, e) ==> e.key.sequence <= MAX_SEQUENCE
    ensures Sorted(input) && forall e :: e in input <==> InLists(lists, e)
  {
    hide ListsOk, InLists, CursorsOk, Ahead, Behind, Union, Less;
    var iter := MergeLists(lists, MAX_SEQUENCE);
    ghost var all := iter.All();
    KeysIdentify(lists);
    iter.SeekToFirst();
    input := [];
    while iter.Valid()
      invariant iter.Inv() && iter.All() == all && iter.bound == MAX_SEQUENCE
      invariant iter.Valid() ==> iter.Cur() in all
      invariant Drained(all, input, if iter.Valid() then Some(iter.Cur()) else None)
      decreases if iter.Valid() then {iter.Cur()} + EntriesAfter(all, iter.Key()) else {}
    {
      var x := iter.Cur();
      input := input + [x];
      iter.Next();
      DrainStep(all, input[..|input| - 1], x, if iter.Valid() then Some(iter.Cur()) else None);
    }
  }

  /** `input` is everything before the entry the iterator stands on. */
  ghost predicate Drained(all: set<Entry>, input: seq<Entry>, at: Option<Entry>) {
    && Sorted(input)
    && (at.Some? ==> at.value in all)
    && forall e :: e in input <==> e in all && (at.Some? ==> Less(e.key, at.value.key))
  }

  lemma DrainStep(all: set<Entry>, input: seq<Entry>, x: Entry, next: Option<Entry>)
    requires Drained(all, input, Some(x))
    requires forall d, e :: d in all && e in all && d.key == e.key ==> d == e
    requires next.Some? ==> next.value in all && Less(x.key, next.value.key)
    requires forall e :: e in all && Less(x.key, e.key) && (next.Some? ==> Less(e.key, next.value.key)) ==> false
    ensures Drained(all, input + [x], next)
    ensures next.Some? ==> {next.value} + EntriesAfter(all, next.value.key) < {x} + EntriesAfter(all, x.key)
  {
    forall e
      ensures e in input + [x] <==> e in all && (next.Some? ==> Less(e.key, next.value.key))
    {
      if e in all && !Less(e.key, x.key) && !Less(x.key, e.key) {
        assert e.key == x.key;
      }
    }
    if next.Some? {
      assert x !in {next.value} + EntriesAfter(all, next.value.key);
    }
  }
}
