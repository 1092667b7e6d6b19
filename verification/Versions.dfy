/** Versions: the levels of table files, their invariant, and reading through them. */
module Versions {
  import opened InternalKeys
  import opened Options
  import opened Files
  import opened Picking

  /** Every entry of f is newer than any entry of g for the same user key. */
  ghost predicate FileNewer(f: File, g: File) {
    forall a, b :: a in f.entries && b in g.entries && a.key.user == b.key.user ==> a.key.sequence > b.key.sequence
  }

  ghost predicate Apart(f: File, g: File) {
    Hi(f) < Lo(g) || Hi(g) < Lo(f)
  }

  /** The order in which a level lists its files. */
  predicate BySmallest(f: File, g: File) {
    Less(f.smallest, g.smallest) || (f.smallest == g.smallest && f.number < g.number)
  }

  predicate SortedLevel(files: seq<File>) {
    forall i, j :: 0 <= i < j < |files| ==> BySmallest(files[i], files[j])
  }

  ghost predicate InLevel(levels: Levels, l: int, f: File) {
    0 <= l < |levels| && f in levels[l]
  }

  /** The shape of a version: seven sorted levels of well-formed files with their
      own numbers; below level 0 no two files of a level share a user key. */
  ghost predicate Shape(levels: Levels) {
    && |levels| == NUM_LEVELS
    && (forall l, f :: InLevel(levels, l, f) ==> FileOk(f))
    && (forall l :: 0 <= l < NUM_LEVELS ==> SortedLevel(levels[l]))
    && (forall l, f, g :: l > 0 && InLevel(levels, l, f) && InLevel(levels, l, g) && f != g ==> Apart(f, g))
    && (forall l, m, f, g :: InLevel(levels, l, f) && InLevel(levels, m, g) && f.number == g.number ==>
         f == g && l == m)
  }

  /** Newer entries sit in shallower levels; at level 0, in higher-numbered files. */
  ghost predicate Recency(levels: Levels) {
    && (forall l, m, f, g :: l < m && InLevel(levels, l, f) && InLevel(levels, m, g) ==> FileNewer(f, g))
    && (forall f, g :: InLevel(levels, 0, f) && InLevel(levels, 0, g) && f.number > g.number ==> FileNewer(f, g))
  }

  ghost predicate Holds(levels: Levels, e: Entry) {
    exists l, f :: InLevel(levels, l, f) && e in f.entries
  }

  lemma ShapeGivesRanges(levels: Levels)
    requires Shape(levels)
    ensures RangesOk(levels)
    ensures forall l, f :: InLevel(levels, l, f) ==> Lo(f) <= Hi(f)
    ensures forall l :: 1 <= l < NUM_LEVELS ==> Ascending(levels[l])
  {
    forall l, f | InLevel(levels, l, f)
      ensures RangeOk(f) && Lo(f) <= Hi(f)
    {
      RangeOrdered(f);
    }
    forall l, f | 0 <= l < NUM_LEVELS && f in levels[l]
      ensures RangeOk(f)
    {
      assert InLevel(levels, l, f);
    }
    forall l | 1 <= l < NUM_LEVELS
      ensures Ascending(levels[l])
    {
      LevelAscends(levels, l);
    }
    forall i, j | 0 <= i < j < |levels[0]|
      ensures levels[0][i] != levels[0][j]
    {
      assert BySmallest(levels[0][i], levels[0][j]);
    }
  }

  lemma LevelAscends(levels: Levels, l: nat)
    requires Shape(levels) && 1 <= l < NUM_LEVELS
    requires forall f :: f in levels[l] ==> RangeOk(f)
    ensures Ascending(levels[l])
    ensures forall i, j :: 0 <= i < j < |levels[l]| ==> Hi(levels[l][i]) < Lo(levels[l][j])
  {
    var files := levels[l];
    forall i, j | 0 <= i < j < |files|
      ensures Less(files[i].largest, files[j].smallest) && Hi(files[i]) < Lo(files[j])
    {
      assert BySmallest(files[i], files[j]);
      assert InLevel(levels, l, files[i]) && InLevel(levels, l, files[j]);
      assert files[i] != files[j];
      assert Apart(files[i], files[j]);
    }
  }

  // ---------- Reading ----------

  /** r is the newest entry of k visible at s in one table, if there is one. */
  ghost predicate AnswersIn(es: seq<Entry>, k: UserKey, s: nat, r: Option<Entry>) {
    && (r.None? ==> forall e :: e in es ==> !Visible(e, k, s))
    && (r.Some? ==> r.value in es && Visible(r.value, k, s)
                    && forall e :: e in es && Visible(e, k, s) ==> e.key.sequence <= r.value.key.sequence)
  }

  /** One table: position at the lookup key and check the user key found there.
      A memtable is read in the same way. */
  method TableGet(es: seq<Entry>, k: UserKey, s: nat) returns (r: Option<Entry>)
    requires Sorted(es)
    ensures AnswersIn(es, k, s, r)
  {
    var i := SeekIndex(es, LookupKey(k, s));
    if i < |es| && es[i].key.user == k {
      r := Some(es[i]);
      forall e | e in es && Visible(e, k, s)
        ensures e.key.sequence <= es[i].key.sequence
      {
        var j :| 0 <= j < |es| && es[j] == e;
        assert j == i || i < j;
      }
    } else {
      r := None;
      forall e | e in es
        ensures !Visible(e, k, s)
      {
        var j :| 0 <= j < |es| && es[j] == e;
        assert i < j ==> Less(es[i].key, es[j].key);
      }
    }
  }

  /** r is the newest entry of k visible at s anywhere in the version, if there is one. */
  ghost predicate Answers(levels: Levels, k: UserKey, s: nat, r: Option<Entry>) {
    && (r.None? ==> forall e :: Holds(levels, e) ==> !Visible(e, k, s))
    && (r.Some? ==> Holds(levels, r.value) && Visible(r.value, k, s)
                    && forall e :: Holds(levels, e) && Visible(e, k, s) ==> e.key.sequence <= r.value.key.sequence)
  }

  ghost predicate NewestFirst(fs: seq<File>) {
    forall i, j :: 0 <= i < j < |fs| ==> fs[i].number > fs[j].number
  }

  method InsertNewestFirst(fs: seq<File>, f: File) returns (r: seq<File>)
    requires NewestFirst(fs) && forall g :: g in fs ==> g.number != f.number
    ensures NewestFirst(r) && forall g :: g in r <==> g in fs || g == f
  {
    var j := 0;
    while j < |fs| && fs[j].number > f.number
      invariant 0 <= j <= |fs|
      invariant forall m :: 0 <= m < j ==> fs[m].number > f.number
    {
      j := j + 1;
    }
    forall m | j <= m < |fs|
      ensures f.number > fs[m].number
    {
      assert fs[j] in fs;
    }
    InsertKeepsOrder(fs, j, f);
    r := fs[..j] + [f] + fs[j..];
  }

  lemma InsertKeepsOrder(fs: seq<File>, j: nat, f: File)
    requires NewestFirst(fs) && j <= |fs|
    requires forall m :: 0 <= m < j ==> fs[m].number > f.number
    requires forall m :: j <= m < |fs| ==> f.number > fs[m].number
    ensures NewestFirst(fs[..j] + [f] + fs[j..])
    ensures forall g :: g in fs[..j] + [f] + fs[j..] <==> g in fs || g == f
  {
    assert fs == fs[..j] + fs[j..];
  }

  /** Sort by decreasing file number. */
  method SortNewestFirst(fs: seq<File>) returns (r: seq<File>)
    requires forall i, j :: 0 <= i < j < |fs| ==> fs[i].number != fs[j].number
    ensures NewestFirst(r) && forall f :: f in r <==> f in fs
  {
    r := [];
    var i := 0;
    while i < |fs|
      invariant 0 <= i <= |fs|
      invariant NewestFirst(r) && forall f :: f in r <==> f in fs[..i]
    {
      assert fs[..i + 1] == fs[..i] + [fs[i]];
      r := InsertNewestFirst(r, fs[i]);
      i := i + 1;
    }
    assert fs[..|fs|] == fs;
  }

  /** Version::Get: level 0 from the newest file to the oldest, then one file per
      deeper level, stopping at the first hit. */
  method VersionGet(levels: Levels, k: UserKey, s: nat) returns (r: Option<Entry>)
    requires Shape(levels) && Recency(levels)
    ensures Answers(levels, k, s, r)
  {
    var tmp: seq<File> := [];
    var i := 0;
    while i < |levels[0]|
      invariant 0 <= i <= |levels[0]|
      invariant forall f :: f in tmp <==> f in levels[0][..i] && Contains(f, k)
      invariant forall a, b :: 0 <= a < b < |tmp| ==> tmp[a].number != tmp[b].number
    {
      var f := levels[0][i];
      assert levels[0][..i + 1] == levels[0][..i] + [f];
      if k >= Lo(f) && k <= Hi(f) {
        forall a | 0 <= a < |tmp|
          ensures tmp[a].number != f.number
        {
          assert tmp[a] in tmp;
          var b :| 0 <= b < i && levels[0][b] == tmp[a];
          assert BySmallest(levels[0][b], levels[0][i]);
          assert InLevel(levels, 0, tmp[a]) && InLevel(levels, 0, f);
        }
        tmp := tmp + [f];
      }
      i := i + 1;
    }
    assert levels[0][..|levels[0]|] == levels[0];
    tmp := SortNewestFirst(tmp);
    i := 0;
    while i < |tmp|
      invariant 0 <= i <= |tmp|
      invariant forall j, e :: 0 <= j < i && e in tmp[j].entries ==> !Visible(e, k, s)
    {
      assert InLevel(levels, 0, tmp[i]);
      r := TableGet(tmp[i].entries, k, s);
      if r.Some? {
        FirstHitAtLevel0(levels, k, s, tmp, i, r.value);
        return;
      }
      i := i + 1;
    }
    ShapeGivesRanges(levels);
    var l := 1;
    MissAtLevel0(levels, k, s, tmp);
    while l < NUM_LEVELS
      invariant 1 <= l <= NUM_LEVELS
      invariant NoneAbove(levels, k, s, l)
    {
      var files := levels[l];
      var index := FindFile(files, LookupKey(k, s));
      if index < |files| && k >= Lo(files[index]) {
        assert InLevel(levels, l, files[index]);
        r := TableGet(files[index].entries, k, s);
        if r.Some? {
          FirstHit(levels, k, s, l, index, r.value);
          return;
        }
      }
      MissAtLevel(levels, k, s, l, index);
      l := l + 1;
    }
    return None;
  }

  /** No level above l holds an entry of k visible at s. */
  ghost predicate NoneAbove(levels: Levels, k: UserKey, s: nat, l: nat) {
    forall m, f, e :: m < l && InLevel(levels, m, f) && e in f.entries ==> !Visible(e, k, s)
  }

  lemma MissAtLevel0(levels: Levels, k: UserKey, s: nat, tmp: seq<File>)
    requires Shape(levels)
    requires forall f :: f in tmp <==> f in levels[0] && Contains(f, k)
    requires forall j, e :: 0 <= j < |tmp| && e in tmp[j].entries ==> !Visible(e, k, s)
    ensures NoneAbove(levels, k, s, 1)
  {
    forall m, f, e | m < 1 && InLevel(levels, m, f) && e in f.entries
      ensures !Visible(e, k, s)
    {
      EntryInRange(f, e);
      if Contains(f, k) {
        assert f in tmp;
      }
    }
  }

  lemma FirstHitAtLevel0(levels: Levels, k: UserKey, s: nat, tmp: seq<File>, i: nat, hit: Entry)
    requires Shape(levels) && Recency(levels)
    requires forall f :: f in tmp <==> f in levels[0] && Contains(f, k)
    requires NewestFirst(tmp) && i < |tmp|
    requires forall j, e :: 0 <= j < i && e in tmp[j].entries ==> !Visible(e, k, s)
    requires AnswersIn(tmp[i].entries, k, s, Some(hit))
    ensures Answers(levels, k, s, Some(hit))
  {
    assert InLevel(levels, 0, tmp[i]);
    forall e | Holds(levels, e) && Visible(e, k, s)
      ensures e.key.sequence <= hit.key.sequence
    {
      var l, f :| InLevel(levels, l, f) && e in f.entries;
      EntryInRange(f, e);
      if l == 0 {
        assert f in tmp;
        var j :| 0 <= j < |tmp| && tmp[j] == f;
        if i < j {
          assert FileNewer(tmp[i], f);
        }
      } else {
        assert FileNewer(tmp[i], f);
      }
    }
  }

  lemma FirstHit(levels: Levels, k: UserKey, s: nat, l: nat, index: nat, hit: Entry)
    requires Shape(levels) && Recency(levels) && 1 <= l < NUM_LEVELS && index < |levels[l]|
    requires NoneAbove(levels, k, s, l)
    requires AnswersIn(levels[l][index].entries, k, s, Some(hit))
    ensures Answers(levels, k, s, Some(hit))
  {
    var g := levels[l][index];
    assert InLevel(levels, l, g);
    EntryInRange(g, hit);
    forall e | Holds(levels, e) && Visible(e, k, s)
      ensures e.key.sequence <= hit.key.sequence
    {
      var m, f :| InLevel(levels, m, f) && e in f.entries;
      EntryInRange(f, e);
      if m > l {
        assert FileNewer(g, f);
      } else if m == l {
        assert f == g || Apart(f, g);
      }
    }
  }

  lemma MissAtLevel(levels: Levels, k: UserKey, s: nat, l: nat, index: nat)
    requires Shape(levels) && 1 <= l < NUM_LEVELS && index <= |levels[l]|
    requires NoneAbove(levels, k, s, l)
    requires forall i :: 0 <= i < index ==> Less(levels[l][i].largest, LookupKey(k, s))
    requires forall i :: index <= i < |levels[l]| ==> !Less(levels[l][i].largest, LookupKey(k, s))
    requires index < |levels[l]| ==>
               k < Lo(levels[l][index]) || forall e :: e in levels[l][index].entries ==> !Visible(e, k, s)
    ensures NoneAbove(levels, k, s, l + 1)
  {
    ShapeGivesRanges(levels);
    LevelAscends(levels, l);
    var files := levels[l];
    forall f, e | InLevel(levels, l, f) && e in f.entries
      ensures !Visible(e, k, s)
    {
      EntryInRange(f, e);
      var i :| 0 <= i < |files| && files[i] == f;
      if i < index {
        assert Less(files[i].largest, LookupKey(k, s));
      } else if index < i {
        assert Hi(files[index]) < Lo(files[i]);
        assert !Less(files[index].largest, LookupKey(k, s));
      }
    }
  }
}
