/** Compactions under arbitrary snapshots: neighbours in a level may share a user key. */
module SnapshotReads {
  import opened Options
  import opened InternalKeys
  import opened Files
  import opened Selection
  import opened Picking
  import opened Compacting
  import opened Versions
  import opened VersionChanges

  predicate SameVersion(a: Entry, b: Entry) {
    a.key.user == b.key.user && a.key.sequence == b.key.sequence
  }

  /** Beside a run that no boundary file continues, whatever shares a user key with it is
      newer: two neighbours may share one, and then the first of them holds the newer entries. */
  lemma BesideRunIsNewer(files: seq<File>, upper: seq<File>, key: InternalKey, f: File, g: File)
    requires Ascending(files) && IsRun(files, upper) && NoBoundaryLeft(files, upper, key)
    requires f in upper && g in files && g !in upper && FileOk(f) && FileOk(g)
    requires forall a, b :: a in g.entries && b in f.entries && SameVersion(a, b) ==> a == b
    ensures FileNewer(g, f)
  {
    hide Ascending, NoBoundaryLeft, FileOk;
    var i, j :| 0 <= i <= j <= |files| && upper == files[i..j];
    var n :| i <= n < j && files[n] == f;
    var m :| 0 <= m < |files| && files[m] == g;
    assert m < i || j <= m by { OutsideRun(files, i, j, m); }
    forall a, b | a in g.entries && b in f.entries && a.key.user == b.key.user
      ensures a.key.sequence > b.key.sequence
    {
      EntryInRange(g, a);
      EntryInRange(f, b);
      if m < i {
        BeforeIsNewer(files, m, n, a, b);
      } else {
        LastIsLargest(files, i, j, key) by { KeyIsLargest(files, upper, key); }
        BehindSharesNoKey(files, j, m, n, a, b, key) by { NoneIsBoundary(files, upper, key); }
      }
    }
  }

  lemma OutsideRun(files: seq<File>, i: nat, j: nat, m: nat)
    requires i <= j <= |files| && m < |files| && files[m] !in files[i..j]
    ensures m < i || j <= m
  {
  }

  lemma KeyIsLargest(files: seq<File>, fs: seq<File>, key: InternalKey)
    requires NoBoundaryLeft(files, fs, key)
    ensures (exists f :: f in fs && f.largest == key) && forall f :: f in fs ==> !Less(key, f.largest)
  {
  }

  lemma NoneIsBoundary(files: seq<File>, fs: seq<File>, key: InternalKey)
    requires NoBoundaryLeft(files, fs, key)
    ensures forall f :: f in files ==> !IsBoundary(f, key)
  {
  }

  lemma BeforeIsNewer(files: seq<File>, m: nat, n: nat, a: Entry, b: Entry)
    requires Ascending(files) && m < n < |files| && a.key.user == b.key.user
    requires !Less(files[m].largest, a.key) && !Less(b.key, files[n].smallest)
    ensures a.key.sequence >= b.key.sequence && a != b
  {
    assert Less(files[m].largest, files[n].smallest);
  }

  lemma BehindSharesNoKey(files: seq<File>, j: nat, m: nat, n: nat, a: Entry, b: Entry, key: InternalKey)
    requires Ascending(files) && n < j <= m < |files| && key == files[j - 1].largest
    requires !Less(a.key, files[m].smallest) && !Less(files[n].largest, b.key)
    requires forall f :: f in files ==> !IsBoundary(f, key)
    ensures a.key.user != b.key.user
  {
    assert Less(key, files[j].smallest) && (j == m || Less(files[j].largest, files[m].smallest));
    assert n == j - 1 || Less(files[n].largest, files[j - 1].smallest);
    assert files[j] in files && !IsBoundary(files[j], key);
  }

  ghost predicate FilesOk(levels: Levels) {
    forall l, f :: InLevel(levels, l, f) ==> FileOk(f)
  }

  ghost predicate DistinctEntries(levels: Levels) {
    forall d, e :: Holds(levels, d) && Holds(levels, e) && SameVersion(d, e) ==> d == e
  }

  /** Files of the output level that are not inputs share no user key with the inputs. */
  ghost predicate LowerApart(levels: Levels, c: Inputs) {
    forall g :: InLevel(levels, c.level + 1, g) && g !in c.lower ==> SharesNoKey(c, g)
  }

  /** Selected inputs may be merged, although neighbours may share user keys: boundary files
      see to it at the upper level. */
  lemma SelectedIsSafeToRead(levels: Levels, c: Inputs, snapshot: nat)
    requires RangesOk(levels) && FilesOk(levels) && DistinctEntries(levels)
    requires Selected(levels, c) && LowerApart(levels, c)
    ensures SafeToRead(levels, Job(c, levels, snapshot))
  {
    hide FileOk, Ascending, SharesNoKey, FileNewer, Gapless, IsMeeting, NoBoundaryLeft, IsRun;
    SelectedSpan(levels, c);
    forall f, g | f in c.upper && InLevel(levels, c.level, g) && g !in c.upper
      ensures FileNewer(g, f)
    {
      assert InLevel(levels, c.level, f);
      if c.level > 0 {
        forall a, b | a in g.entries && b in f.entries && SameVersion(a, b)
          ensures a == b
        {
          assert Holds(levels, a) && Holds(levels, b);
        }
        BesideRunIsNewer(levels[c.level], c.upper, c.largest, f, g);
      } else {
        IsolatedSharesNoKey(levels, c, f, g);
      }
    }
  }

  lemma IsolatedSharesNoKey(levels: Levels, c: Inputs, f: File, g: File)
    requires Fit(levels, c) && c.level == 0 && FilesOk(levels)
    requires f in c.upper && InLevel(levels, 0, g) && g !in c.upper
    ensures FileNewer(g, f)
  {
    assert InLevel(levels, 0, f);
    forall a, b | a in g.entries && b in f.entries
      ensures a.key.user != b.key.user
    {
      EntryInRange(g, a);
      EntryInRange(f, b);
    }
  }

  /** The same version, or one with one more table, flushed from memory. */
  ghost predicate Flushed(levels: Levels, levels': Levels) {
    exists f, P: nat ::
      && FileOk(f) && FlushLevel(levels, Lo(f), Hi(f), P)
      && (forall l, g :: InLevel(levels, l, g) ==> FileNewer(f, g))
      && Replaced(levels, levels', P - 1, [], [], [f])
  }

  lemma FlushKeepsSafeToRead(levels: Levels, levels': Levels, job: Job)
    requires Flushed(levels, levels') && SafeToRead(levels, job)
    requires Selected(job.base, job.inputs) && |job.base| == NUM_LEVELS
    ensures SafeToRead(levels', job)
  {
    hide FileOk, FileNewer, SharesNoKey, FlushLevel, SortedLevel;
    var c := job.inputs;
    var f, P: nat :| FileOk(f) && FlushLevel(levels, Lo(f), Hi(f), P)
      && (forall l, g :: InLevel(levels, l, g) ==> FileNewer(f, g)) && Replaced(levels, levels', P - 1, [], [], [f]);
    if P >= c.level + 1 {
      FlushedSharesNoKey(levels, job, f, P);
    }
    forall h, g | h in c.upper && InLevel(levels', c.level, g) && g !in c.upper
      ensures FileNewer(g, h)
    {
      assert IsInput(c, c.level, h);
    }
  }

  /** The inputs leave no gap for a flushed table to fall into. */
  lemma FlushedSharesNoKey(levels: Levels, job: Job, f: File, P: nat)
    requires SafeToRead(levels, job) && Selected(job.base, job.inputs) && |job.base| == NUM_LEVELS
    requires FileOk(f) && FlushLevel(levels, Lo(f), Hi(f), P) && P >= job.inputs.level + 1
    ensures SharesNoKey(job.inputs, f)
  {
    var c := job.inputs;
    SelectedSpan(job.base, c);
    forall a, b | a in f.entries && InInputs(c, b)
      ensures a.key.user != b.key.user
    {
      var l, h :| IsInput(c, l, h) && b in h.entries;
      assert InLevel(levels, l, h) && InLevel(job.base, l, h);
      EntryInRange(h, b);
      EntryInRange(f, a);
    }
  }

  /** Versions one after the other, with flushes in between. */
  ghost predicate FlushesOnly(versions: seq<Levels>) {
    versions != [] && forall i :: 0 < i < |versions| ==> Flushed(versions[i - 1], versions[i])
  }

  lemma {:induction false} StaysSafeToRead(versions: seq<Levels>, job: Job)
    requires FlushesOnly(versions) && SafeToRead(versions[0], job) && Selected(job.base, job.inputs)
    requires |job.base| == NUM_LEVELS
    ensures SafeToRead(versions[|versions| - 1], job)
    decreases |versions|
  {
    hide Flushed, SafeToRead, Selected;
    var n := |versions| - 1;
    if n > 0 {
      assert FlushesOnly(versions[..n]);
      StaysSafeToRead(versions[..n], job);
      FlushKeepsSafeToRead(versions[n - 1], versions[n], job);
    }
  }

  /** For every reader at or after the smallest snapshot a compaction of selected inputs changes
      nothing, with flushes between its start and its installation, and with entries of one user
      key spread over neighbours of the upper level.  `above` is what the memtables hold. */
  lemma SelectedPreservesReads(E: set<Entry>, F: set<Entry>, above: set<Entry>, versions: seq<Levels>, levels': Levels,
                               job: Job, input: seq<Entry>, outputs: seq<seq<Entry>>, files: seq<File>,
                               k: UserKey, t: nat)
    requires RangesOk(job.base) && FilesOk(job.base) && DistinctEntries(job.base)
    requires Selected(job.base, job.inputs) && LowerApart(job.base, job.inputs)
    requires FlushesOnly(versions) && versions[0] == job.base
    requires var levels := versions[|versions| - 1];
             && Distinct(E) && Recency(levels)
             && (forall e :: e in E <==> e in above || Holds(levels, e))
             && (forall d, e :: d in above && Holds(levels, e) && d.key.user == e.key.user ==>
                  d.key.sequence > e.key.sequence)
             && IsMerge(job.inputs, input) && OutputsOk(levels, job, input, outputs, files)
             && Replaced(levels, levels', job.inputs.level, job.inputs.upper, job.inputs.lower, files)
    requires forall e :: e in F <==> e in above || Holds(levels', e)
    requires t >= job.snapshot
    ensures Read(E, k, t) == Read(F, k, t)
  {
    hide RangesOk, FilesOk, DistinctEntries, Selected, LowerApart, Flushed, Distinct, Recency, Read, Replaced,
         OutputsOk, IsMerge, SafeToRead;
    SelectedIsSafeToRead(job.base, job.inputs, job.snapshot);
    assert job == Job(job.inputs, job.base, job.snapshot);
    SevenLevels(job.base);
    StaysSafeToRead(versions, job);
    CompactionPreservesReads(E, F, above, versions[|versions| - 1], levels', job, input, outputs, files, k, t);
  }

  lemma SevenLevels(levels: Levels)
    requires RangesOk(levels)
    ensures |levels| == NUM_LEVELS
  {
  }

  // ---------- Without the condition on the lower level ----------

  /** Files that are not inputs hold no input entry. */
  lemma SelectedInputsGo(levels: Levels, c: Inputs, input: seq<Entry>)
    requires RangesOk(levels) && FilesOk(levels) && Recency(levels) && Selected(levels, c) && IsMerge(c, input)
    ensures InputsIn(levels, c) && InputsGo(levels, c, input)
  {
    hide FileOk, Ascending, Gapless, IsMeeting, NoBoundaryLeft, IsRun, Sorted;
    SelectedSpan(levels, c);
    forall l, g, e | Untouched(levels, c.level, c.upper, c.lower, l, g) && e in g.entries
      ensures e !in input
    {
      if e in input {
        var m, f :| IsInput(c, m, f) && e in f.entries;
        assert InLevel(levels, m, f) && f in levels[m] && g in levels[l];
        if l == m && l > 0 {
          ApartInLevel(levels[l], f, g, e);
        } else if l == m {
          IsolatedSharesNoKey(levels, c, f, g);
        }
        assert false;
      }
    }
  }

  lemma ApartInLevel(files: seq<File>, f: File, g: File, e: Entry)
    requires Ascending(files) && f in files && g in files && f != g && FileOk(f) && FileOk(g) && e in f.entries
    ensures e !in g.entries
  {
    hide FileOk;
    EntryInRange(f, e);
    var i, j :| 0 <= i < |files| && 0 <= j < |files| && files[i] == f && files[j] == g;
    if e in g.entries {
      EntryInRange(g, e);
      assert false;
    }
  }

  /** A compaction of selected inputs, installed in the version it was selected from, changes no
      read at or after the smallest snapshot exactly when no tombstone of the input uncovers a value. */
  lemma SelectedDropsExactly(E: set<Entry>, F: set<Entry>, above: set<Entry>, levels: Levels, levels': Levels,
                             c: Inputs, ss: nat, input: seq<Entry>, outputs: seq<seq<Entry>>, files: seq<File>)
    requires RangesOk(levels) && FilesOk(levels) && Recency(levels) && Selected(levels, c) && Distinct(E)
    requires forall e :: e in E <==> e in above || Holds(levels, e)
    requires forall e :: e in F <==> e in above || Holds(levels', e)
    requires forall d, e :: d in above && Holds(levels, e) && d.key.user == e.key.user ==>
               d.key.sequence > e.key.sequence
    requires IsMerge(c, input) && OutputsOk(levels, Job(c, levels, ss), input, outputs, files)
    requires Replaced(levels, levels', c.level, c.upper, c.lower, files)
    ensures (forall k, t :: t >= ss ==> Read(E, k, t) == Read(F, k, t)) <==>
              forall e, d :: !Uncovers(E, levels, c.level, input, ss, e, d)
  {
    hide RangesOk, FilesOk, Recency, Selected, OutputsOk, Replaced, Read, Uncovers, InputsIn, InputsGo;
    var job := Job(c, levels, ss);
    SelectedInputsGo(levels, c, input);
    forall e
      ensures e in F <==> e in E && (e !in input || Survives(levels, c.level, input, ss, e))
    {
      StoredAfter(above, levels, levels', job, input, outputs, files, e);
    }
    forall e | e in input
      ensures e in E
    {
      InputsAreHeld(levels, job, e);
    }
    DropsExactly(E, F, levels, c.level, input, ss);
  }

  // ---------- Neighbours in the lower level ----------

  function OneEntry(number: nat, e: Entry): File { File(number, 0, e.key, e.key, [e]) }

  function TwoEntries(number: nat, d: Entry, e: Entry): File { File(number, 0, d.key, e.key, [d, e]) }

  function Tombstone(k: UserKey, n: nat): Entry { Entry(InternalKey(k, n, Deletion), "") }

  function Put(k: UserKey, n: nat, v: string): Entry { Entry(InternalKey(k, n, Value), v) }

  /** Levels in which a tombstone of k ends one file of level 2 and an older value of k begins the next. */
  function SplitKey(a: UserKey, k: UserKey, v: string): Levels {
    [[], [OneEntry(1, Put(a, 20, v))], [TwoEntries(2, Put(a, 3, v), Tombstone(k, 10)), OneEntry(3, Put(k, 5, v))],
     [], [], [], []]
  }

  /** What a compaction of the only file of level 1 takes: the first of the two files below. */
  function SplitInputs(a: UserKey, k: UserKey, v: string): Inputs {
    var u, f := OneEntry(1, Put(a, 20, v)), TwoEntries(2, Put(a, 3, v), Tombstone(k, 10));
    Inputs(1, [u], [f], [], u.smallest, u.largest, u.smallest, f.largest)
  }

  lemma SplitFiles(a: UserKey, k: UserKey, v: string, l: int, f: File)
    requires InLevel(SplitKey(a, k, v), l, f)
    ensures l == 1 || l == 2
    ensures l == 1 ==> f == OneEntry(1, Put(a, 20, v))
    ensures l == 2 ==> f == TwoEntries(2, Put(a, 3, v), Tombstone(k, 10)) || f == OneEntry(3, Put(k, 5, v))
  {
  }

  lemma SplitKeyIsFine(a: UserKey, k: UserKey, v: string)
    requires a < k
    ensures var levels := SplitKey(a, k, v);
            RangesOk(levels) && FilesOk(levels) && DistinctEntries(levels) && Recency(levels)
  {
    var levels := SplitKey(a, k, v);
    forall l, f | InLevel(levels, l, f)
      ensures FileOk(f) && RangeOk(f)
    {
      SplitFiles(a, k, v, l, f);
    }
    forall l, f | 0 <= l < NUM_LEVELS && f in levels[l]
      ensures RangeOk(f)
    {
      assert InLevel(levels, l, f);
    }
    forall l, m, f, g | l < m && InLevel(levels, l, f) && InLevel(levels, m, g)
      ensures FileNewer(f, g)
    {
      SplitFiles(a, k, v, l, f);
      SplitFiles(a, k, v, m, g);
    }
    forall d, e | Holds(levels, d) && Holds(levels, e) && SameVersion(d, e)
      ensures d == e
    {
      SplitEntries(a, k, v, d);
      SplitEntries(a, k, v, e);
    }
  }

  lemma SplitEntries(a: UserKey, k: UserKey, v: string, e: Entry)
    ensures Holds(SplitKey(a, k, v), e) <==> e in {Put(a, 20, v), Put(a, 3, v), Tombstone(k, 10), Put(k, 5, v)}
  {
    var levels := SplitKey(a, k, v);
    if Holds(levels, e) {
      var l, f :| InLevel(levels, l, f) && e in f.entries;
      SplitFiles(a, k, v, l, f);
    }
    assert InLevel(levels, 1, levels[1][0]) && InLevel(levels, 2, levels[2][0]) && InLevel(levels, 2, levels[2][1]);
    assert levels[1][0].entries[0] == Put(a, 20, v) && levels[2][0].entries[0] == Put(a, 3, v);
    assert levels[2][0].entries[1] == Tombstone(k, 10) && levels[2][1].entries[0] == Put(k, 5, v);
  }

  lemma SplitInputsAreSelected(a: UserKey, k: UserKey, v: string)
    requires a < k
    ensures Selected(SplitKey(a, k, v), SplitInputs(a, k, v)) && InOrder(SplitInputs(a, k, v))
  {
    var levels, c := SplitKey(a, k, v), SplitInputs(a, k, v);
    var u, f, g := levels[1][0], levels[2][0], levels[2][1];
    assert c.upper[0] == u && c.lower[0] == f;
    assert Meeting([f, g], a, a) == [f] by { MeetingOfTwo(f, g, a, a); }
    assert IsRun(levels[1], c.upper) by { OneIsRun(levels[1], u); }
    assert c.upper + c.lower == [u, f] && u in [u, f] && f in [u, f];
    assert Covered([u, f], a, k) by {
      forall x | a <= x <= k
        ensures CoveredAt([u, f], x)
      {
        assert Contains(f, x);
      }
    }
    assert Meeting([], a, k) == [];
  }

  lemma MeetingOfTwo(f: File, g: File, lo: UserKey, hi: UserKey)
    requires Meets(f, lo, hi) && !Meets(g, lo, hi)
    ensures Meeting([f, g], lo, hi) == [f]
  {
    assert [f, g][..1] == [f] && [f][..0] == [];
    assert Meeting([f], lo, hi) == Meeting([f][..0], lo, hi) + [f];
  }

  function SplitInput(a: UserKey, k: UserKey, v: string): seq<Entry> {
    [Put(a, 20, v), Put(a, 3, v), Tombstone(k, 10)]
  }

  /** After the compaction. */
  function SplitAfter(a: UserKey, k: UserKey, v: string): Levels {
    [[], [], [OneEntry(4, Put(a, 20, v)), OneEntry(3, Put(k, 5, v))], [], [], [], []]
  }

  lemma SplitMerge(a: UserKey, k: UserKey, v: string)
    requires a < k
    ensures IsMerge(SplitInputs(a, k, v), SplitInput(a, k, v))
  {
    var c, input := SplitInputs(a, k, v), SplitInput(a, k, v);
    var u, f := c.upper[0], c.lower[0];
    forall e
      ensures e in input <==> InInputs(c, e)
    {
      if e in input {
        assert IsInput(c, 1, u) && IsInput(c, 2, f);
        assert u.entries[0] == input[0] && f.entries[0] == input[1] && f.entries[1] == input[2];
      }
      if InInputs(c, e) {
        var l, h :| IsInput(c, l, h) && e in h.entries;
        assert input[0] in input && input[1] in input && input[2] in input;
      }
    }
  }

  lemma SplitSurvivor(a: UserKey, k: UserKey, v: string, e: Entry)
    requires a < k
    ensures Survives(SplitKey(a, k, v), 1, SplitInput(a, k, v), 20, e) <==> e == Put(a, 20, v)
  {
    var input := SplitInput(a, k, v);
    assert input[0] in input && Put(a, 20, v) == input[0];
    assert a < k && Shadowed(input, 20, Put(a, 3, v));
    assert IsBase(SplitKey(a, k, v), 1, k);
  }

  lemma SplitOutputs(a: UserKey, k: UserKey, v: string)
    requires a < k
    ensures var levels, o := SplitKey(a, k, v), OneEntry(4, Put(a, 20, v));
            OutputsOk(levels, Job(SplitInputs(a, k, v), levels, 20), SplitInput(a, k, v), [o.entries], [o])
  {
    var levels, o := SplitKey(a, k, v), OneEntry(4, Put(a, 20, v));
    assert Flatten([o.entries]) == o.entries by { FlattenAppend([], o.entries); }
    forall e
      ensures e in o.entries <==> Survives(levels, 1, SplitInput(a, k, v), 20, e)
    {
      SplitSurvivor(a, k, v, e);
    }
    forall l, g | InLevel(levels, l, g)
      ensures o.number != g.number
    {
      SplitFiles(a, k, v, l, g);
    }
  }

  lemma SplitReplaced(a: UserKey, k: UserKey, v: string)
    requires a < k
    ensures var c := SplitInputs(a, k, v);
            Replaced(SplitKey(a, k, v), SplitAfter(a, k, v), 1, c.upper, c.lower, [OneEntry(4, Put(a, 20, v))])
  {
    var levels, after, c := SplitKey(a, k, v), SplitAfter(a, k, v), SplitInputs(a, k, v);
    var o := OneEntry(4, Put(a, 20, v));
    forall l, f
      ensures InLevel(after, l, f) <==> Untouched(levels, 1, c.upper, c.lower, l, f) || (l == 2 && f in [o])
    {
      if InLevel(levels, l, f) {
        SplitFiles(a, k, v, l, f);
      }
      assert levels[2][1] == after[2][1] && after[2][0] == o;
      assert InLevel(levels, 2, levels[2][1]);
    }
  }

  lemma SplitEntriesAfter(a: UserKey, k: UserKey, v: string, e: Entry)
    ensures Holds(SplitAfter(a, k, v), e) <==> e in {Put(a, 20, v), Put(k, 5, v)}
  {
    var after := SplitAfter(a, k, v);
    assert InLevel(after, 2, after[2][0]) && InLevel(after, 2, after[2][1]);
    assert after[2][0].entries[0] == Put(a, 20, v) && after[2][1].entries[0] == Put(k, 5, v);
  }

  /** The lower level is not searched for boundary files.  Once every snapshot is released, the
      compaction drops the tombstone, and the older value in the file beside it is read again. */
  lemma LowerNeighbourComesBack(a: UserKey, k: UserKey, v: string)
    requires a < k
    ensures var levels, after, c := SplitKey(a, k, v), SplitAfter(a, k, v), SplitInputs(a, k, v);
            var input, o := SplitInput(a, k, v), OneEntry(4, Put(a, 20, v));
            var E, F := {Put(a, 20, v), Put(a, 3, v), Tombstone(k, 10), Put(k, 5, v)}, {Put(a, 20, v), Put(k, 5, v)};
            && RangesOk(levels) && FilesOk(levels) && DistinctEntries(levels) && Recency(levels)
            && Selected(levels, c) && InOrder(c) && IsMerge(c, input)
            && OutputsOk(levels, Job(c, levels, 20), input, [o.entries], [o])
            && Replaced(levels, after, 1, c.upper, c.lower, [o])
            && (forall e :: e in E <==> Holds(levels, e)) && (forall e :: e in F <==> Holds(after, e))
            && Read(E, k, 20) == None && Read(F, k, 20) == Some(v)
  {
    hide RangesOk, FilesOk, DistinctEntries, Recency, Selected, InOrder, IsMerge, OutputsOk, Replaced, Holds;
    SplitKeyIsFine(a, k, v);
    SplitInputsAreSelected(a, k, v);
    SplitMerge(a, k, v);
    SplitOutputs(a, k, v);
    SplitReplaced(a, k, v);
    var E, F := {Put(a, 20, v), Put(a, 3, v), Tombstone(k, 10), Put(k, 5, v)}, {Put(a, 20, v), Put(k, 5, v)};
    forall e
      ensures (e in E <==> Holds(SplitKey(a, k, v), e)) && (e in F <==> Holds(SplitAfter(a, k, v), e))
    {
      SplitEntries(a, k, v, e);
      SplitEntriesAfter(a, k, v, e);
    }
    ReadIs(E, k, 20, Tombstone(k, 10));
    ReadIs(F, k, 20, Put(k, 5, v));
  }
}
