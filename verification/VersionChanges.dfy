/** Flushes, moves and compactions as edits of a version, and why each keeps the
    version's shape, the recency of its entries and what readers see. */
module VersionChanges {
  import opened InternalKeys
  import opened Options
  import opened Files
  import opened Selection
  import opened Picking
  import opened Compacting
  import opened Versions

  /** A compaction between its start and its installation. */
  datatype Job = Job(inputs: Inputs, base: Levels, snapshot: nat)

  // ---------- Replacing files ----------

  ghost predicate Untouched(levels: Levels, L: int, upper: seq<File>, lower: seq<File>, l: int, f: File) {
    InLevel(levels, l, f) && !(l == L && f in upper) && !(l == L + 1 && f in lower)
  }

  /** The edit of a flush, a move or a compaction: `upper` leaves level L, `lower`
      leaves level L + 1, `added` enters level L + 1.  (A flush has L = P - 1.) */
  ghost predicate Replaced(levels: Levels, levels': Levels, L: int, upper: seq<File>, lower: seq<File>,
                           added: seq<File>) {
    && |levels'| == NUM_LEVELS
    && (forall l :: 0 <= l < NUM_LEVELS ==> SortedLevel(levels'[l]))
    && (forall l, f :: InLevel(levels', l, f) <==>
         Untouched(levels, L, upper, lower, l, f) || (l == L + 1 && f in added))
  }

  /** The added files may stand where they are put. */
  ghost predicate Welcome(levels: Levels, L: int, upper: seq<File>, lower: seq<File>, added: seq<File>) {
    && (forall o :: o in added ==> FileOk(o))
    && (forall o, p :: o in added && p in added && o != p ==> o.number != p.number && (L >= 0 ==> Apart(o, p)))
    && (forall o, l, g :: o in added && Untouched(levels, L, upper, lower, l, g) ==>
          && o.number != g.number
          && (l < L + 1 ==> FileNewer(g, o))
          && (l > L + 1 ==> FileNewer(o, g))
          && (l == L + 1 && L >= 0 ==> Apart(o, g))
          && (l == L + 1 && L < 0 ==> o.number > g.number && FileNewer(o, g)))
    && (L < 0 ==> |added| <= 1)
  }

  lemma ReplaceKeepsShape(levels: Levels, levels': Levels, L: int, upper: seq<File>, lower: seq<File>, added: seq<File>)
    requires -1 <= L && L + 1 < NUM_LEVELS
    requires Shape(levels)
    requires Replaced(levels, levels', L, upper, lower, added) && Welcome(levels, L, upper, lower, added)
    ensures Shape(levels')
  {
    hide FileOk, FileNewer, BySmallest, SortedLevel;
  }

  lemma ReplaceKeepsRecency(levels: Levels, levels': Levels, L: int, upper: seq<File>, lower: seq<File>,
                            added: seq<File>)
    requires -1 <= L && L + 1 < NUM_LEVELS
    requires Recency(levels)
    requires Replaced(levels, levels', L, upper, lower, added) && Welcome(levels, L, upper, lower, added)
    ensures Recency(levels')
  {
    hide FileOk, FileNewer, Apart, SortedLevel;
  }

  // ---------- A compaction in flight ----------

  predicate IsInput(c: Inputs, l: int, f: File) {
    (l == c.level && f in c.upper) || (l == c.level + 1 && f in c.lower)
  }

  ghost predicate InputsIn(levels: Levels, c: Inputs) {
    forall l, f :: IsInput(c, l, f) ==> InLevel(levels, l, f)
  }

  /** All inputs lie in [allStart, allLimit]. */
  ghost predicate Spanned(c: Inputs) {
    forall l, f :: IsInput(c, l, f) ==> c.allStart.user <= Lo(f) && Hi(f) <= c.allLimit.user
  }

  ghost predicate BesideNewer(levels: Levels, c: Inputs) {
    forall f, g :: f in c.upper && InLevel(levels, c.level, g) && g !in c.upper ==> FileNewer(g, f)
  }

  ghost predicate BelowOutside(levels: Levels, c: Inputs) {
    forall g :: InLevel(levels, c.level + 1, g) && g !in c.lower ==> !Meets(g, c.allStart.user, c.allLimit.user)
  }

  ghost predicate DeeperOutside(levels: Levels, job: Job) {
    forall l, g :: l >= job.inputs.level + 2 && InLevel(levels, l, g) ==>
      InLevel(job.base, l, g) || !Meets(g, job.inputs.allStart.user, job.inputs.allLimit.user)
  }

  /** What must stay true of a started compaction while flushes go on beside it. */
  ghost predicate JobOk(levels: Levels, job: Job) {
    var c := job.inputs;
    && c.level + 1 < NUM_LEVELS && |job.base| == NUM_LEVELS
    && c.upper != []
    && InputsIn(levels, c)
    && Spanned(c)
    && Covered(c.upper + c.lower, c.allStart.user, c.allLimit.user)
    && BelowOutside(levels, c)
    && BesideNewer(levels, c)
    && DeeperOutside(levels, job)
    && (forall l :: c.level + 2 <= l < NUM_LEVELS ==> Ascending(job.base[l]))
  }

  /** Every input entry is visible to the oldest reader. */
  ghost predicate AllVisible(job: Job) {
    forall l, f, e :: IsInput(job.inputs, l, f) && e in f.entries ==> e.key.sequence <= job.snapshot
  }

  /** Selected inputs leave out nothing they need. */
  lemma SelectionStartsJob(levels: Levels, c: Inputs, snapshot: nat)
    requires Shape(levels) && Selected(levels, c)
    ensures JobOk(levels, Job(c, levels, snapshot))
  {
    hide FileNewer, FileOk, Apart, SortedLevel, Meeting, Chain, IsRun, NoBoundaryLeft, Isolated;
    ShapeGivesRanges(levels);
    var f :| f in c.upper && Lo(f) == c.smallest.user;
    SelectedSpan(levels, c);
    forall g | InLevel(levels, c.level + 1, g) && g !in c.lower
      ensures !Meets(g, c.allStart.user, c.allLimit.user)
    {
      UnselectedBelowIsOutside(levels, c, g);
    }
    forall f, g | f in c.upper && InLevel(levels, c.level, g) && g !in c.upper
      ensures FileNewer(g, f)
    {
      UnselectedBesideSharesNoKey(levels, c, f, g);
    }
  }

  lemma SelectedSpan(levels: Levels, c: Inputs)
    requires Fit(levels, c)
    ensures InputsIn(levels, c) && Spanned(c)
  {
    forall l, f | IsInput(c, l, f)
      ensures InLevel(levels, l, f) && c.allStart.user <= Lo(f) && Hi(f) <= c.allLimit.user
    {
      assert f in c.upper + c.lower;
    }
  }

  /** A covered range and a file that meets it share a key with one of the covering files. */
  lemma SharedKey(fs: seq<File>, lo: UserKey, hi: UserKey, g: File) returns (f: File)
    requires Covered(fs, lo, hi) && lo <= hi && Meets(g, lo, hi) && Lo(g) <= Hi(g)
    ensures f in fs && !Apart(f, g) && Meets(g, Lo(f), Hi(f))
  {
    var x := if Lo(g) < lo then lo else Lo(g);
    assert CoveredAt(fs, x);
    f :| f in fs && Contains(f, x);
  }

  lemma UnselectedBelowIsOutside(levels: Levels, c: Inputs, g: File)
    requires Shape(levels) && Fit(levels, c)
    requires InLevel(levels, c.level + 1, g) && g !in c.lower
    ensures !Meets(g, c.allStart.user, c.allLimit.user)
  {
    hide IsRun, SortedLevel, FileOk, NoBoundaryLeft, Isolated;
    if Meets(g, c.allStart.user, c.allLimit.user) {
      RangeOrdered(g);
      SelectedSpan(levels, c);
      var h :| h in c.upper;
      assert IsInput(c, c.level, h);
      RangeOrdered(h);
      var f := SharedKey(c.upper + c.lower, c.allStart.user, c.allLimit.user, g);
    }
  }

  lemma UnselectedBesideSharesNoKey(levels: Levels, c: Inputs, f: File, g: File)
    requires Shape(levels) && Fit(levels, c)
    requires f in c.upper && InLevel(levels, c.level, g) && g !in c.upper
    ensures FileNewer(g, f)
  {
    assert InLevel(levels, c.level, f);
    assert f != g;
    forall a, b | a in g.entries && b in f.entries
      ensures a.key.user != b.key.user
    {
      EntryInRange(g, a);
      EntryInRange(f, b);
      if c.level > 0 {
        assert Apart(f, g);
      }
    }
  }

  // ---------- The three edits ----------

  /** A flushed table goes to level P when no file of levels 0..P meets its range. */
  ghost predicate FlushLevel(levels: Levels, lo: UserKey, hi: UserKey, P: nat) {
    P <= 2 && (P > 0 ==> forall l, f :: l <= P && InLevel(levels, l, f) ==> !Meets(f, lo, hi))
  }

  lemma FlushWelcome(levels: Levels, P: nat, f: File)
    requires Shape(levels) && FileOk(f) && FlushLevel(levels, Lo(f), Hi(f), P)
    requires forall l, g :: InLevel(levels, l, g) ==> FileNewer(f, g) && g.number < f.number
    ensures Welcome(levels, P - 1, [], [], [f])
  {
    forall l, g | InLevel(levels, l, g) && l < P
      ensures FileNewer(g, f)
    {
      forall a, b | a in g.entries && b in f.entries
        ensures a.key.user != b.key.user
      {
        EntryInRange(g, a);
        EntryInRange(f, b);
      }
    }
  }

  /** A flush may be installed in the middle of a compaction: the inputs leave no
      gap for its table to fall into. */
  lemma FlushKeepsJob(levels: Levels, levels': Levels, P: nat, f: File, job: Job)
    requires Shape(levels) && FileOk(f) && FlushLevel(levels, Lo(f), Hi(f), P)
    requires forall l, g :: InLevel(levels, l, g) ==> FileNewer(f, g)
    requires Replaced(levels, levels', P - 1, [], [], [f])
    requires JobOk(levels, job)
    ensures JobOk(levels', job)
  {
    var c := job.inputs;
    if P >= c.level + 1 {
      FlushFallsInNoGap(levels, P, f, job);
    }
    forall h, g | h in c.upper && InLevel(levels', c.level, g) && g !in c.upper
      ensures FileNewer(g, h)
    {
      assert IsInput(c, c.level, h);
    }
  }

  lemma FlushFallsInNoGap(levels: Levels, P: nat, f: File, job: Job)
    requires Shape(levels) && FileOk(f) && FlushLevel(levels, Lo(f), Hi(f), P)
    requires JobOk(levels, job) && P >= job.inputs.level + 1
    ensures !Meets(f, job.inputs.allStart.user, job.inputs.allLimit.user)
  {
    var c := job.inputs;
    RangeOrdered(f);
    if Meets(f, c.allStart.user, c.allLimit.user) {
      assert IsInput(c, c.level, c.upper[0]);
      RangeOrdered(c.upper[0]);
      var g := SharedKey(c.upper + c.lower, c.allStart.user, c.allLimit.user, f);
      var l := if g in c.upper then c.level else c.level + 1;
      assert IsInput(c, l, g);
    }
  }

  ghost predicate InInputs(c: Inputs, e: Entry) {
    exists l, f :: IsInput(c, l, f) && e in f.entries
  }

  ghost predicate MadeOf(c: Inputs, o: File) {
    FileOk(o) && forall e :: e in o.entries ==> InInputs(c, e)
  }

  /** A file made of input entries is newer than what lies deeper and older than
      what lies shallower or stayed beside the inputs. */
  lemma OutputRecency(levels: Levels, c: Inputs, o: File, l: int, g: File)
    requires Recency(levels) && InputsIn(levels, c) && BesideNewer(levels, c)
    requires MadeOf(c, o) && Untouched(levels, c.level, c.upper, c.lower, l, g)
    ensures l < c.level + 1 ==> FileNewer(g, o)
    ensures l > c.level + 1 ==> FileNewer(o, g)
  {
    forall a, b | a in o.entries && b in g.entries && a.key.user == b.key.user
      ensures l < c.level + 1 ==> b.key.sequence > a.key.sequence
      ensures l > c.level + 1 ==> a.key.sequence > b.key.sequence
    {
      var m, f :| IsInput(c, m, f) && a in f.entries;
      assert InLevel(levels, m, f);
    }
  }

  /** It shares no user key with the files that stay at the output level. */
  lemma OutputApart(levels: Levels, c: Inputs, o: File, g: File)
    requires Shape(levels) && InputsIn(levels, c) && Spanned(c) && BelowOutside(levels, c)
    requires MadeOf(c, o) && Untouched(levels, c.level, c.upper, c.lower, c.level + 1, g)
    ensures Apart(o, g)
  {
    RangeOrdered(o);
    RangeOrdered(g);
    EntryInSpan(levels, c, o.entries[0]);
    EntryInSpan(levels, c, o.entries[|o.entries| - 1]);
  }

  lemma EntryInSpan(levels: Levels, c: Inputs, e: Entry)
    requires Shape(levels) && InputsIn(levels, c) && Spanned(c) && InInputs(c, e)
    ensures c.allStart.user <= e.key.user <= c.allLimit.user
  {
    var m, f :| IsInput(c, m, f) && e in f.entries;
    assert InLevel(levels, m, f);
    EntryInRange(f, e);
  }

  /** Where the added files stand relative to the files that stay. */
  ghost predicate WellPlaced(levels: Levels, c: Inputs, files: seq<File>) {
    forall o, l, g :: o in files && Untouched(levels, c.level, c.upper, c.lower, l, g) ==>
      && (l < c.level + 1 ==> FileNewer(g, o))
      && (l > c.level + 1 ==> FileNewer(o, g))
      && (l == c.level + 1 ==> Apart(o, g))
  }

  lemma OutputsWellPlaced(levels: Levels, c: Inputs, files: seq<File>)
    requires Shape(levels) && Recency(levels)
    requires InputsIn(levels, c) && Spanned(c) && BelowOutside(levels, c) && BesideNewer(levels, c)
    requires forall o :: o in files ==> MadeOf(c, o)
    ensures WellPlaced(levels, c, files)
  {
    hide FileNewer, Apart, Shape, Recency, MadeOf, InputsIn, Spanned, BelowOutside, BesideNewer;
    forall o, l, g | o in files && Untouched(levels, c.level, c.upper, c.lower, l, g)
      ensures l < c.level + 1 ==> FileNewer(g, o)
      ensures l > c.level + 1 ==> FileNewer(o, g)
      ensures l == c.level + 1 ==> Apart(o, g)
    {
      OutputRecency(levels, c, o, l, g);
      if l == c.level + 1 {
        OutputApart(levels, c, o, g);
      }
    }
  }

  /** The added files have numbers of their own and share no user key. */
  ghost predicate OwnRange(levels: Levels, c: Inputs, files: seq<File>) {
    && (forall o, p :: o in files && p in files && o != p ==> o.number != p.number && Apart(o, p))
    && (forall o, l, g :: o in files && Untouched(levels, c.level, c.upper, c.lower, l, g) ==> o.number != g.number)
  }

  lemma PlacedIsWelcome(levels: Levels, c: Inputs, files: seq<File>)
    requires forall o :: o in files ==> MadeOf(c, o)
    requires OwnRange(levels, c, files) && WellPlaced(levels, c, files)
    ensures Welcome(levels, c.level, c.upper, c.lower, files)
  {
    hide FileNewer, Apart, FileOk, InInputs;
  }

  lemma MoveOwnRange(levels: Levels, c: Inputs)
    requires Shape(levels) && InputsIn(levels, c) && |c.upper| == 1
    ensures OwnRange(levels, c, c.upper)
  {
    hide FileOk, Apart, SortedLevel;
    var f := c.upper[0];
    assert IsInput(c, c.level, f);
    forall l, g | Untouched(levels, c.level, c.upper, c.lower, l, g)
      ensures f.number != g.number
    {
      assert InLevel(levels, l, g) && InLevel(levels, c.level, f);
    }
  }

  /** A move puts the only upper input down one level. */
  lemma MoveWelcome(levels: Levels, job: Job)
    requires Shape(levels) && Recency(levels) && JobOk(levels, job)
    requires |job.inputs.upper| == 1
    ensures Welcome(levels, job.inputs.level, job.inputs.upper, job.inputs.lower, job.inputs.upper)
  {
    var c := job.inputs;
    var f := c.upper[0];
    assert IsInput(c, c.level, f);
    assert MadeOf(c, f);
    OutputsWellPlaced(levels, c, c.upper);
    MoveOwnRange(levels, c);
    PlacedIsWelcome(levels, c, c.upper);
  }

  // ---------- Compaction outputs ----------

  /** `input` is the sorted union of the input tables. */
  ghost predicate IsMerge(c: Inputs, input: seq<Entry>) {
    Sorted(input) && forall e :: e in input <==> InInputs(c, e)
  }

  /** The files hold, in order, exactly the surviving entries, and have new numbers. */
  ghost predicate OutputsOk(levels: Levels, job: Job, input: seq<Entry>, outputs: seq<seq<Entry>>, files: seq<File>) {
    && |files| == |outputs|
    && (forall i :: 0 <= i < |files| ==> FileOk(files[i]) && files[i].entries == outputs[i])
    && (forall i, j :: 0 <= i < j < |files| ==> files[i].number != files[j].number)
    && (forall i, l, g :: 0 <= i < |files| && InLevel(levels, l, g) ==> files[i].number != g.number)
    && Sorted(Flatten(outputs))
    && (forall e :: e in Flatten(outputs) <==> Survives(job.base, job.inputs.level, input, job.snapshot, e))
  }

  lemma {:induction false} FlattenOrder(outputs: seq<seq<Entry>>)
    requires Sorted(Flatten(outputs))
    ensures forall i, e :: 0 <= i < |outputs| && e in outputs[i] ==> e in Flatten(outputs)
    ensures forall i, j, d, e :: 0 <= i < j < |outputs| && d in outputs[i] && e in outputs[j] ==> Less(d.key, e.key)
    ensures forall e :: e in Flatten(outputs) ==> exists i :: 0 <= i < |outputs| && e in outputs[i]
  {
    if outputs != [] {
      var n := |outputs| - 1;
      var front, last := Flatten(outputs[..n]), outputs[n];
      var all := Flatten(outputs);
      assert all == front + last;
      assert Sorted(front) by {
        forall i, j | 0 <= i < j < |front|
          ensures Less(front[i].key, front[j].key)
        {
          assert all[i] == front[i] && all[j] == front[j];
        }
      }
      FlattenOrder(outputs[..n]);
      forall d, e | d in front && e in last
        ensures Less(d.key, e.key)
      {
        var i :| 0 <= i < |front| && front[i] == d;
        var j :| 0 <= j < |last| && last[j] == e;
        assert all[i] == d && all[|front| + j] == e;
      }
    }
  }

  /** When every input is visible to the oldest reader, no user key survives twice. */
  lemma OneSurvivorPerKey(job: Job, input: seq<Entry>, d: Entry, e: Entry)
    requires IsMerge(job.inputs, input) && DistinctSeq(input) && AllVisible(job)
    requires Survives(job.base, job.inputs.level, input, job.snapshot, d)
    requires Survives(job.base, job.inputs.level, input, job.snapshot, e)
    ensures d.key.user == e.key.user ==> d == e
  {
    assert InInputs(job.inputs, d) && InInputs(job.inputs, e);
    assert d.key.sequence <= job.snapshot && e.key.sequence <= job.snapshot;
  }

  lemma OutputsAreInputs(levels: Levels, job: Job, input: seq<Entry>, outputs: seq<seq<Entry>>, files: seq<File>)
    requires IsMerge(job.inputs, input) && OutputsOk(levels, job, input, outputs, files)
    ensures forall o :: o in files ==> MadeOf(job.inputs, o)
  {
    FlattenOrder(outputs);
    forall o, e | o in files && e in o.entries
      ensures InInputs(job.inputs, e)
    {
      assert Survives(job.base, job.inputs.level, input, job.snapshot, e);
    }
  }

  lemma OutputsOwnRange(levels: Levels, job: Job, input: seq<Entry>, outputs: seq<seq<Entry>>, files: seq<File>)
    requires AllVisible(job) && IsMerge(job.inputs, input) && DistinctSeq(input)
    requires OutputsOk(levels, job, input, outputs, files)
    ensures OwnRange(levels, job.inputs, files)
  {
    forall i, j | 0 <= i < j < |files|
      ensures Hi(files[i]) < Lo(files[j])
    {
      OutputsApart(job, input, outputs, files, i, j);
    }
  }

  lemma InstallWelcome(levels: Levels, job: Job, input: seq<Entry>, outputs: seq<seq<Entry>>, files: seq<File>)
    requires Shape(levels) && Recency(levels) && JobOk(levels, job) && AllVisible(job)
    requires IsMerge(job.inputs, input) && DistinctSeq(input)
    requires OutputsOk(levels, job, input, outputs, files)
    ensures Welcome(levels, job.inputs.level, job.inputs.upper, job.inputs.lower, files)
  {
    OutputsAreInputs(levels, job, input, outputs, files);
    OutputsOwnRange(levels, job, input, outputs, files);
    OutputsWellPlaced(levels, job.inputs, files);
    PlacedIsWelcome(levels, job.inputs, files);
  }

  lemma OutputsApart(job: Job, input: seq<Entry>, outputs: seq<seq<Entry>>, files: seq<File>, i: nat, j: nat)
    requires i < j < |files| == |outputs|
    requires FileOk(files[i]) && files[i].entries == outputs[i] && FileOk(files[j]) && files[j].entries == outputs[j]
    requires AllVisible(job) && IsMerge(job.inputs, input) && DistinctSeq(input)
    requires Sorted(Flatten(outputs))
    requires forall e :: e in Flatten(outputs) ==> Survives(job.base, job.inputs.level, input, job.snapshot, e)
    ensures Hi(files[i]) < Lo(files[j])
  {
    FlattenOrder(outputs);
    var d, e := outputs[i][|outputs[i]| - 1], outputs[j][0];
    assert d in outputs[i] && e in outputs[j];
    OneSurvivorPerKey(job, input, d, e);
    assert Less(d.key, e.key);
  }

  // ---------- What readers see across a compaction ----------

  ghost predicate SharesNoKey(c: Inputs, g: File) {
    forall a, b :: a in g.entries && InInputs(c, b) ==> a.key.user != b.key.user
  }

  /** The files that stay: beside the inputs they are newer, at the output level they
      share no user key with the inputs, deeper they are known to the base version
      or share no user key either. */
  ghost predicate SafeToRead(levels: Levels, job: Job) {
    var c := job.inputs;
    && |levels| == |job.base|
    && InputsIn(levels, c)
    && (forall l, f :: InLevel(job.base, l, f) ==> FileOk(f))
    && BesideNewer(levels, c)
    && (forall g :: InLevel(levels, c.level + 1, g) && g !in c.lower ==> SharesNoKey(c, g))
    && (forall l, g :: l >= c.level + 2 && InLevel(levels, l, g) ==> InLevel(job.base, l, g) || SharesNoKey(c, g))
  }

  lemma JobIsSafeToRead(levels: Levels, job: Job)
    requires Shape(levels) && JobOk(levels, job)
    requires forall l, f :: InLevel(job.base, l, f) ==> FileOk(f)
    ensures SafeToRead(levels, job)
  {
    hide FileNewer, SortedLevel, Covered;
    var c := job.inputs;
    forall l, g | InLevel(levels, l, g) && !Meets(g, c.allStart.user, c.allLimit.user)
      ensures SharesNoKey(c, g)
    {
      forall a, b | a in g.entries && InInputs(c, b)
        ensures a.key.user != b.key.user
      {
        EntryInRange(g, a);
        EntryInSpan(levels, c, b);
      }
    }
  }

  /** A file that stays holds no input entry; for the same user key it is newer,
      unless the base version shows it deeper down. */
  lemma StayingEntry(levels: Levels, job: Job, l: int, g: File, d: Entry, e: Entry)
    requires Recency(levels) && SafeToRead(levels, job)
    requires Untouched(levels, job.inputs.level, job.inputs.upper, job.inputs.lower, l, g) && d in g.entries
    requires InInputs(job.inputs, e) && d.key.user == e.key.user
    ensures d != e
    ensures d.key.sequence > e.key.sequence || !IsBase(job.base, job.inputs.level, e.key.user)
  {
    var c := job.inputs;
    var m, f :| IsInput(c, m, f) && e in f.entries;
    assert InLevel(levels, m, f);
    if l <= c.level {
      assert FileNewer(g, f);
    } else if l > c.level + 1 {
      assert FileNewer(f, g);
      if InLevel(job.base, l, g) {
        EntryInRange(g, d);
        assert Contains(g, e.key.user);
      }
    }
  }

  /** The whole point of the drop rules: for every reader at or after the smallest
      snapshot a compaction changes nothing.  `above` is what the memtables hold. */
  lemma CompactionPreservesReads(E: set<Entry>, F: set<Entry>, above: set<Entry>, levels: Levels, levels': Levels,
                                 job: Job,
                                 input: seq<Entry>, outputs: seq<seq<Entry>>, files: seq<File>, k: UserKey, t: nat)
    requires Distinct(E)
    requires forall e :: e in E <==> e in above || Holds(levels, e)
    requires forall e :: e in F <==> e in above || Holds(levels', e)
    requires forall d, e :: d in above && Holds(levels, e) && d.key.user == e.key.user ==>
               d.key.sequence > e.key.sequence
    requires Recency(levels) && SafeToRead(levels, job)
    requires IsMerge(job.inputs, input) && OutputsOk(levels, job, input, outputs, files)
    requires Replaced(levels, levels', job.inputs.level, job.inputs.upper, job.inputs.lower, files)
    requires t >= job.snapshot
    ensures Read(E, k, t) == Read(F, k, t)
  {
    SafeInputsGo(levels, job, input);
    forall e
      ensures e in F <==> e in E && (e !in input || Survives(job.base, job.inputs.level, input, job.snapshot, e))
    {
      StoredAfter(above, levels, levels', job, input, outputs, files, e);
    }
    forall d, e | d in E && d !in input && e in input && d.key.user == e.key.user
      && IsBase(job.base, job.inputs.level, e.key.user)
      ensures d.key.sequence > e.key.sequence
    {
      assert InInputs(job.inputs, e);
      InputsAreHeld(levels, job, e);
      if d !in above {
        var l, g :| InLevel(levels, l, g) && d in g.entries;
        assert !IsInput(job.inputs, l, g);
        StayingEntry(levels, job, l, g, d, e);
      }
    }
    DroppingPreservesReads(E, F, job.base, job.inputs.level, input, job.snapshot, k, t) by {
      forall e | e in input
        ensures e in E
      {
        InputsAreHeld(levels, job, e);
      }
    }
  }

  lemma InputsAreHeld(levels: Levels, job: Job, e: Entry)
    requires InputsIn(levels, job.inputs) && InInputs(job.inputs, e)
    ensures Holds(levels, e)
  {
    var l, f :| IsInput(job.inputs, l, f) && e in f.entries;
    assert InLevel(levels, l, f);
  }

  /** No file that stays holds an input entry. */
  ghost predicate InputsGo(levels: Levels, c: Inputs, input: seq<Entry>) {
    forall l, g, e :: Untouched(levels, c.level, c.upper, c.lower, l, g) && e in g.entries ==> e !in input
  }

  lemma SafeInputsGo(levels: Levels, job: Job, input: seq<Entry>)
    requires Recency(levels) && SafeToRead(levels, job) && IsMerge(job.inputs, input)
    ensures InputsGo(levels, job.inputs, input)
  {
    hide Recency, SafeToRead, Untouched, InInputs, Sorted;
    var c := job.inputs;
    forall l, g, e | Untouched(levels, c.level, c.upper, c.lower, l, g) && e in g.entries
      ensures e !in input
    {
      if e in input {
        StayingEntry(levels, job, l, g, e, e);
        assert false;
      }
    }
  }

  /** Exactly the surviving input entries, and everything else, is still stored. */
  lemma StoredAfter(above: set<Entry>, levels: Levels, levels': Levels, job: Job,
                    input: seq<Entry>, outputs: seq<seq<Entry>>, files: seq<File>, e: Entry)
    requires forall d, e :: d in above && Holds(levels, e) && d.key.user == e.key.user ==>
               d.key.sequence > e.key.sequence
    requires InputsIn(levels, job.inputs) && InputsGo(levels, job.inputs, input)
    requires IsMerge(job.inputs, input) && OutputsOk(levels, job, input, outputs, files)
    requires Replaced(levels, levels', job.inputs.level, job.inputs.upper, job.inputs.lower, files)
    ensures (e in above || Holds(levels', e)) <==>
              && (e in above || Holds(levels, e))
              && (e !in input || Survives(job.base, job.inputs.level, input, job.snapshot, e))
  {
    hide Recency, FileOk, Survives, Sorted, Flatten, SharesNoKey, BesideNewer;
    var c := job.inputs;
    if e in input {
      InputsAreHeld(levels, job, e);
    }
    if Holds(levels', e) {
      var l, g :| InLevel(levels', l, g) && e in g.entries;
      if !Untouched(levels, c.level, c.upper, c.lower, l, g) {
        OutputsSurvive(levels, job, input, outputs, files, g, e);
        assert e in input;
      }
    }
    if Holds(levels, e) && e !in input {
      var l, g :| InLevel(levels, l, g) && e in g.entries;
      assert !IsInput(c, l, g);
      assert InLevel(levels', l, g);
    }
    if e in input && Survives(job.base, c.level, input, job.snapshot, e) {
      FlattenOrder(outputs);
      assert e in Flatten(outputs);
      var i :| 0 <= i < |outputs| && e in outputs[i];
      assert InLevel(levels', c.level + 1, files[i]);
    }
  }

  lemma OutputsSurvive(levels: Levels, job: Job, input: seq<Entry>, outputs: seq<seq<Entry>>, files: seq<File>, g: File,
                       e: Entry)
    requires OutputsOk(levels, job, input, outputs, files) && g in files && e in g.entries
    ensures Survives(job.base, job.inputs.level, input, job.snapshot, e)
  {
    FlattenOrder(outputs);
  }

  /** A tombstone that is dropped uncovers a value: at the snapshot it is the newest entry of its
      user key, and the newest one outside the input is d. */
  ghost predicate Uncovers(E: set<Entry>, base: Levels, level: nat, input: seq<Entry>, ss: nat, e: Entry, d: Entry) {
    && e in input && e.key.kind.Deletion? && IsBase(base, level, e.key.user) && IsNewest(E, e.key.user, ss, e)
    && d.key.kind.Value? && IsNewest(Outside(E, input), e.key.user, ss, d)
  }

  ghost function Outside(E: set<Entry>, input: seq<Entry>): set<Entry> {
    set e | e in E && e !in input
  }

  /** Dropping shadowed entries and needless tombstones is invisible at and after the snapshot
      exactly when no tombstone uncovers a value. */
  lemma DropsExactly(E: set<Entry>, F: set<Entry>, base: Levels, level: nat, input: seq<Entry>, ss: nat)
    requires Distinct(E) && forall e :: e in input ==> e in E
    requires forall e :: e in F <==> e in E && (e !in input || Survives(base, level, input, ss, e))
    ensures (forall k, t :: t >= ss ==> Read(E, k, t) == Read(F, k, t)) <==>
              forall e, d :: !Uncovers(E, base, level, input, ss, e, d)
  {
    if e, d :| Uncovers(E, base, level, input, ss, e, d) {
      UncoveredIsRead(E, F, base, level, input, ss, e, d);
    } else {
      forall k, t | t >= ss
        ensures Read(E, k, t) == Read(F, k, t)
      {
        NothingUncovered(E, F, base, level, input, ss, k, t);
      }
    }
  }

  lemma UncoveredIsRead(E: set<Entry>, F: set<Entry>, base: Levels, level: nat, input: seq<Entry>, ss: nat, e: Entry,
                        d: Entry)
    requires Distinct(E)
    requires forall x :: x in F <==> x in E && (x !in input || Survives(base, level, input, ss, x))
    requires Uncovers(E, base, level, input, ss, e, d)
    ensures Read(E, e.key.user, ss) == None && Read(F, e.key.user, ss) == Some(d.value)
  {
    var k := e.key.user;
    ReadIs(E, k, ss, e);
    forall x | x in F && Visible(x, k, ss)
      ensures x.key.sequence <= d.key.sequence
    {
      if x !in input {
        assert x in Outside(E, input);
      }
    }
    assert d in Outside(E, input);
    ReadIs(F, k, ss, d);
  }

  lemma NothingUncovered(E: set<Entry>, F: set<Entry>, base: Levels, level: nat, input: seq<Entry>, ss: nat, k: UserKey,
                         t: nat)
    requires Distinct(E) && t >= ss && forall e :: e in input ==> e in E
    requires forall e :: e in F <==> e in E && (e !in input || Survives(base, level, input, ss, e))
    requires forall e, d :: !Uncovers(E, base, level, input, ss, e, d)
    ensures Read(E, k, t) == Read(F, k, t)
  {
    NewestExists(E, k, t);
    NewestExists(F, k, t);
    if e :| IsNewest(E, k, t, e) {
      ReadIs(E, k, t, e);
      if e in F {
        ReadIs(F, k, t, e);
      } else {
        assert !Shadowed(input, ss, e);
        assert e.key.kind.Deletion? && e.key.sequence <= ss && IsBase(base, level, k);
        if d :| IsNewest(F, k, t, d) {
          ReadIs(F, k, t, d);
          UncoversIfValue(E, F, base, level, input, ss, k, t, e, d);
        }
      }
    }
  }

  lemma UncoversIfValue(E: set<Entry>, F: set<Entry>, base: Levels, level: nat, input: seq<Entry>, ss: nat, k: UserKey,
                        t: nat, e: Entry, d: Entry)
    requires Distinct(E) && t >= ss && IsNewest(E, k, t, e) && IsNewest(F, k, t, d) && e !in F
    requires forall x :: x in F <==> x in E && (x !in input || Survives(base, level, input, ss, x))
    requires e in input && e.key.kind.Deletion? && e.key.sequence <= ss && IsBase(base, level, k)
    ensures d.key.kind.Value? ==> Uncovers(E, base, level, input, ss, e, d)
  {
    assert d in E && d.key.sequence < e.key.sequence;
    forall x | x in Outside(E, input) && Visible(x, k, ss)
      ensures x.key.sequence <= d.key.sequence
    {
      assert x in F && Visible(x, k, t);
    }
    assert forall x :: x in E && Visible(x, k, ss) ==> Visible(x, k, t);
  }

  /** In particular when whatever stays of a user key without deeper files is newer than the input. */
  lemma DroppingPreservesReads(E: set<Entry>, F: set<Entry>, base: Levels, level: nat, input: seq<Entry>, ss: nat,
                               k: UserKey, t: nat)
    requires Distinct(E) && t >= ss
    requires forall e :: e in input ==> e in E
    requires forall e :: e in F <==> e in E && (e !in input || Survives(base, level, input, ss, e))
    requires forall d, e ::
               d in E && d !in input && e in input && d.key.user == e.key.user && IsBase(base, level, e.key.user)
               ==> d.key.sequence > e.key.sequence
    ensures Read(E, k, t) == Read(F, k, t)
  {
    hide Survives, Read, IsBase;
    forall e, d
      ensures !Uncovers(E, base, level, input, ss, e, d)
    {
    }
    DropsExactly(E, F, base, level, input, ss);
  }
}
