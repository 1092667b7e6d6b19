/** The log-structured merge tree as a state machine: every step a run can take,
    the invariant all steps keep, and what readers see over whole runs. */
module Lsm {
  import opened InternalKeys
  import opened Options
  import opened Files
  import opened Selection
  import opened Picking
  import opened Compacting
  import opened Versions
  import opened VersionChanges

  /** `pending` counts the entries of the batch being written that are in the
      memtable but not yet published by LastSequence.  Two fields exist for the
      statements only: `history` is every entry ever written, and `horizon` is the
      largest smallest-snapshot of an installed compaction. */
  datatype State = State(
    mem: seq<Entry>,
    imm: Option<seq<Entry>>,
    levels: Levels,
    lastSequence: nat,
    pending: nat,
    nextFile: nat,
    job: Option<Job>,
    history: set<Entry>,
    horizon: nat)

  const EMPTY: State := State([], None, [[], [], [], [], [], [], []], 0, 0, 2, None, {}, 0)

  ghost predicate InImm(imm: Option<seq<Entry>>, e: Entry) {
    imm.Some? && e in imm.value
  }

  ghost predicate IsStored(mem: seq<Entry>, imm: Option<seq<Entry>>, levels: Levels, e: Entry) {
    e in mem || InImm(imm, e) || Holds(levels, e)
  }

  /** The entries a reader can still reach. */
  ghost function Stored(s: State): set<Entry> {
    set e | e in s.history && IsStored(s.mem, s.imm, s.levels, e)
  }

  // ---------- Steps ----------

  function NewEntry(s: State, user: UserKey, kind: ValueType, value: string): Entry {
    Entry(InternalKey(user, s.lastSequence + s.pending + 1, kind), value)
  }

  function TableOf(es: seq<Entry>, number: nat, size: nat): File
    requires es != []
  {
    File(number, size, es[0].key, es[|es| - 1].key, es)
  }

  datatype Action =
    | Insert(user: UserKey, kind: ValueType, value: string)
    | Publish
    | Switch
    | Flush(size: nat, level: nat)
    | Start(inputs: Inputs)
    | Move(moved: Inputs)
    | Install(input: seq<Entry>, outputs: seq<seq<Entry>>, files: seq<File>)
    | Abandon
    | Allocate

  /** One step from s to s'. */
  ghost predicate Step(s: State, s': State, a: Action) {
    match a
    case Insert(user, kind, value) =>
      && s.lastSequence + s.pending + 1 < MAX_SEQUENCE
      && Sorted(s.mem)
      && var e := NewEntry(s, user, kind, value);
         s' == s.(mem := InsertEntry(s.mem, e), pending := s.pending + 1, history := s.history + {e})
    case Publish =>
      s' == s.(lastSequence := s.lastSequence + s.pending, pending := 0)
    case Switch =>
      s.pending == 0 && s.imm.None? && s' == s.(imm := Some(s.mem), mem := [])
    case Flush(size, level) =>
      && s.imm.Some?
      && if s.imm.value == [] then s' == s.(imm := None, nextFile := s.nextFile + 1) else
         var f := TableOf(s.imm.value, s.nextFile, size);
         && FlushLevel(s.levels, Lo(f), Hi(f), level)
         && Replaced(s.levels, s'.levels, level - 1, [], [], [f])
         && s' == s.(imm := None, levels := s'.levels, nextFile := s.nextFile + 1)
    case Start(c) =>
      && s.job.None? && Selected(s.levels, c)
      && s' == s.(job := Some(Job(c, s.levels, s.lastSequence)))
    case Move(c) =>
      && s.job.None? && Selected(s.levels, c) && |c.upper| == 1 && c.lower == []
      && Replaced(s.levels, s'.levels, c.level, c.upper, c.lower, c.upper)
      && s' == s.(levels := s'.levels)
    case Install(input, outputs, files) =>
      && s.job.Some?
      && var c := s.job.value.inputs;
      && IsMerge(c, input)
      && OutputsOk(s.levels, s.job.value, input, outputs, files)
      && (forall f :: f in files ==> f.number < s.nextFile)
      && Replaced(s.levels, s'.levels, c.level, c.upper, c.lower, files)
      && s' == s.(levels := s'.levels, job := None,
                  horizon := if s.horizon < s.job.value.snapshot then s.job.value.snapshot else s.horizon)
    case Abandon =>
      s' == s.(job := None)
    case Allocate =>
      s' == s.(nextFile := s.nextFile + 1)
  }

  // ---------- The invariant ----------

  ghost predicate MemorySorted(mem: seq<Entry>, imm: Option<seq<Entry>>) {
    Sorted(mem) && (imm.Some? ==> Sorted(imm.value))
  }

  ghost predicate HistoryOk(history: set<Entry>, last: nat) {
    last < MAX_SEQUENCE && Distinct(history) && forall e :: e in history ==> e.key.sequence <= last
  }

  ghost predicate Recorded(history: set<Entry>, mem: seq<Entry>, imm: Option<seq<Entry>>, levels: Levels) {
    forall e :: IsStored(mem, imm, levels, e) ==> e in history
  }

  /** Only the memtable holds entries that are not yet published. */
  ghost predicate Published(imm: Option<seq<Entry>>, levels: Levels, last: nat) {
    forall e :: InImm(imm, e) || Holds(levels, e) ==> e.key.sequence <= last
  }

  /** Each memory table is newer than everything below it. */
  ghost predicate MemoryNewer(mem: seq<Entry>, imm: Option<seq<Entry>>, levels: Levels) {
    && (forall d, e :: d in mem && InImm(imm, e) && d.key.user == e.key.user ==> d.key.sequence > e.key.sequence)
    && (forall d, e :: d in mem && Holds(levels, e) && d.key.user == e.key.user ==> d.key.sequence > e.key.sequence)
    && (forall d, e :: InImm(imm, d) && Holds(levels, e) && d.key.user == e.key.user ==>
         d.key.sequence > e.key.sequence)
  }

  ghost predicate NumbersBelow(levels: Levels, n: nat) {
    forall l, f :: InLevel(levels, l, f) ==> f.number < n
  }

  /** Every reader that may still exist reads from the store what was written. */
  ghost predicate ReadsOk(history: set<Entry>, stored: set<Entry>, horizon: nat) {
    forall k, t :: t >= horizon ==> Read(history, k, t) == Read(stored, k, t)
  }

  ghost predicate FilesOk(levels: Levels) {
    forall l, f :: InLevel(levels, l, f) ==> FileOk(f)
  }

  ghost predicate JobsOk(levels: Levels, job: Option<Job>, last: nat) {
    job.Some? ==>
      JobOk(levels, job.value) && AllVisible(job.value) && job.value.snapshot <= last && FilesOk(job.value.base)
  }

  ghost predicate MemoryOk(s: State) {
    && MemorySorted(s.mem, s.imm)
    && HistoryOk(s.history, s.lastSequence + s.pending)
    && Recorded(s.history, s.mem, s.imm, s.levels)
    && Published(s.imm, s.levels, s.lastSequence)
    && MemoryNewer(s.mem, s.imm, s.levels)
  }

  ghost predicate Inv(s: State) {
    && Shape(s.levels) && Recency(s.levels)
    && NumbersBelow(s.levels, s.nextFile)
    && MemoryOk(s)
    && s.horizon <= s.lastSequence
    && ReadsOk(s.history, Stored(s), s.horizon)
    && JobsOk(s.levels, s.job, s.lastSequence)
  }

  lemma EmptyInv()
    ensures Inv(EMPTY)
  {
    assert forall l, f :: !InLevel(EMPTY.levels, l, f);
    assert forall e :: !IsStored(EMPTY.mem, EMPTY.imm, EMPTY.levels, e);
    assert Stored(EMPTY) == {};
  }

  // ---------- Writing ----------

  /** A new newest entry changes exactly the reads that can see it. */
  lemma InsertReads(E: set<Entry>, e: Entry, k: UserKey, t: nat)
    requires Distinct(E) && forall d :: d in E ==> d.key.sequence < e.key.sequence
    ensures Read(E + {e}, k, t) == if Visible(e, k, t) then ValueOf(e) else Read(E, k, t)
  {
    var F := E + {e};
    if Visible(e, k, t) {
      ReadIs(F, k, t, e);
    } else {
      NewestExists(E, k, t);
      if n :| IsNewest(E, k, t, n) {
        assert IsNewest(F, k, t, n);
        ReadIs(E, k, t, n);
        ReadIs(F, k, t, n);
      }
    }
  }

  lemma InsertKeepsMemory(s: State, s': State, user: UserKey, kind: ValueType, value: string)
    requires MemoryOk(s) && Step(s, s', Insert(user, kind, value))
    ensures MemoryOk(s')
    ensures Stored(s') == Stored(s) + {NewEntry(s, user, kind, value)}
  {
    hide Read, InsertEntry, Less;
    InsertEntryKeepsOrder(s.mem, NewEntry(s, user, kind, value)) by {
      assert forall e :: e in s.mem ==> IsStored(s.mem, s.imm, s.levels, e);
    }
    var e := NewEntry(s, user, kind, value);
    forall d
      ensures IsStored(s'.mem, s.imm, s.levels, d) <==> IsStored(s.mem, s.imm, s.levels, d) || d == e
    {
    }
    forall d | InImm(s.imm, d) || Holds(s.levels, d)
      ensures d.key.sequence < e.key.sequence
    {
    }
  }

  lemma InsertKeepsReads(history: set<Entry>, stored: set<Entry>, e: Entry, horizon: nat, last: nat)
    requires HistoryOk(history, last) && last < e.key.sequence
    requires stored <= history && ReadsOk(history, stored, horizon)
    ensures ReadsOk(history + {e}, stored + {e}, horizon)
  {
    forall k, t | t >= horizon
      ensures Read(history + {e}, k, t) == Read(stored + {e}, k, t)
    {
      InsertReads(history, e, k, t);
      InsertReads(stored, e, k, t);
    }
  }

  lemma InsertKeepsInv(s: State, s': State, user: UserKey, kind: ValueType, value: string)
    requires Inv(s) && Step(s, s', Insert(user, kind, value))
    ensures Inv(s')
    ensures Stored(s') == Stored(s) + {NewEntry(s, user, kind, value)}
  {
    InsertKeepsMemory(s, s', user, kind, value);
    InsertKeepsReads(s.history, Stored(s), NewEntry(s, user, kind, value), s.horizon, s.lastSequence + s.pending);
  }

  lemma PublishKeepsInv(s: State, s': State)
    requires Inv(s) && Step(s, s', Publish)
    ensures Inv(s') && Stored(s') == Stored(s)
  {
    hide Read, Shape, Recency, JobOk;
    assert Published(s'.imm, s'.levels, s'.lastSequence);
  }

  lemma SwitchKeepsInv(s: State, s': State)
    requires Inv(s) && Step(s, s', Switch)
    ensures Inv(s') && Stored(s') == Stored(s)
  {
    forall e
      ensures InImm(s'.imm, e) <==> e in s.mem
      ensures IsStored(s'.mem, s'.imm, s.levels, e) <==> IsStored(s.mem, s.imm, s.levels, e)
    {
    }
    assert Published(s'.imm, s.levels, s.lastSequence) by {
      assert forall e :: e in s.mem ==> IsStored(s.mem, s.imm, s.levels, e);
    }
    assert Stored(s') == Stored(s);
  }

  // ---------- Flushing ----------

  lemma FlushIsNewest(s: State, f: File)
    requires MemoryOk(s) && NumbersBelow(s.levels, s.nextFile)
    requires s.imm.Some? && s.imm.value != [] && f.entries == s.imm.value && f.number == s.nextFile
    requires f.smallest == f.entries[0].key && f.largest == f.entries[|f.entries| - 1].key
    ensures FileOk(f)
    ensures forall l, g :: InLevel(s.levels, l, g) ==> FileNewer(f, g) && g.number < f.number
  {
    assert forall e :: e in f.entries ==> InImm(s.imm, e);
    forall l, g | InLevel(s.levels, l, g)
      ensures FileNewer(f, g)
    {
      assert forall e :: e in g.entries ==> Holds(s.levels, e);
    }
  }

  lemma FlushedEntries(levels: Levels, levels': Levels, P: nat, f: File, imm: Option<seq<Entry>>)
    requires imm == Some(f.entries) && P < NUM_LEVELS
    requires Replaced(levels, levels', P - 1, [], [], [f])
    ensures forall e :: Holds(levels', e) <==> Holds(levels, e) || InImm(imm, e)
  {
    forall e
      ensures Holds(levels', e) <==> Holds(levels, e) || InImm(imm, e)
    {
      if l, g :| InLevel(levels, l, g) && e in g.entries {
        assert InLevel(levels', l, g);
      }
      assert f in [f];
      if InImm(imm, e) {
        assert InLevel(levels', P, f);
      }
    }
  }

  lemma FlushKeepsMemory(s: State, s': State)
    requires MemoryOk(s) && s.imm.Some?
    requires s' == s.(imm := None, levels := s'.levels, nextFile := s.nextFile + 1)
    requires forall e :: Holds(s'.levels, e) <==> Holds(s.levels, e) || InImm(s.imm, e)
    ensures MemoryOk(s') && Stored(s') == Stored(s)
  {
    forall e
      ensures IsStored(s'.mem, s'.imm, s'.levels, e) <==> IsStored(s.mem, s.imm, s.levels, e)
    {
    }
    assert Stored(s') == Stored(s);
  }

  lemma FlushKeepsLevels(levels: Levels, levels': Levels, P: nat, f: File, n: nat, job: Option<Job>, last: nat)
    requires Shape(levels) && Recency(levels) && NumbersBelow(levels, n) && JobsOk(levels, job, last)
    requires FileOk(f) && f.number == n && FlushLevel(levels, Lo(f), Hi(f), P)
    requires forall l, g :: InLevel(levels, l, g) ==> FileNewer(f, g) && g.number < f.number
    requires Replaced(levels, levels', P - 1, [], [], [f])
    ensures Shape(levels') && Recency(levels') && NumbersBelow(levels', n + 1) && JobsOk(levels', job, last)
  {
    FlushWelcome(levels, P, f);
    ReplaceKeepsShape(levels, levels', P - 1, [], [], [f]);
    ReplaceKeepsRecency(levels, levels', P - 1, [], [], [f]);
    if job.Some? {
      FlushKeepsJob(levels, levels', P, f, job.value);
    }
  }

  lemma FlushKeepsInv(s: State, s': State, size: nat, P: nat)
    requires Inv(s) && Step(s, s', Flush(size, P))
    ensures Inv(s') && Stored(s') == Stored(s)
  {
    if s.imm.value == [] {
      FlushKeepsMemory(s, s');
    } else {
      var f := TableOf(s.imm.value, s.nextFile, size);
      FlushIsNewest(s, f);
      FlushKeepsLevels(s.levels, s'.levels, P, f, s.nextFile, s.job, s.lastSequence);
      FlushedEntries(s.levels, s'.levels, P, f, s.imm);
      FlushKeepsMemory(s, s');
    }
  }

  // ---------- Compactions ----------

  lemma StartKeepsInv(s: State, s': State, c: Inputs)
    requires Inv(s) && Step(s, s', Start(c))
    ensures Inv(s') && Stored(s') == Stored(s)
  {
    hide Read, Recency, FileOk, Apart, SortedLevel, Selected, Spanned, Covered, BelowOutside, BesideNewer,
         DeeperOutside;
    SelectionStartsJob(s.levels, c, s.lastSequence);
    forall l, f, e | IsInput(c, l, f) && e in f.entries
      ensures e.key.sequence <= s.lastSequence
    {
      assert InLevel(s.levels, l, f);
      assert Holds(s.levels, e);
    }
  }

  lemma MovedEntries(levels: Levels, levels': Levels, c: Inputs)
    requires c.level + 1 < NUM_LEVELS && InputsIn(levels, c) && |levels| == NUM_LEVELS && c.lower == []
    requires Replaced(levels, levels', c.level, c.upper, c.lower, c.upper)
    ensures forall e :: Holds(levels', e) <==> Holds(levels, e)
  {
    forall e
      ensures Holds(levels', e) <==> Holds(levels, e)
    {
      if l, g :| InLevel(levels, l, g) && e in g.entries {
        assert InLevel(levels', if l == c.level && g in c.upper then l + 1 else l, g);
      }
      if l, g :| InLevel(levels', l, g) && e in g.entries {
        assert IsInput(c, c.level, g) || InLevel(levels, l, g);
      }
    }
  }

  /** The store changes in name only when the levels hold the same entries. */
  lemma SameEntries(s: State, s': State)
    requires MemoryOk(s)
    requires s' == s.(levels := s'.levels)
    requires forall e :: Holds(s'.levels, e) <==> Holds(s.levels, e)
    ensures MemoryOk(s') && Stored(s') == Stored(s)
  {
    forall e
      ensures IsStored(s'.mem, s'.imm, s'.levels, e) <==> IsStored(s.mem, s.imm, s.levels, e)
    {
    }
    assert Stored(s') == Stored(s);
  }

  lemma SelectedMayMove(levels: Levels, c: Inputs)
    requires Shape(levels) && Recency(levels)
    requires Selected(levels, c) && |c.upper| == 1
    ensures Welcome(levels, c.level, c.upper, c.lower, c.upper) && InputsIn(levels, c) && c.level + 1 < NUM_LEVELS
  {
    SelectionStartsJob(levels, c, 0);
    MoveWelcome(levels, Job(c, levels, 0));
  }

  lemma MoveKeepsNumbers(levels: Levels, levels': Levels, c: Inputs, n: nat)
    requires NumbersBelow(levels, n) && InputsIn(levels, c)
    requires Replaced(levels, levels', c.level, c.upper, c.lower, c.upper)
    ensures NumbersBelow(levels', n)
  {
    forall l, f | InLevel(levels', l, f)
      ensures f.number < n
    {
      assert f in c.upper ==> IsInput(c, c.level, f);
    }
  }

  lemma MoveKeepsLevels(levels: Levels, levels': Levels, c: Inputs, n: nat)
    requires Shape(levels) && Recency(levels) && NumbersBelow(levels, n)
    requires Selected(levels, c) && |c.upper| == 1
    requires Replaced(levels, levels', c.level, c.upper, c.lower, c.upper)
    ensures Shape(levels') && Recency(levels') && NumbersBelow(levels', n)
    ensures InputsIn(levels, c) && c.level + 1 < NUM_LEVELS
  {
    SelectedMayMove(levels, c);
    MoveKeepsNumbers(levels, levels', c, n);
    var L, upper, lower := c.level, c.upper, c.lower;
    ReplaceKeepsShape(levels, levels', L, upper, lower, upper);
    ReplaceKeepsRecency(levels, levels', L, upper, lower, upper);
  }

  lemma MoveKeepsInv(s: State, s': State, c: Inputs)
    requires Inv(s) && Step(s, s', Move(c))
    ensures Inv(s') && Stored(s') == Stored(s)
  {
    MoveKeepsLevels(s.levels, s'.levels, c, s.nextFile);
    MovedEntries(s.levels, s'.levels, c);
    SameEntries(s, s');
  }

  lemma MergeIsDistinct(s: State, c: Inputs, input: seq<Entry>)
    requires MemoryOk(s) && InputsIn(s.levels, c) && IsMerge(c, input)
    ensures DistinctSeq(input)
    ensures forall e :: e in input ==> Holds(s.levels, e)
  {
    forall e | e in input
      ensures Holds(s.levels, e) && e in s.history
    {
      InputsAreHeld(s.levels, Job(c, s.levels, 0), e);
      assert IsStored(s.mem, s.imm, s.levels, e);
    }
  }

  lemma InstallKeepsLevels(levels: Levels, levels': Levels, job: Job, input: seq<Entry>, outputs: seq<seq<Entry>>,
                           files: seq<File>, n: nat)
    requires Shape(levels) && Recency(levels) && NumbersBelow(levels, n)
    requires JobOk(levels, job) && AllVisible(job)
    requires IsMerge(job.inputs, input) && DistinctSeq(input)
    requires OutputsOk(levels, job, input, outputs, files)
    requires forall f :: f in files ==> f.number < n
    requires Replaced(levels, levels', job.inputs.level, job.inputs.upper, job.inputs.lower, files)
    ensures Shape(levels') && Recency(levels') && NumbersBelow(levels', n)
  {
    InstallWelcome(levels, job, input, outputs, files);
    ReplaceKeepsShape(levels, levels', job.inputs.level, job.inputs.upper, job.inputs.lower, files);
    ReplaceKeepsRecency(levels, levels', job.inputs.level, job.inputs.upper, job.inputs.lower, files);
  }

  lemma InstallShrinks(levels: Levels, levels': Levels, job: Job, input: seq<Entry>, outputs: seq<seq<Entry>>,
                       files: seq<File>)
    requires InputsIn(levels, job.inputs) && IsMerge(job.inputs, input)
    requires OutputsOk(levels, job, input, outputs, files)
    requires Replaced(levels, levels', job.inputs.level, job.inputs.upper, job.inputs.lower, files)
    ensures forall e :: Holds(levels', e) ==> Holds(levels, e)
  {
    forall e | Holds(levels', e)
      ensures Holds(levels, e)
    {
      var l, g :| InLevel(levels', l, g) && e in g.entries;
      if Untouched(levels, job.inputs.level, job.inputs.upper, job.inputs.lower, l, g) {
        assert InLevel(levels, l, g);
      } else {
        OutputsSurvive(levels, job, input, outputs, files, g, e);
        InputsAreHeld(levels, job, e);
      }
    }
  }

  lemma ShrinkKeepsMemory(s: State, s': State)
    requires MemoryOk(s)
    requires s'.mem == s.mem && s'.imm == s.imm && s'.history == s.history
    requires s'.lastSequence == s.lastSequence && s'.pending == s.pending
    requires forall e :: Holds(s'.levels, e) ==> Holds(s.levels, e)
    ensures MemoryOk(s')
  {
    forall e | IsStored(s'.mem, s'.imm, s'.levels, e)
      ensures IsStored(s.mem, s.imm, s.levels, e)
    {
    }
  }

  lemma InstallKeepsReads(s: State, s': State, input: seq<Entry>, outputs: seq<seq<Entry>>, files: seq<File>,
                          k: UserKey, t: nat)
    requires Inv(s) && Step(s, s', Install(input, outputs, files))
    requires t >= s.job.value.snapshot
    ensures Read(Stored(s), k, t) == Read(Stored(s'), k, t)
  {
    var job := s.job.value;
    var above := set e | e in s.history && (e in s.mem || InImm(s.imm, e));
    InstallShrinks(s.levels, s'.levels, job, input, outputs, files);
    StoredSplits(s, above);
    ShrinkKeepsMemory(s, s');
    StoredSplits(s', above);
    JobIsSafeToRead(s.levels, job);
    CompactionPreservesReads(Stored(s), Stored(s'), above, s.levels, s'.levels, job, input, outputs, files, k, t);
  }

  lemma StoredSplits(s: State, above: set<Entry>)
    requires Recorded(s.history, s.mem, s.imm, s.levels)
    requires above == set e | e in s.history && (e in s.mem || InImm(s.imm, e))
    ensures forall e :: e in Stored(s) <==> e in above || Holds(s.levels, e)
  {
    forall e | Holds(s.levels, e)
      ensures e in s.history
    {
      assert IsStored(s.mem, s.imm, s.levels, e);
    }
  }

  lemma InstallKeepsInv(s: State, s': State, input: seq<Entry>, outputs: seq<seq<Entry>>, files: seq<File>)
    requires Inv(s) && Step(s, s', Install(input, outputs, files))
    ensures Inv(s')
  {
    var job := s.job.value;
    MergeIsDistinct(s, job.inputs, input);
    InstallKeepsLevels(s.levels, s'.levels, job, input, outputs, files, s.nextFile);
    InstallShrinks(s.levels, s'.levels, job, input, outputs, files);
    ShrinkKeepsMemory(s, s');
    forall k, t | t >= s'.horizon
      ensures Read(s'.history, k, t) == Read(Stored(s'), k, t)
    {
      InstallKeepsReads(s, s', input, outputs, files, k, t);
    }
  }

  // ---------- Every step, every run ----------

  lemma StepKeepsInv(s: State, s': State, a: Action)
    requires Inv(s) && Step(s, s', a)
    ensures Inv(s')
  {
    hide Read, Shape, Recency, MemorySorted, HistoryOk, Recorded, Published, MemoryNewer, ReadsOk, JobOk;
    match a
    case Insert(user, kind, value) => InsertKeepsInv(s, s', user, kind, value);
    case Publish => PublishKeepsInv(s, s');
    case Switch => SwitchKeepsInv(s, s');
    case Flush(size, level) => FlushKeepsInv(s, s', size, level);
    case Start(c) => StartKeepsInv(s, s', c);
    case Move(c) => MoveKeepsInv(s, s', c);
    case Install(input, outputs, files) => InstallKeepsInv(s, s', input, outputs, files);
    case Abandon =>
    case Allocate =>
  }

  /** Every step except a write leaves every read unchanged. */
  lemma StepKeepsReads(s: State, s': State, a: Action, k: UserKey, t: nat)
    requires Inv(s) && Step(s, s', a) && !a.Insert?
    requires t >= s'.horizon
    ensures Read(Stored(s), k, t) == Read(Stored(s'), k, t)
  {
    StepKeepsInv(s, s', a);
    assert s'.history == s.history && s'.horizon >= s.horizon;
  }

  /** A write is invisible to readers at older sequence numbers. */
  lemma WriteKeepsOlderReads(s: State, s': State, a: Action, k: UserKey, t: nat)
    requires Inv(s) && Step(s, s', a) && a.Insert?
    requires s.horizon <= t <= s.lastSequence + s.pending
    ensures Read(Stored(s), k, t) == Read(Stored(s'), k, t)
  {
    InsertKeepsInv(s, s', a.user, a.kind, a.value);
    InsertReads(s.history, NewEntry(s, a.user, a.kind, a.value), k, t);
  }

  // ---------- Refinement of a plain map with atomic batches ----------

  /** `view` is what readers see; `next` is what they will see once the batch being
      written is published. */
  datatype Spec = Spec(view: map<UserKey, string>, next: map<UserKey, string>)

  function SpecStep(spec: Spec, a: Action): Spec {
    if a.Insert? then Spec(spec.view, if a.kind.Value? then spec.next[a.user := a.value] else spec.next - {a.user})
    else if a.Publish? then Spec(spec.next, spec.next)
    else spec
  }

  function Lookup(m: map<UserKey, string>, k: UserKey): Option<string> {
    if k in m then Some(m[k]) else None
  }

  ghost predicate Refines(s: State, spec: Spec) {
    forall k ::
      && Read(s.history, k, s.lastSequence) == Lookup(spec.view, k)
      && Read(s.history, k, s.lastSequence + s.pending) == Lookup(spec.next, k)
  }

  lemma InsertRefines(history: set<Entry>, last: nat, pending: nat, e: Entry, spec: Spec)
    requires HistoryOk(history, last + pending) && e.key.sequence == last + pending + 1
    requires forall k :: Read(history, k, last) == Lookup(spec.view, k)
    requires forall k :: Read(history, k, last + pending) == Lookup(spec.next, k)
    ensures forall k :: Read(history + {e}, k, last) == Lookup(spec.view, k)
    ensures forall k :: Read(history + {e}, k, last + pending + 1)
                     == Lookup(SpecStep(spec, Insert(e.key.user, e.key.kind, e.value)).next, k)
  {
    hide Read;
    var next := SpecStep(spec, Insert(e.key.user, e.key.kind, e.value)).next;
    forall k
      ensures Read(history + {e}, k, last) == Lookup(spec.view, k)
      ensures Read(history + {e}, k, last + pending + 1) == Lookup(next, k)
    {
      assert Lookup(next, k) == if k == e.key.user then ValueOf(e) else Lookup(spec.next, k);
      InsertReads(history, e, k, last);
      InsertReads(history, e, k, last + pending + 1);
      ReadBeyondEnd(history, k, last + pending, last + pending + 1);
    }
  }

  lemma StepRefines(s: State, s': State, a: Action, spec: Spec)
    requires MemoryOk(s) && Step(s, s', a) && Refines(s, spec)
    ensures Refines(s', SpecStep(spec, a))
  {
    hide Read, Lookup;
    match a
    case Insert(user, kind, value) =>
      InsertRefines(s.history, s.lastSequence, s.pending, NewEntry(s, user, kind, value), spec);
    case _ =>
  }

  /** Beyond the last sequence number nothing more becomes visible. */
  lemma ReadBeyondEnd(E: set<Entry>, k: UserKey, last: nat, t: nat)
    requires HistoryOk(E, last) && last <= t
    ensures Read(E, k, t) == Read(E, k, last)
  {
    NewestExists(E, k, last);
    if n :| IsNewest(E, k, last, n) {
      assert IsNewest(E, k, t, n);
      ReadIs(E, k, last, n);
      ReadIs(E, k, t, n);
    }
  }

  /** A run starts with an empty database and takes one step after the other. */
  ghost predicate Run(states: seq<State>, actions: seq<Action>)
    decreases |actions|
  {
    && |states| == |actions| + 1
    && if actions == [] then states[0] == EMPTY else
         var n := |actions|;
         Run(states[..n], actions[..n - 1]) && Step(states[n - 1], states[n], actions[n - 1])
  }

  function SpecAfter(actions: seq<Action>): Spec {
    var n := |actions|;
    if n == 0 then Spec(map[], map[]) else SpecStep(SpecAfter(actions[..n - 1]), actions[n - 1])
  }

  /** At the end of every run the invariant holds and the history refines the map. */
  lemma {:induction false} RunRefines(states: seq<State>, actions: seq<Action>)
    requires Run(states, actions)
    ensures Inv(states[|actions|])
    ensures Refines(states[|actions|], SpecAfter(actions))
    decreases |actions|
  {
    if actions == [] {
      EmptyInv();
      forall k
        ensures Read({}, k, 0) == None
      {
        ReadNothing({}, k, 0);
      }
    } else {
      var n := |actions|;
      RunRefines(states[..n], actions[..n - 1]);
      StepKeepsInv(states[n - 1], states[n], actions[n - 1]);
      StepRefines(states[n - 1], states[n], actions[n - 1], SpecAfter(actions[..n - 1]));
    }
  }

  /** What is stored reads, at LastSequence, exactly like a plain map on which every
      batch takes effect at once. */
  lemma RunReads(states: seq<State>, actions: seq<Action>, k: UserKey)
    requires Run(states, actions)
    ensures var s := states[|actions|];
            Read(Stored(s), k, s.lastSequence) == Lookup(SpecAfter(actions).view, k)
  {
    RunRefines(states, actions);
  }
}
