/** The database object: each of its operations takes steps of the state machine, so
    what is proved of all runs holds of every sequence of calls. */
module Database {
  import opened Batches
  import opened InternalKeys
  import opened Options
  import opened Files
  import opened Selection
  import opened Picking
  import opened Compacting
  import opened Versions
  import opened VersionChanges
  import opened VersionBuilder
  import opened VersionSets
  import opened Reading
  import opened DbIterator
  import opened Lsm

  const L0_STOP_WRITES_TRIGGER: nat := 12

  datatype Room = Fits | WaitForFlush | WaitForLevel0 | Switched

  datatype Progress = Flushed | Nothing | Moved | Started

  /** A run goes on with any step the state machine allows. */
  lemma ExtendRun(states: seq<State>, actions: seq<Action>, s: State, a: Action)
    requires Run(states, actions) && Step(states[|actions|], s, a)
    ensures Run(states + [s], actions + [a])
  {
    hide Step;
    var n := |actions|;
    var all, acts := states + [s], actions + [a];
    assert all[..n + 1] == states && acts[..n] == actions;
    assert all[n] == states[n] && all[n + 1] == s && acts[n] == a;
  }

  lemma SpecExtends(actions: seq<Action>, a: Action)
    ensures SpecAfter(actions + [a]) == SpecStep(SpecAfter(actions), a)
  {
    assert (actions + [a])[..|actions|] == actions;
  }

  class DBImpl {
    var mem: seq<Entry>
    var imm: Option<seq<Entry>>
    var current: Levels
    var lastSequence: nat
    /** Entries of the group being written that are in `mem` already. */
    var pending: nat
    var nextFile: nat
    var job: Option<Job>
    var compactPointer: seq<Option<InternalKey>>
    const maxFileSize: nat
    /** Size of the table that holds given entries. */
    const sizeOf: seq<Entry> -> nat
    ghost var states: seq<State>
    ghost var actions: seq<Action>

    ghost function Last(): State
      reads this
      requires |states| == |actions| + 1
    {
      states[|actions|]
    }

    /** The object is in the last state of a run. */
    ghost predicate Valid()
      reads this
    {
      && |compactPointer| == |current| == NUM_LEVELS
      && |states| == |actions| + 1 && Run(states, actions)
      && Last() == State(mem, imm, current, lastSequence, pending, nextFile, job, Last().history, Last().horizon)
      && (job.Some? ==> InOrder(job.value.inputs))
    }

    /** What readers must see. */
    ghost function View(): map<UserKey, string>
      reads this
    {
      SpecAfter(actions).view
    }

    /** The run is one step longer than `before`. */
    ghost predicate StepsTo(before: seq<Action>)
      reads this
    {
      |actions| == |before| + 1 && actions[..|before|] == before
    }

    constructor (maxFileSize: nat, sizeOf: seq<Entry> -> nat)
      ensures Valid() && View() == map[] && this.maxFileSize == maxFileSize && this.sizeOf == sizeOf
      ensures current == [[], [], [], [], [], [], []] && forall l :: 0 <= l < NUM_LEVELS ==> compactPointer[l] == None
    {
      mem, imm, current, lastSequence, pending := EMPTY.mem, EMPTY.imm, EMPTY.levels, 0, 0;
      nextFile, job := EMPTY.nextFile, None;
      compactPointer := seq(NUM_LEVELS, _ => None);
      this.maxFileSize, this.sizeOf := maxFileSize, sizeOf;
      states, actions := [EMPTY], [];
    }

    lemma InvHolds()
      requires Valid()
      ensures Inv(Last())
      ensures Refines(Last(), SpecAfter(actions))
    {
      RunRefines(states, actions);
    }

    /** Between groups, what is published is all there is. */
    lemma NothingPending()
      requires Valid() && pending == 0
      ensures SpecAfter(actions).next == View()
    {
      hide Read, Inv;
      InvHolds();
      SameMaps(Last(), SpecAfter(actions));
    }

    ghost method Take(s: State, a: Action)
      requires Run(states, actions) && Step(Last(), s, a)
      modifies this`states, this`actions
      ensures Run(states, actions) && Last() == s
      ensures actions == old(actions) + [a] && SpecAfter(actions) == SpecStep(SpecAfter(old(actions)), a)
    {
      ExtendRun(states, actions, s, a);
      SpecExtends(actions, a);
      states, actions := states + [s], actions + [a];
    }

    // ---------- Writing ----------

    /** MemTable::Add for one record of the group being written. */
    method InsertInto(op: Op)
      requires Valid() && lastSequence + pending + 1 < MAX_SEQUENCE
      modifies this`mem, this`pending, this`states, this`actions
      ensures Valid() && actions == old(actions) + [Insert(op.user, op.kind, op.value)]
      ensures lastSequence == old(lastSequence) && pending == old(pending) + 1
      ensures SpecAfter(actions).view == old(View()) && SpecAfter(actions).next == ApplyOp(old(SpecAfter(actions).next),
              op)
    {
      hide InOrder, Inv, Refines, Run, InsertEntry, SpecAfter;
      InvHolds();
      SortedMemory(Last());
      ghost var s := Last();
      ghost var e := NewEntry(s, op.user, op.kind, op.value);
      ghost var s' := s.(mem := InsertEntry(s.mem, e), pending := s.pending + 1, history := s.history + {e});
      mem := InsertEntry(mem, Entry(InternalKey(op.user, lastSequence + pending + 1, op.kind), op.value));
      pending := pending + 1;
      Take(s', Insert(op.user, op.kind, op.value));
    }

    /** SetLastSequence at the end of a group. */
    method Publish()
      requires Valid()
      modifies this`lastSequence, this`pending, this`states, this`actions
      ensures Valid() && actions == old(actions) + [Action.Publish]
      ensures lastSequence == old(lastSequence) + old(pending) && pending == 0
      ensures SpecAfter(actions).view == SpecAfter(actions).next == old(SpecAfter(actions).next)
    {
      hide InOrder, Run, SpecAfter;
      ghost var s := Last();
      lastSequence, pending := lastSequence + pending, 0;
      Take(s.(lastSequence := s.lastSequence + s.pending, pending := 0), Action.Publish);
    }

    /** One group of batches: afterwards readers see all of it, and before none of it. */
    method Write(batch: seq<Op>)
      requires Valid() && pending == 0 && lastSequence + |batch| < MAX_SEQUENCE
      modifies this`mem, this`lastSequence, this`pending, this`states, this`actions
      ensures Valid() && pending == 0 && lastSequence == old(lastSequence) + |batch|
      ensures View() == ApplyOps(old(View()), batch)
    {
      hide Valid, InOrder, SpecAfter;
      NothingPending();
      var i := 0;
      while i < |batch|
        invariant 0 <= i <= |batch| && Valid()
        invariant lastSequence == old(lastSequence) && pending == i
        invariant View() == old(View())
        invariant SpecAfter(actions).next == ApplyOps(old(View()), batch[..i])
      {
        assert batch[..i + 1][..i] == batch[..i];
        InsertInto(batch[i]);
        i := i + 1;
      }
      assert batch[..|batch|] == batch;
      Publish();
    }

    /** One turn of MakeRoomForWrite's loop. */
    method MakeRoom(force: bool, usage: nat, writeBufferSize: nat) returns (room: Room)
      requires Valid() && pending == 0
      modifies this`mem, this`imm, this`nextFile, this`states, this`actions
      ensures Valid() && pending == 0 && View() == old(View())
      ensures room.Switched? <==>
                (force || usage > writeBufferSize) && old(imm) == None && |current[0]| < 12
      ensures room.Fits? <==> !force && usage <= writeBufferSize
      ensures room.WaitForFlush? <==> (force || usage > writeBufferSize) && old(imm).Some?
      ensures room.Switched? ==> imm == Some(old(mem)) && mem == [] && nextFile == old(nextFile) + 1
      ensures !room.Switched? ==> imm == old(imm) && mem == old(mem) && actions == old(actions)
                                  && nextFile == old(nextFile)
    {
      hide InOrder, Run, SpecAfter, Inv, Refines;
      InvHolds();
      if !force && usage <= writeBufferSize {
        return Fits;
      } else if imm.Some? {
        return WaitForFlush;
      } else if |current[0]| >= L0_STOP_WRITES_TRIGGER {
        return WaitForLevel0;
      }
      ghost var s := Last();
      nextFile := nextFile + 1;
      Take(s.(nextFile := s.nextFile + 1), Allocate);
      imm := Some(mem);
      mem := [];
      s := Last();
      Take(s.(imm := Some(s.mem), mem := []), Switch);
      return Switched;
    }

    // ---------- Background work ----------

    /** CompactMemTable: the immutable memtable becomes a table file, as deep as it may go. */
    method CompactMemTable() returns (level: nat)
      requires Valid() && imm.Some?
      modifies this`imm, this`current, this`nextFile, this`states, this`actions
      ensures Valid() && imm == None && View() == old(View())
      ensures nextFile == old(nextFile) + 1
      ensures old(imm).value == [] ==> current == old(current)
      ensures old(imm).value != [] ==>
                FlushedTo(old(current), current, TableOf(old(imm).value, old(nextFile), sizeOf(old(imm).value)),
                  maxFileSize, level)
    {
      hide InOrder, Run, SpecAfter, Inv, Read, FlushedTo, Refines;
      ghost var s := Last();
      InvHolds();
      InvParts(s);
      var es := imm.value;
      var number := nextFile;
      nextFile := nextFile + 1;
      level := 0;
      if es != [] {
        var f := TableOf(es, number, sizeOf(es));
        level, current := WriteLevel0Table(current, f, maxFileSize);
      }
      imm := None;
      ghost var s' := s.(imm := None, levels := current, nextFile := s.nextFile + 1);
      FlushStep(s, s', es, sizeOf(es), maxFileSize, level);
      Take(s', Flush(sizeOf(es), level));
    }

    /** BackgroundCompaction up to the point where it starts reading: flush first, else
        move a lone file down, else start a real compaction. */
    method BackgroundCompaction(pick: Option<(nat, Option<File>)>) returns (done: Progress)
      requires Valid() && job.None?
      requires pick.Some? ==> pick.value.0 + 1 < NUM_LEVELS && current[pick.value.0] != []
      requires pick.Some? && pick.value.1.Some? ==> pick.value.1.value in current[pick.value.0]
      modifies this`imm, this`current, this`nextFile, this`job, this`compactPointer, this`states, this`actions
      ensures Valid() && View() == old(View())
      ensures done.Flushed? <==> old(imm).Some?
      ensures done.Nothing? <==> old(imm).None? && pick.None?
      ensures !done.Started? ==> job.None?
      ensures done.Flushed? || done.Nothing? ==> compactPointer == old(compactPointer)
      ensures !done.Flushed? ==> imm == old(imm) && nextFile == old(nextFile)
      ensures done.Flushed? ==> imm == None && nextFile == old(nextFile) + 1
      ensures done.Flushed? && old(imm).value == [] ==> current == old(current)
      ensures done.Flushed? && old(imm).value != [] ==> exists level: nat ::
                FlushedTo(old(current), current, TableOf(old(imm).value, old(nextFile), sizeOf(old(imm).value)),
                  maxFileSize, level)
      ensures done.Nothing? ==> current == old(current)
      ensures done.Moved? ==>
                && StepsTo(old(actions)) && actions[|old(actions)|].Move?
                && var c := actions[|old(actions)|].moved;
                   && Requested(old(current), old(compactPointer), pick.value, maxFileSize, c, compactPointer)
                   && |c.upper| == 1 && c.lower == [] && TotalFileSize(c.grandparents) <= 10 * maxFileSize
                   && Replaced(old(current), current, c.level, c.upper, [], c.upper)
      ensures done.Started? ==>
                && job.Some? && current == old(current)
                && job.value == Job(job.value.inputs, current, lastSequence) && Selected(current, job.value.inputs)
                && var c := job.value.inputs;
                   && Requested(old(current), old(compactPointer), pick.value, maxFileSize, c, compactPointer)
                   && !(|c.upper| == 1 && c.lower == [] && TotalFileSize(c.grandparents) <= 10 * maxFileSize)
    {
      hide InOrder, Run, SpecAfter, Shape, Recency, Inv, Read, Replaced, RangesOk, Selected, InputsIn, Picks, FlushedTo;
      if imm.Some? {
        var _ := CompactMemTable();
        return Flushed;
      }
      if pick.None? {
        return Nothing;
      }
      ghost var s := Last();
      InvHolds();
      InvParts(s);
      ShapeGivesRanges(current);
      var (level, seek) := pick.value;
      var c := PickCompaction(current, level, compactPointer[level], seek, maxFileSize);
      compactPointer := compactPointer[level := Some(c.largest)];
      if IsTrivialMove(c, maxFileSize) {
        current := MoveDown(current, c);
        Take(s.(levels := current), Move(c));
        return Moved;
      }
      job := Some(Job(c, current, lastSequence));
      Take(s.(job := job), Start(c));
      return Started;
    }

    /** The end of DoCompactionWork for the compaction that was started: merge, drop,
        write the outputs and install them.  Flushes may have happened since the start. */
    method FinishCompaction(full: nat -> bool)
      requires Valid() && job.Some?
      modifies this`current, this`nextFile, this`job, this`states, this`actions
      ensures Valid() && job == None && View() == old(View())
      ensures actions != [] && actions[|actions| - 1].Install?
      ensures var job, a := old(job.value), actions[|actions| - 1];
              && IsMerge(job.inputs, a.input) && OutputsOk(old(current), job, a.input, a.outputs, a.files)
              && CutRight(a.outputs, a.input, Survivors(job.base, job.inputs.level, a.input, job.snapshot),
                          Stops(job.inputs.grandparents, maxFileSize, a.input), full, |a.input|)
              && Replaced(old(current), current, job.inputs.level, job.inputs.upper, job.inputs.lower, a.files)
              && nextFile == old(nextFile) + |a.files|
              && forall i :: 0 <= i < |a.files| ==>
                   a.files[i] == TableOf(a.outputs[i], old(nextFile) + i, sizeOf(a.outputs[i]))
    {
      hide InOrder, Run, SpecAfter, Inv, Read, Replaced, IsMerge, Survives, OutputsOk, Refines, Flatten, JobOk,
           CutRight, Survivors, Stops, Shape, Recency, InputsIn;
      InvHolds();
      var c := job.value.inputs;
      var before := nextFile;
      ghost var input;
      var outputs;
      input, outputs := MergeInputs(Last(), current, job.value, maxFileSize, full);
      var files := NumberOutputs(outputs);
      InvHolds();
      ghost var s := Last();
      InvParts(s);
      OutputsAreOk(s, input, outputs, files, before, sizeOf);
      JobParts(s);
      current := InstallOutputs(current, c, files);
      job := None;
      ghost var horizon := if s.horizon < s.job.value.snapshot then s.job.value.snapshot else s.horizon;
      Take(s.(levels := current, job := None, horizon := horizon), Install(input, outputs, files));
    }

    /** File numbers for the outputs, one NewFileNumber each. */
    method NumberOutputs(outputs: seq<seq<Entry>>) returns (files: seq<File>)
      requires Valid() && forall i :: 0 <= i < |outputs| ==> outputs[i] != []
      modifies this`nextFile, this`states, this`actions
      ensures Valid() && View() == old(View()) && SpecAfter(actions) == old(SpecAfter(actions))
      ensures nextFile == old(nextFile) + |outputs| && |files| == |outputs|
      ensures forall i :: 0 <= i < |files| ==> files[i] == TableOf(outputs[i], old(nextFile) + i, sizeOf(outputs[i]))
    {
      hide InOrder, Run, SpecAfter;
      files := [];
      var i := 0;
      while i < |outputs|
        invariant 0 <= i <= |outputs| && |files| == i && Valid() && SpecAfter(actions) == old(SpecAfter(actions))
        invariant nextFile == old(nextFile) + i
        invariant forall j :: 0 <= j < i ==> files[j] == TableOf(outputs[j], old(nextFile) + j, sizeOf(outputs[j]))
      {
        files := files + [TableOf(outputs[i], nextFile, sizeOf(outputs[i]))];
        nextFile := nextFile + 1;
        ghost var s := Last();
        Take(s.(nextFile := s.nextFile + 1), Allocate);
        i := i + 1;
      }
    }

    /** A compaction that fails or is shut down leaves everything as it is. */
    method AbandonCompaction()
      requires Valid() && job.Some?
      modifies this`job, this`states, this`actions
      ensures Valid() && job == None && View() == old(View())
    {
      hide InOrder, Run, SpecAfter;
      job := None;
      ghost var s := Last();
      Take(s.(job := None), Abandon);
    }

    // ---------- Reading ----------

    /** Get at LastSequence: memtable, immutable memtable, then the version; the first hit is the answer. */
    method Get(k: UserKey) returns (r: Option<string>)
      requires Valid()
      ensures r == Lookup(View(), k)
    {
      hide InOrder, Run, SpecAfter, Shape, Recency, Inv, Read, Answers;
      InvHolds();
      var snapshot := lastSequence;
      InvParts(Last());
      var hit := TableGet(mem, k, snapshot);
      ghost var inMem, inImm, below := hit, None, None;
      if hit.None? && imm.Some? {
        hit := TableGet(imm.value, k, snapshot);
        inImm := hit;
      }
      if hit.None? {
        hit := VersionGet(current, k, snapshot);
        below := hit;
      }
      FirstHitIsNewest(Last(), k, snapshot, inMem, inImm, below);
      StoredIsView(Last(), SpecAfter(actions), k);
      r := if hit.Some? then ValueOf(hit.value) else None;
    }

    /** NewIterator: a database iterator over everything stored, at LastSequence; also while
        a group leader inserts beyond it. */
    method NewIterator() returns (iter: DBIter)
      requires Valid()
      ensures fresh(iter) && fresh(iter.iter) && fresh(iter.iter.children)
      ensures iter.Inv() && !iter.Valid() && iter.sequence == lastSequence
      ensures forall k :: Read(iter.E(), k, lastSequence) == Lookup(View(), k)
    {
      hide InOrder, Run, SpecAfter, Shape, Recency, Inv, Read, ListsOk, InLists;
      InvHolds();
      InvParts(Last());
      var lists := AddIterators(current);
      MemoryLists(Last(), lists);
      lists := [mem] + (if imm.Some? then [imm.value] else []) + lists;
      var internal := MergeLists(lists, lastSequence);
      assert internal.All() == Stored(Last());
      iter := new DBIter(internal, lastSequence);
      forall k
        ensures Read(iter.E(), k, lastSequence) == Lookup(View(), k)
      {
        StoredIsView(Last(), SpecAfter(actions), k);
      }
    }
  }

  /** The inputs are those that the rules pick at the level asked for, and the compaction pointer
      of that level, and no other, moves to their end. */
  ghost predicate Requested(levels: Levels, pointers: seq<Option<InternalKey>>, pick: (nat, Option<File>),
                            maxFileSize: nat, c: Inputs, pointers': seq<Option<InternalKey>>)
  {
    && pick.0 < |pointers| && Picks(levels, pick.0, pointers[pick.0], pick.1, maxFileSize, c)
    && pointers' == pointers[pick.0 := Some(c.largest)]
  }

  predicate IsTrivialMove(c: Inputs, maxFileSize: nat) {
    |c.upper| == 1 && |c.lower| == 0 && TotalFileSize(c.grandparents) <= MaxGrandParentOverlapBytes(maxFileSize)
  }

  function InputDeletions(c: Inputs): set<(nat, nat)> {
    (set f | f in c.upper :: (c.level, f.number)) + (set f | f in c.lower :: (c.level + 1, f.number))
  }

  // ---------- Flush, move and compaction as edits ----------

  /** A flushed table stands at the deepest level it may sink to. */
  ghost predicate FlushedTo(levels: Levels, levels': Levels, f: File, maxFileSize: nat, level: nat) {
    && |levels| == NUM_LEVELS
    && MaySink(levels, Lo(f), Hi(f), maxFileSize, level)
    && (level < MAX_MEM_COMPACT_LEVEL ==> !MaySink(levels, Lo(f), Hi(f), maxFileSize, level + 1))
    && Replaced(levels, levels', level - 1, [], [], [f])
  }

  /** WriteLevel0Table and the edit it leads to. */
  method WriteLevel0Table(levels: Levels, f: File, maxFileSize: nat) returns (level: nat, levels': Levels)
    requires Shape(levels) && forall l, g :: InLevel(levels, l, g) ==> g.number != f.number
    ensures FlushedTo(levels, levels', f, maxFileSize, level)
  {
    hide RangesOk, Shape, Replaced, FlushLevel;
    ShapeGivesRanges(levels);
    level := PickLevelForMemTableOutput(levels, Lo(f), Hi(f), maxFileSize);
    SinkLevel(levels, Lo(f), Hi(f), maxFileSize, level);
    levels' := InstallEdit(levels, Edit({}, [(level, f)]), level - 1, [], [], [f]);
  }

  lemma SinkLevel(levels: Levels, lo: UserKey, hi: UserKey, maxFileSize: nat, level: nat)
    requires |levels| == NUM_LEVELS && MaySink(levels, lo, hi, maxFileSize, level)
    ensures level < NUM_LEVELS && FlushLevel(levels, lo, hi, level)
  {
  }

  lemma FlushStep(s: State, s': State, es: seq<Entry>, size: nat, maxFileSize: nat, level: nat)
    requires s.imm == Some(es) && s' == s.(imm := None, levels := s'.levels, nextFile := s.nextFile + 1)
    requires es == [] ==> s'.levels == s.levels
    requires es != [] ==> FlushedTo(s.levels, s'.levels, TableOf(es, s.nextFile, size), maxFileSize, level)
    ensures Step(s, s', Flush(size, level))
  {
    hide Replaced, FlushLevel;
  }

  method MoveDown(levels: Levels, c: Inputs) returns (levels': Levels)
    requires Shape(levels) && Selected(levels, c) && |c.upper| == 1 && c.lower == []
    ensures Replaced(levels, levels', c.level, c.upper, c.lower, c.upper) && |levels'| == NUM_LEVELS
  {
    hide RangesOk, FileOk, SortedLevel, Apart, Hull, Gapless, NoBoundaryLeft, IsMeeting, Isolated;
    var f := c.upper[0];
    assert InLevel(levels, c.level, f);
    forall g | InLevel(levels, c.level + 1, g)
      ensures g.number != f.number
    {
    }
    levels' := InstallEdit(levels, Edit({(c.level, f.number)}, [(c.level + 1, f)]), c.level, c.upper, c.lower, c.upper);
  }

  method InstallOutputs(levels: Levels, c: Inputs, files: seq<File>) returns (levels': Levels)
    requires Shape(levels) && InputsIn(levels, c) && c.level + 1 < NUM_LEVELS
    requires forall i, j :: 0 <= i < j < |files| ==> files[i].number != files[j].number
    requires forall i, l, g :: 0 <= i < |files| && InLevel(levels, l, g) ==> files[i].number != g.number
    ensures Replaced(levels, levels', c.level, c.upper, c.lower, files) && |levels'| == NUM_LEVELS
  {
    hide Shape;
    assert forall g :: g in c.upper ==> IsInput(c, c.level, g);
    assert forall g :: g in c.lower ==> IsInput(c, c.level + 1, g);
    var edit := Edit(InputDeletions(c), seq(|files|, i requires 0 <= i < |files| => (c.level + 1, files[i])));
    levels' := InstallEdit(levels, edit, c.level, c.upper, c.lower, files);
  }

  /** Read the inputs through the input iterator and run the merge loop over them. */
  method MergeInputs(ghost s: State, levels: Levels, job: Job, maxFileSize: nat, full: nat -> bool)
    returns (ghost input: seq<Entry>, outputs: seq<seq<Entry>>)
    requires Inv(s) && s.job == Some(job) && levels == s.levels && InOrder(job.inputs)
    ensures IsMerge(job.inputs, input) && forall e :: e in input ==> e.key.sequence <= MAX_SEQUENCE
    ensures forall i :: 0 <= i < |outputs| ==> outputs[i] != []
    ensures Sorted(Flatten(outputs))
    ensures forall e :: e in Flatten(outputs) <==> Survives(job.base, job.inputs.level, input, job.snapshot, e)
    ensures CutRight(outputs, input, Survivors(job.base, job.inputs.level, input, job.snapshot),
                     Stops(job.inputs.grandparents, maxFileSize, input), full, |input|)
  {
    hide InOrder, Shape, Recency, Inv, Read, InputsIn, ListsOk, InLists, IsMerge, DistinctSeq, Survives, MemoryOk,
         Flatten, Ascending, CutRight, Survivors;
    var c := job.inputs;
    InvParts(s);
    JobParts(s);
    InputsAreOld(s, c);
    var lists := MakeInputLists(levels, c);
    var merged := Drain(lists);
    DrainedIsMerge(c, lists, merged);
    MergeIsDistinct(s, c, merged);
    input := merged;
    var work := new Compaction(job.base, c.level, c.grandparents, maxFileSize);
    outputs := work.DoCompactionWork(merged, job.snapshot, full);
    assert forall i :: 0 <= i < |outputs| ==> outputs[i] in outputs;
  }

  lemma JobParts(s: State)
    requires Inv(s) && s.job.Some?
    ensures var job := s.job.value; var c := job.inputs;
            && InputsIn(s.levels, c) && c.level + 1 < NUM_LEVELS && |job.base| == NUM_LEVELS && MemoryOk(s)
            && job.snapshot < MAX_SEQUENCE && forall l :: c.level + 2 <= l < NUM_LEVELS ==> Ascending(job.base[l])
  {
    hide Shape, Recency, Ascending, ReadsOk, Spanned, Covered, BelowOutside, BesideNewer, DeeperOutside;
  }

  lemma InputsAreOld(s: State, c: Inputs)
    requires Inv(s) && InputsIn(s.levels, c)
    ensures forall e :: InInputs(c, e) ==> e.key.sequence <= MAX_SEQUENCE
  {
    hide Recency, ReadsOk, JobsOk, MemoryOk, SortedLevel, Apart;
    forall e | InInputs(c, e)
      ensures e.key.sequence <= MAX_SEQUENCE
    {
      var l, f :| IsInput(c, l, f) && e in f.entries;
      assert InLevel(s.levels, l, f);
    }
  }

  lemma DrainedIsMerge(c: Inputs, lists: seq<seq<Entry>>, input: seq<Entry>)
    requires Sorted(input) && forall e :: e in input <==> InLists(lists, e)
    requires forall e :: InLists(lists, e) <==> InInputs(c, e)
    ensures IsMerge(c, input)
  {
  }

  lemma {:induction false} PartsSorted(outputs: seq<seq<Entry>>)
    requires Sorted(Flatten(outputs))
    ensures forall i :: 0 <= i < |outputs| ==> Sorted(outputs[i])
    ensures forall i, e :: 0 <= i < |outputs| && e in outputs[i] ==> e in Flatten(outputs)
  {
    if outputs != [] {
      var n := |outputs| - 1;
      var front, last, all := Flatten(outputs[..n]), outputs[n], Flatten(outputs);
      assert all == front + last;
      assert forall i :: 0 <= i < |front| ==> all[i] == front[i];
      assert forall i :: 0 <= i < |last| ==> all[|front| + i] == last[i];
      PartsSorted(outputs[..n]);
    }
  }

  /** Numbered outputs are what an installation needs. */
  lemma OutputsAreOk(s: State, input: seq<Entry>, outputs: seq<seq<Entry>>, files: seq<File>, before: nat,
                     sizeOf: seq<Entry> -> nat)
    requires NumbersBelow(s.levels, before) && s.job.Some?
    requires forall i :: 0 <= i < |outputs| ==> outputs[i] != []
    requires Sorted(Flatten(outputs)) && forall e :: e in input ==> e.key.sequence <= MAX_SEQUENCE
    requires var job := s.job.value;
             forall e :: e in Flatten(outputs) <==> Survives(job.base, job.inputs.level, input, job.snapshot, e)
    requires |files| == |outputs|
    requires forall i :: 0 <= i < |files| ==> files[i] == TableOf(outputs[i], before + i, sizeOf(outputs[i]))
    ensures OutputsOk(s.levels, s.job.value, input, outputs, files)
    ensures forall f :: f in files ==> f.number < before + |files|
  {
    hide Flatten, IsBase, Shadowed, Sorted;
    PartsSorted(outputs);
    forall i | 0 <= i < |files|
      ensures FileOk(files[i]) && files[i].entries == outputs[i]
    {
      assert files[i].entries == outputs[i] && outputs[i] != [];
      forall e | e in outputs[i]
        ensures e.key.sequence <= MAX_SEQUENCE
      {
        assert e in Flatten(outputs);
      }
    }
  }

  lemma SameMaps(s: State, spec: Spec)
    requires Refines(s, spec) && s.pending == 0
    ensures spec.view == spec.next
  {
    hide Read;
    forall k
      ensures k in spec.view <==> k in spec.next
      ensures k in spec.view ==> spec.view[k] == spec.next[k]
    {
      assert Lookup(spec.view, k) == Lookup(spec.next, k);
    }
  }

  lemma SortedMemory(s: State)
    requires Inv(s)
    ensures Sorted(s.mem) && (s.imm.Some? ==> Sorted(s.imm.value))
  {
  }

  lemma InvParts(s: State)
    requires Inv(s)
    ensures Shape(s.levels) && Recency(s.levels) && NumbersBelow(s.levels, s.nextFile)
    ensures Sorted(s.mem) && (s.imm.Some? ==> Sorted(s.imm.value))
  {
  }

  /** Reading what is stored gives what the specification's map holds. */
  lemma StoredIsView(s: State, spec: Spec, k: UserKey)
    requires Inv(s) && Refines(s, spec)
    ensures Read(Stored(s), k, s.lastSequence) == Lookup(spec.view, k)
  {
    hide Read, Shape, Recency, JobOk;
  }

  lemma StoredDistinct(s: State)
    requires Inv(s)
    ensures Distinct(Stored(s)) && forall e :: e in Stored(s) <==> IsStored(s.mem, s.imm, s.levels, e)
  {
    hide Read, Shape, Recency, JobOk;
  }

  /** Stopping at the first hit always yields the newest visible entry of the store. */
  lemma FirstHitIsNewest(s: State, k: UserKey, t: nat, inMem: Option<Entry>, inImm: Option<Entry>, below: Option<Entry>)
    requires Inv(s)
    requires AnswersIn(s.mem, k, t, inMem)
    requires inMem.None? && s.imm.Some? ==> AnswersIn(s.imm.value, k, t, inImm)
    requires inMem.Some? || s.imm.None? ==> inImm == None
    requires inMem.None? && inImm.None? ==> Answers(s.levels, k, t, below)
    ensures Read(Stored(s), k, t)
         == if inMem.Some? then ValueOf(inMem.value) else if inImm.Some? then ValueOf(inImm.value)
            else if below.Some? then ValueOf(below.value) else None
  {
    hide Read, Shape, Recency, JobOk, ReadsOk, HistoryOk, Published;
    StoredDistinct(s);
    var hit := if inMem.Some? then inMem else if inImm.Some? then inImm else below;
    assert MemoryNewer(s.mem, s.imm, s.levels);
    if hit.Some? {
      HitIsNewest(s, k, t, inMem, inImm, below, hit.value);
      ReadIs(Stored(s), k, t, hit.value);
    } else {
      ReadNothing(Stored(s), k, t);
    }
  }

  lemma HitIsNewest(s: State, k: UserKey, t: nat, inMem: Option<Entry>, inImm: Option<Entry>, below: Option<Entry>,
                    hit: Entry)
    requires MemoryNewer(s.mem, s.imm, s.levels)
    requires forall e :: e in Stored(s) <==> IsStored(s.mem, s.imm, s.levels, e)
    requires AnswersIn(s.mem, k, t, inMem)
    requires inMem.None? && s.imm.Some? ==> AnswersIn(s.imm.value, k, t, inImm)
    requires inMem.Some? || s.imm.None? ==> inImm == None
    requires inMem.None? && inImm.None? ==> Answers(s.levels, k, t, below)
    requires Some(hit) == if inMem.Some? then inMem else if inImm.Some? then inImm else below
    ensures IsNewest(Stored(s), k, t, hit)
  {
    hide Holds, Stored;
    assert inMem.Some? ==> hit in s.mem;
    assert inMem.None? && inImm.Some? ==> InImm(s.imm, hit);
    forall e | IsStored(s.mem, s.imm, s.levels, e) && Visible(e, k, t)
      ensures e.key.sequence <= hit.key.sequence
    {
      assert e.key.user == hit.key.user;
    }
  }

  /** The lists behind an iterator share no key and hold exactly what is stored. */
  lemma MemoryLists(s: State, lists: seq<seq<Entry>>)
    requires Inv(s)
    requires ListsOk(lists) && forall e :: InLists(lists, e) <==> Holds(s.levels, e)
    ensures var all := [s.mem] + (if s.imm.Some? then [s.imm.value] else []) + lists;
            ListsOk(all) && Distinct(Stored(s)) && forall e :: InLists(all, e) <==> e in Stored(s)
  {
    hide Read, Shape, Recency, JobOk, ReadsOk, HistoryOk, Published, ListsOk, InLists, Holds, Stored, Sorted;
    StoredDistinct(s);
    assert MemorySorted(s.mem, s.imm) && MemoryNewer(s.mem, s.imm, s.levels);
    OneList(s.mem, [s.mem]);
    if s.imm.Some? {
      OneList(s.imm.value, [s.imm.value]);
      JoinLists([s.mem], [s.imm.value]);
      JoinLists([s.mem] + [s.imm.value], lists);
    } else {
      assert [s.mem] + [] == [s.mem];
      JoinLists([s.mem], lists);
    }
  }
}
