/** Every step of the crash protocol keeps its invariant. */
module CrashSafety {
  import opened Options
  import opened InternalKeys
  import opened Batches
  import opened Files
  import opened Selection
  import opened Picking
  import opened Versions
  import opened VersionChanges
  import opened VersionBuilder
  import opened VersionSets
  import opened Durable
  import opened CrashProtocol
  import L = Lsm

  // ---------- Installing an edit: the tables ----------

  /** The base of a state: its tables, and the groups in them, as a database of their own. */
  ghost function Base(s: State): L.State
    requires s.flushed <= |s.groups|
  {
    TablesOnly(s.db.levels, s.db.lastSequence, s.db.nextFile, None, AllEntries(s.groups[..s.flushed]), s.db.horizon)
  }

  lemma BaseStays(s: State, s': State)
    requires BaseOk(s) && s'.flushed == s.flushed <= |s'.groups| && s'.groups[..s.flushed] == s.groups[..s.flushed]
    requires s'.db.levels == s.db.levels && s'.db.horizon == s.db.horizon
    requires s.db.lastSequence <= s'.db.lastSequence < MAX_SEQUENCE && s.db.nextFile <= s'.db.nextFile
    ensures BaseOk(s')
  {
    hide L.Inv, AllEntries;
    NumbersMayGrow(Base(s), Base(s'));
  }

  /** The groups of the immutable memtable come after those in the tables. */
  lemma FlushIsFresh(s: State)
    requires L.Inv(s.db) && MemoryOk(s) && BaseOk(s) && s.db.imm.Some? && s.db.imm.value != []
    ensures Fresh(Base(s), s.db.imm.value, s.db.lastSequence)
    ensures AllEntries(s.groups[..s.switched]) == AllEntries(s.groups[..s.flushed]) + EntrySet(s.db.imm.value)
  {
    hide L.Inv, AllEntries, Ordered;
    var gs := s.groups[..Complete(s)];
    OrderedSplits(gs, s.db.lastSequence + 1, s.switched);
    var front := gs[..s.switched];
    assert front == s.groups[..s.switched];
    OrderedSplits(front, s.db.lastSequence + 1, s.flushed);
    assert front[..s.flushed] == s.groups[..s.flushed] && front[s.flushed..] == s.groups[s.flushed..s.switched];
    OrderedBelow(front[s.flushed..], s.db.lastSequence + 1);
    assert EntrySet(s.db.imm.value) == AllEntries(s.groups[s.flushed..s.switched]);
    VolatileSorted(s.db);
  }

  lemma VolatileSorted(db: L.State)
    requires L.Inv(db)
    ensures Sorted(db.mem) && (db.imm.Some? ==> Sorted(db.imm.value)) && db.lastSequence < MAX_SEQUENCE
    ensures Shape(db.levels) && Recency(db.levels) && L.NumbersBelow(db.levels, db.nextFile)
            && db.horizon <= db.lastSequence
  {
  }

  lemma FlushKeepsBase(s: State)
    requires L.Inv(s.db) && MemoryOk(s) && BaseOk(s) && PendingOk(s) && s.pending.Some? && s.pending.value.action.Flush?
    ensures BaseOk(Installed(s))
  {
    hide L.Inv, AllEntries, Says, Holding;
    var p, s' := s.pending.value, Installed(s);
    FlushParts(s);
    if s.db.imm.value == [] {
      EmptyFlush(s);
      NumbersMayGrow(Base(s), Base(s'));
    } else {
      FlushIsFresh(s);
      TableKeepsInv(Base(s), Base(s'), s.db.imm.value, p.action.size, p.action.level, s.db.lastSequence);
    }
  }

  /** What the step of a pending flush says. */
  lemma FlushParts(s: State)
    requires L.Inv(s.db) && PendingOk(s) && s.pending.Some? && s.pending.value.action.Flush?
    ensures s.db.imm.Some? && s.db.lastSequence < MAX_SEQUENCE
    ensures var p := s.pending.value;
            if s.db.imm.value == [] then p.levels == s.db.levels else
              var f := L.TableOf(s.db.imm.value, s.db.nextFile, p.action.size);
              && FlushLevel(s.db.levels, Lo(f), Hi(f), p.action.level)
              && Replaced(s.db.levels, p.levels, p.action.level - 1, [], [], [f])
  {
    hide Says, AllEntries, Replaced, FlushLevel;
    VolatileSorted(s.db);
  }

  lemma EmptyFlush(s: State)
    requires MemoryOk(s) && s.db.imm == Some([])
    ensures AllEntries(s.groups[..s.switched]) == AllEntries(s.groups[..s.flushed])
  {
    hide AllEntries, Ordered;
    var gs := s.groups[..Complete(s)];
    OrderedSplits(gs, s.db.lastSequence + 1, s.switched);
    var front := gs[..s.switched];
    assert front == s.groups[..s.switched];
    OrderedSplits(front, s.db.lastSequence + 1, s.flushed);
    assert front[..s.flushed] == s.groups[..s.flushed] && front[s.flushed..] == s.groups[s.flushed..s.switched];
    assert AllEntries(s.groups[s.flushed..s.switched]) == {};
  }

  /** A move or an installed compaction concerns the tables only. */
  lemma TablesStep(db: L.State, b: L.State, a: L.Action, levels: Levels)
    requires Edits(a) && !a.Flush? && L.Step(db, After(db, a, levels), a)
    requires b.levels == db.levels && b.job == db.job && b.nextFile == db.nextFile && b.horizon == db.horizon
    ensures L.Step(b, After(b, a, levels), a)
  {
    hide Replaced, Selected, OutputsOk, IsMerge;
  }

  lemma EditKeepsBase(s: State)
    requires L.Inv(s.db) && MemoryOk(s) && BaseOk(s) && PendingOk(s) && s.pending.Some?
             && !s.pending.value.action.Flush?
    requires L.Inv(After(s.db, s.pending.value.action, s.pending.value.levels))
    ensures BaseOk(Installed(s))
  {
    hide L.Inv, AllEntries, Says, Ordered, Holding, Replaced, L.NumbersBelow, L.Step;
    var p, s' := s.pending.value, Installed(s);
    var b := Base(s);
    JobMayRun(b, s.db);
    var running := b.(job := s.db.job);
    var done := After(running, p.action, p.levels);
    TablesStep(s.db, running, p.action, p.levels);
    L.StepKeepsInv(running, done, p.action);
    VolatileSorted(s.db);
    VolatileSorted(s'.db);
    FlushedAreOld(s);
    OrderedBelow(s.groups[..s.flushed], s.db.lastSequence + 1);
    NumbersMayShrink(done, Base(s'));
  }

  // ---------- Installing an edit: the manifest ----------

  /** The change takes away files that are there and adds files whose numbers are new to their level. */
  ghost predicate ChangeFits(levels: Levels, es: seq<Edit>, c: Change) {
    && -1 <= c.L && c.L + 1 < NUM_LEVELS
    && (forall g :: g in c.upper ==> InLevel(levels, c.L, g))
    && (forall g :: g in c.lower ==> InLevel(levels, c.L + 1, g))
    && FreshThere(levels, c.L, c.added)
    && (forall f :: f in c.added ==> AddedUpTo(es, f.number, c.L))
  }

  lemma FlushFits(s: State, es: seq<Edit>)
    requires L.Inv(s.db) && PendingOk(s) && s.pending.Some? && s.pending.value.action.Flush?
    requires NumbersUsed(es, s.db.levels, s.outputs, s.db.nextFile)
    ensures ChangeFits(s.db.levels, es, ChangeOf(s.db, s.pending.value.action))
  {
    hide AllEntries, Replaced, Says;
    VolatileSorted(s.db);
  }

  lemma MoveFits(s: State, es: seq<Edit>)
    requires L.Inv(s.db) && PendingOk(s) && s.pending.Some? && s.pending.value.action.Move?
    requires NumbersUsed(es, s.db.levels, s.outputs, s.db.nextFile)
    ensures ChangeFits(s.db.levels, es, ChangeOf(s.db, s.pending.value.action))
  {
    hide AllEntries, Replaced, Says, L.Inv, FileOk, SortedLevel, Apart, Hull, IsMeeting, Gapless, NoBoundaryLeft;
    VolatileSorted(s.db);
    var c := s.pending.value.action.moved;
    assert c.lower == [];
    forall g | g in c.upper
      ensures InLevel(s.db.levels, c.level, g)
    {
    }
  }

  lemma InstallFits(s: State, es: seq<Edit>)
    requires L.Inv(s.db) && PendingOk(s) && s.pending.Some? && s.pending.value.action.Install?
    requires NumbersUsed(es, s.db.levels, s.outputs, s.db.nextFile)
    ensures ChangeFits(s.db.levels, es, ChangeOf(s.db, s.pending.value.action))
  {
    hide AllEntries, Replaced, Says, L.Inv, FileOk, IsMerge, Sorted;
    var c := s.db.job.value.inputs;
    JobInputs(s.db);
    assert forall g :: g in c.upper ==> IsInput(c, c.level, g);
    assert forall g :: g in c.lower ==> IsInput(c, c.level + 1, g);
  }

  lemma JobInputs(db: L.State)
    requires L.Inv(db) && db.job.Some?
    ensures InputsIn(db.levels, db.job.value.inputs) && db.job.value.inputs.level + 1 < NUM_LEVELS
    ensures db.job.value.snapshot <= db.lastSequence
  {
    hide Shape, Recency, Covered, Spanned, BelowOutside, BesideNewer, DeeperOutside;
  }

  lemma {:induction false} StepwisePrefix(base: set<File>, es: seq<Edit>, e: Edit, l: nat, n: nat)
    requires n <= |es|
    ensures StepwiseAt(base, es + [e], l, n) == StepwiseAt(base, es, l, n)
  {
    hide ApplyAt, Remaining;
    if n > 0 {
      StepwisePrefix(base, es, e, l, n - 1);
      assert (es + [e])[n - 1] == es[n - 1];
    }
  }

  lemma AddedBySays(e: Edit, c: Change, l: nat)
    requires Says(e, c.L, c.upper, c.lower, c.added)
    ensures forall f :: f in AddedAt(e.added, l) <==> l == c.L + 1 && f in c.added
  {
    AddedThere(e, c.L, c.upper, c.lower, c.added, l);
  }

  lemma NoReturnGrows(es: seq<Edit>, e: Edit, l: nat, c: Change)
    requires NoReturn({}, es, l, |es|) && Says(e, c.L, c.upper, c.lower, c.added)
    requires forall f :: f in c.added ==> AddedUpTo(es, f.number, c.L)
    ensures NoReturn({}, es + [e], l, |es| + 1)
  {
    hide Says, AddedUpTo;
    var all := es + [e];
    AddedBySays(e, c, l);
    assert forall i :: 0 <= i < |es| ==> all[i] == es[i];
    forall i, j, f, g | 0 <= i < j < |all| && f in AddedAt(all[i].added, l) && g in AddedAt(all[j].added, l)
      ensures f.number != g.number
    {
      if j == |es| {
        NotYetAdded(es, i, f, g.number, l, c.L);
      }
    }
  }

  lemma NotYetAdded(es: seq<Edit>, i: nat, f: File, n: nat, l: nat, level: int)
    requires i < |es| && f in AddedAt(es[i].added, l) && AddedUpTo(es, n, level) && level < l
    ensures f.number != n
  {
    var p :| p in es[i].added && p.0 == l && p.1 == f;
    assert p.1.number == n ==> p.0 <= level;
  }

  lemma EditReplays(es: seq<Edit>, e: Edit, levels: Levels, levels': Levels, c: Change)
    requires Replays(es, levels) && Shape(levels) && |levels| == NUM_LEVELS
    requires Says(e, c.L, c.upper, c.lower, c.added) && Replaced(levels, levels', c.L, c.upper, c.lower, c.added)
    requires ChangeFits(levels, es, c)
    ensures Replays(es + [e], levels')
  {
    hide Shape, Says, AddedUpTo, NoReturn, FreshThere, SortedLevel, Elements, InLevel, Untouched;
    var all := es + [e];
    forall l | 0 <= l < NUM_LEVELS
      ensures NoReturn({}, all, l, |all|) && Elements(levels'[l]) == StepwiseAt({}, all, l, |all|)
    {
      NoReturnGrows(es, e, l, c);
      LevelReplays(es, e, levels, levels', c, l);
    }
  }

  lemma LevelReplays(es: seq<Edit>, e: Edit, levels: Levels, levels': Levels, c: Change, l: nat)
    requires l < NUM_LEVELS == |levels| == |levels'| && Elements(levels[l]) == StepwiseAt({}, es, l, |es|)
    requires Says(e, c.L, c.upper, c.lower, c.added) && Replaced(levels, levels', c.L, c.upper, c.lower, c.added)
    requires Shape(levels) && ChangeFits(levels, es, c)
    ensures Elements(levels'[l]) == StepwiseAt({}, es + [e], l, |es| + 1)
  {
    hide Shape, Says, AddedUpTo, NoReturn, FreshThere, Untouched, SortedLevel, ApplyAt, Remaining;
    StepwisePrefix({}, es, e, l, |es|);
    var st := ApplyAt(LevelState({}, {}), e, l);
    assert StepwiseAt({}, es + [e], l, |es| + 1) == Remaining(Elements(levels[l]), st.deleted, st.added);
    forall f
      ensures f in Elements(levels'[l]) <==> f in Remaining(Elements(levels[l]), st.deleted, st.added)
    {
      RemainingAfter(levels, e, c.L, c.upper, c.lower, c.added, l, f);
      assert InLevel(levels', l, f) <==> f in levels'[l];
      MemberOf(levels'[l], f);
    }
  }

  lemma EditFits(es: seq<Edit>, e: Edit, levels: Levels, c: Change)
    requires EditsFit(es) && Says(e, c.L, c.upper, c.lower, c.added) && FreshThere(levels, c.L, c.added)
             && c.L + 1 < NUM_LEVELS
    ensures EditsFit(es + [e])
  {
    forall i | 0 <= i < |es + [e]|
      ensures EditOk((es + [e])[i])
      ensures forall a, b :: 0 <= a < b < |(es + [e])[i].added| ==>
                (es + [e])[i].added[a].1.number != (es + [e])[i].added[b].1.number
    {
    }
  }

  /** Where the new edit's numbers stand. */
  lemma EditUses(es: seq<Edit>, e: Edit, levels: Levels, levels': Levels, c: Change, outputs: seq<File>,
                 outputs': seq<File>,
                 nextFile: nat, nextFile': nat)
    requires NumbersUsed(es, levels, outputs, nextFile) && nextFile <= nextFile'
    requires Says(e, c.L, c.upper, c.lower, c.added) && Replaced(levels, levels', c.L, c.upper, c.lower, c.added)
    requires ChangeFits(levels, es, c) && Shape(levels')
    requires forall f :: f in c.added ==> f.number < nextFile'
    requires outputs' == [] || (outputs' == outputs && forall f, o :: f in c.added && o in outputs ==>
               f.number != o.number)
    ensures NumbersUsed(es + [e], levels', outputs', nextFile')
  {
    hide FileOk, SortedLevel, Apart, FreshThere;
    var all := es + [e];
    forall i, p | 0 <= i < |all| && p in all[i].added
      ensures i < |es| ==> p in es[i].added
      ensures i == |es| ==> p.0 == c.L + 1 && p.1 in c.added
      ensures p.1.number < nextFile'
    {
      if i == |es| {
        var a :| 0 <= a < |e.added| && e.added[a] == p;
        assert c.added[a] in c.added;
      }
    }
    forall l, f | InLevel(levels', l, f)
      ensures AddedUpTo(all, f.number, l)
    {
      forall i, p | 0 <= i < |all| && p in all[i].added && p.1.number == f.number
        ensures p.0 <= l
      {
        if i == |es| {
          assert InLevel(levels', c.L + 1, p.1);
        } else if l == c.L + 1 && f in c.added {
          assert AddedUpTo(es, f.number, c.L);
        } else {
          assert InLevel(levels, l, f);
        }
      }
    }
  }

  // ---------- Installing an edit: everything ----------

  lemma PendingFits(s: State, es: seq<Edit>)
    requires L.Inv(s.db) && PendingOk(s) && s.pending.Some?
    requires NumbersUsed(es, s.db.levels, s.outputs, s.db.nextFile)
    ensures ChangeFits(s.db.levels, es, ChangeOf(s.db, s.pending.value.action))
  {
    hide L.Inv, NumbersUsed, ChangeFits, ChangeOf, AllEntries, Replaced, Says;
    assert Edits(s.pending.value.action);
    if s.pending.value.action.Flush? {
      FlushFits(s, es);
    } else if s.pending.value.action.Move? {
      MoveFits(s, es);
    } else {
      InstallFits(s, es);
    }
  }

  lemma AfterKeepsInv(s: State)
    requires L.Inv(s.db) && PendingOk(s) && s.pending.Some?
    ensures L.Inv(Installed(s).db)
  {
    hide L.Inv, L.Step, After, AllEntries, Says, Replaced, ChangeOf;
    L.StepKeepsInv(s.db, Installed(s).db, s.pending.value.action);
  }

  lemma InstallKeepsBase(s: State)
    requires L.Inv(s.db) && MemoryOk(s) && BaseOk(s) && PendingOk(s) && s.pending.Some?
    ensures BaseOk(Installed(s))
  {
    hide L.Inv, MemoryOk, BaseOk, PendingOk;
    AfterKeepsInv(s);
    if s.pending.value.action.Flush? {
      FlushKeepsBase(s);
    } else {
      EditKeepsBase(s);
    }
  }

  /** An edit leaves the memtable alone; a flush ends the immutable one. */
  lemma AfterMemory(db: L.State, a: L.Action, levels: Levels)
    requires Edits(a)
    ensures var db' := After(db, a, levels);
            && db'.mem == db.mem && db'.lastSequence == db.lastSequence && db'.pending == db.pending
            && db'.imm == if a.Flush? then None else db.imm
  {
  }

  lemma PendingEdits(s: State)
    requires PendingOk(s) && s.pending.Some?
    ensures Edits(s.pending.value.action)
  {
    hide L.Step, Says, Replaced, AllEntries, ChangeOf, L.NumbersBelow, After;
  }

  lemma InstallKeepsMemory(s: State)
    requires MemoryOk(s) && PendingOk(s) && s.pending.Some?
    ensures MemoryOk(Installed(s))
  {
    hide PendingOk, AllEntries, InMem, Ordered, Holding, After, Edits;
    PendingEdits(s);
    AfterMemory(s.db, s.pending.value.action, s.pending.value.levels);
  }

  lemma InstallKeepsLogs(s: State)
    requires Inv(s) && s.pending.Some?
    ensures var s' := Installed(s);
            LogsOk(s'.disk.logs, s'.logNumber, s'.current, s'.previous, s'.db.imm.Some?, s'.groups, s'.flushed,
              s'.switched, s'.db.nextFile)
  {
    hide L.Inv, AllEntries, Entries, Ordered, TablesOk, BaseOk, ManifestOk, NumbersOk, FlushOk, Says, Replaced,
         ChangeOf, SyncOk, Holding, L.NumbersBelow;
  }

  /** The files an edit adds are on disk, and their numbers are taken. */
  lemma AddedAreOnDisk(s: State)
    requires Inv(s) && s.pending.Some?
    ensures var c := ChangeOf(s.db, s.pending.value.action);
            forall f :: f in c.added ==>
              OnDisk(s.disk.tables, s.doomedTables, f) && f.number < Installed(s).db.nextFile
              && (!s.pending.value.action.Install? ==> forall o :: o in s.outputs ==> f.number != o.number)
  {
    hide L.Inv, MemoryOk, LogsOk, BaseOk, ManifestOk, NumbersOk, Says, Replaced, AllEntries, L.NumbersBelow;
    var a := s.pending.value.action;
    VolatileSorted(s.db);
    if a.Move? {
      hide Hull, IsMeeting, Gapless, NoBoundaryLeft, FileOk, Shape, Recency;
      forall f | f in a.moved.upper
        ensures InLevel(s.db.levels, a.moved.level, f) && s.outputs == []
      {
      }
      assert L.NumbersBelow(s.db.levels, s.db.nextFile);
      BelowMeans(s.db.levels, s.db.nextFile);
    }
  }

  lemma BelowMeans(levels: Levels, n: nat)
    requires L.NumbersBelow(levels, n)
    ensures forall l, f :: InLevel(levels, l, f) ==> f.number < n
  {
  }

  lemma InstallKeepsTables(s: State)
    requires Inv(s) && s.pending.Some?
    ensures var s' := Installed(s);
            TablesOk(s'.disk.tables, s'.doomedTables, s'.db.levels, s'.outputs, s'.db.nextFile)
  {
    hide L.Inv, MemoryOk, LogsOk, BaseOk, ManifestOk, NumbersOk, Says, AllEntries, FlushOk, OnDisk, ChangeOf,
         SortedLevel;
    AddedAreOnDisk(s);
    var s', c := Installed(s), ChangeOf(s.db, s.pending.value.action);
    forall l, f | InLevel(s'.db.levels, l, f)
      ensures OnDisk(s.disk.tables, s.doomedTables, f)
    {
      assert f in c.added || InLevel(s.db.levels, l, f);
    }
  }

  lemma InstallKeepsManifest(s: State)
    requires Inv(s) && s.pending.Some?
    ensures var s' := Installed(s);
            ManifestOk(Settled(s'), s'.db.levels, s'.outputs, s'.db.nextFile)
  {
    hide L.Inv, MemoryOk, LogsOk, BaseOk, NumbersOk, Says, AllEntries, FlushOk, OnDisk, ChangeOf, Replaced, TablesOk,
         ChangeFits, Replays, NumbersUsed, EditsFit, L.Step;
    var s', p := Installed(s), s.pending.value;
    var c, rs := ChangeOf(s.db, p.action), Settled(s);
    var es, e := EditsOf(rs), p.record.edit;
    assert s'.disk.manifest == rs + [p.record];
    assert EditsOf(s'.disk.manifest) == es + [e];
    AfterKeepsInv(s);
    VolatileSorted(s.db);
    VolatileSorted(s'.db);
    PendingFits(s, es);
    AddedAreOnDisk(s);
    FitsParts(s.db.levels, es, c);
    EditReplays(es, e, s.db.levels, s'.db.levels, c);
    EditFits(es, e, s.db.levels, c);
    EditUses(es, e, s.db.levels, s'.db.levels, c, s.outputs, s'.outputs, s.db.nextFile, s'.db.nextFile);
  }

  lemma FitsParts(levels: Levels, es: seq<Edit>, c: Change)
    requires ChangeFits(levels, es, c)
    ensures FreshThere(levels, c.L, c.added) && c.L + 1 < NUM_LEVELS
  {
  }

  lemma InstallKeepsNumbers(s: State)
    requires Inv(s) && s.pending.Some?
    ensures var s' := Installed(s);
            NumbersOk(Settled(s'), s'.db.levels, s'.logNumber, s'.db.nextFile, s'.db.lastSequence, s'.db.horizon,
                      s'.groups[..s'.flushed])
    ensures forall n :: n in s.doomedLogs ==> n < Installed(s).logNumber
    ensures Installed(s).outputs != [] ==> Installed(s).db.job.Some?
  {
    hide L.Inv, MemoryOk, BaseOk, Says, AllEntries, FlushOk, ChangeOf, Replaced, TablesOk, ManifestOk, L.NumbersBelow,
         L.Step;
  }

  lemma InstallKeepsSync(s: State)
    requires MemoryOk(s) && SyncOk(s) && s.pending.Some?
    ensures SyncOk(Installed(s))
  {
    hide Ordered, Holding, AllEntries;
  }

  /** Installing a pending edit keeps the invariant, synced or not. */
  lemma InstallKeepsInv(s: State)
    requires Inv(s) && s.pending.Some?
    ensures Inv(Installed(s))
  {
    hide L.Inv, MemoryOk, SyncOk, LogsOk, BaseOk, TablesOk, ManifestOk, NumbersOk;
    AfterKeepsInv(s);
    InstallKeepsMemory(s);
    InstallKeepsLogs(s);
    InstallKeepsSync(s);
    InstallKeepsTables(s);
    InstallKeepsBase(s);
    InstallKeepsManifest(s);
    InstallKeepsNumbers(s);
  }

  // ---------- The other steps ----------

  /** What a pending edit relies on: nothing the writers touch. */
  ghost predicate SameForEdit(s: State, s': State) {
    && s'.disk.manifest == s.disk.manifest && s'.outputs == s.outputs && s'.flushing == s.flushing
       && s'.logNumber == s.logNumber
    && s'.db.levels == s.db.levels && s'.db.job == s.db.job && s'.db.horizon == s.db.horizon
    && s.db.nextFile <= s'.db.nextFile && s.db.lastSequence <= s'.db.lastSequence
    && s'.flushed == s.flushed <= s'.switched <= |s'.groups| && s.flushed <= |s.groups|
       && s'.groups[..s.flushed] == s.groups[..s.flushed]
    && (s.db.imm.Some? ==> && s'.db.imm == s.db.imm && s'.db.nextFile == s.db.nextFile && s'.current == s.current
                           && s'.switched == s.switched <= |s.groups|
                              && s'.groups[..s.switched] == s.groups[..s.switched])
  }

  lemma StepStays(db: L.State, db': L.State, a: L.Action, levels: Levels)
    requires Edits(a) && L.Step(db, After(db, a, levels), a)
    requires db'.levels == db.levels && db'.job == db.job && db'.horizon == db.horizon && db.nextFile <= db'.nextFile
    requires db.imm.Some? ==> db'.imm == db.imm && db'.nextFile == db.nextFile
    ensures L.Step(db', After(db', a, levels), a) && ChangeOf(db', a) == ChangeOf(db, a)
    ensures After(db', a, levels).horizon == After(db, a, levels).horizon
    ensures After(db', a, levels).nextFile >= After(db, a, levels).nextFile
  {
    hide Replaced, Selected, OutputsOk, IsMerge;
  }

  lemma PendingStays(s: State, s': State)
    requires PendingOk(s) && SameForEdit(s, s')
    requires s'.pending == s.pending || (s.pending.Some? && s'.pending == Some(s.pending.value.(synced := true)))
    ensures PendingOk(s')
  {
    hide L.Step, Says, Replaced, AllEntries, ChangeOf, L.NumbersBelow;
    if s.pending.Some? {
      var p := s.pending.value;
      StepStays(s.db, s'.db, p.action, p.levels);
      FlushNeedsImm(s.db, p.action, p.levels);
    }
  }

  lemma FlushNeedsImm(db: L.State, a: L.Action, levels: Levels)
    requires L.Step(db, After(db, a, levels), a)
    ensures a.Flush? ==> db.imm.Some?
  {
  }

  /** Steps of the writers and of log syncing leave the tables and the manifest as they are. */
  lemma ManifestStays(s: State, s': State)
    requires ManifestOk(Settled(s), s.db.levels, s.outputs, s.db.nextFile)
    requires NumbersOk(Settled(s), s.db.levels, s.logNumber, s.db.nextFile, s.db.lastSequence, s.db.horizon,
                       s.groups[..if s.flushed <= |s.groups| then s.flushed else 0])
    requires SameForEdit(s, s') && (s'.pending.Some? <==> s.pending.Some?)
    ensures ManifestOk(Settled(s'), s'.db.levels, s'.outputs, s'.db.nextFile)
    ensures NumbersOk(Settled(s'), s'.db.levels, s'.logNumber, s'.db.nextFile, s'.db.lastSequence, s'.db.horizon,
                      s'.groups[..s'.flushed])
  {
    hide AllEntries, EditsFit, Replays, L.NumbersBelow;
  }

  /** What the steps of the writers have in common. */
  ghost predicate WriterStep(s: State, s': State) {
    && SameForEdit(s, s') && (s'.pending.Some? <==> s.pending.Some?)
    && (s'.pending == s.pending || (s.pending.Some? && s'.pending == Some(s.pending.value.(synced := true))))
    && s'.disk.tables == s.disk.tables && s'.doomedTables == s.doomedTables && s'.doomedLogs == s.doomedLogs
    && s'.db.lastSequence < MAX_SEQUENCE
  }

  lemma WriterKeepsInv(s: State, s': State)
    requires Inv(s) && WriterStep(s, s')
    requires L.Inv(s'.db) && MemoryOk(s') && SyncOk(s')
    requires LogsOk(s'.disk.logs, s'.logNumber, s'.current, s'.previous, s'.db.imm.Some?, s'.groups, s'.flushed,
             s'.switched, s'.db.nextFile)
    requires s.flushing.Some? ==> s.db.imm.Some?
    ensures Inv(s')
  {
    hide L.Inv, AllEntries, Ordered, ManifestOk, NumbersOk, L.Step, Says, Replaced, MemoryOk, LogsOk, PendingOk, BaseOk,
         OnDisk;
    assert s.flushed <= |s.groups|;
    BaseStays(s, s');
    ManifestStays(s, s');
    PendingStays(s, s');
  }

  lemma LastGroup(gs: seq<Group>, k: nat)
    requires k < |gs|
    ensures AllEntries(gs[k..]) == AllEntries(gs[k..|gs| - 1]) + Entries(gs[|gs| - 1], |gs[|gs| - 1].ops|)
  {
    assert gs[k..][..|gs| - 1 - k] == gs[k..|gs| - 1];
  }

  lemma AppendKeepsInv(s: State, s': State, ops: seq<Op>, sync: bool)
    requires Inv(s) && Step(s, s', Append(ops, sync))
    ensures Inv(s')
  {
    hide L.Inv, AllEntries, Ordered, ManifestOk, NumbersOk, L.Step, Says, Replaced, BaseOk, TablesOk, PendingOk,
         FlushOk;
    var gs := s.groups;
    assert s'.groups[..|gs|] == gs && gs[..|gs|] == gs;
    assert s'.groups[s.switched..|gs|] == gs[s.switched..|gs|] == gs[s.switched..];
    assert s'.groups[s.flushed..s.switched] == gs[s.flushed..s.switched];
    assert s'.groups[s.switched..] == gs[s.switched..] + [s'.groups[|gs|]];
    assert s'.groups[..s.flushed] == gs[..s.flushed] && s'.groups[..s.switched] == gs[..s.switched];
    assert Entries(s'.groups[|gs|], 0) == {};
    assert L.Inv(s'.db);
    VolatileSorted(s.db);
    FlushingMeansImm(s);
    WriterKeepsInv(s, s');
  }

  lemma FlushingMeansImm(s: State)
    requires FlushOk(s)
    ensures s.flushing.Some? ==> s.db.imm.Some?
  {
  }

  lemma InsertedEntry(db: L.State, db': L.State, op: Op)
    requires L.Inv(db) && L.Step(db, db', L.Insert(op.user, op.kind, op.value))
    ensures forall e :: e in db'.mem <==> e in db.mem || e == L.NewEntry(db, op.user, op.kind, op.value)
    ensures db'.levels == db.levels && db'.job == db.job && db'.imm == db.imm && db'.horizon == db.horizon
    ensures db'.nextFile == db.nextFile && db'.lastSequence == db.lastSequence && db'.pending == db.pending + 1
  {
    hide Shape, Recency, Read, L.JobsOk, L.ReadsOk, InsertEntry;
    var e := L.NewEntry(db, op.user, op.kind, op.value);
    forall d | d in db.mem
      ensures d.key != e.key
    {
      assert L.IsStored(db.mem, db.imm, db.levels, d);
    }
    InsertEntryKeepsOrder(db.mem, e);
  }

  lemma InsertKeepsMemory(s: State, s': State)
    requires L.Inv(s.db) && MemoryOk(s) && Step(s, s', InsertNext)
    ensures MemoryOk(s') && L.Inv(s'.db)
    ensures s'.db.levels == s.db.levels && s'.db.job == s.db.job && s'.db.imm == s.db.imm
            && s'.db.horizon == s.db.horizon
    ensures s'.db.nextFile == s.db.nextFile && s'.db.lastSequence == s.db.lastSequence
  {
    hide L.Inv, AllEntries, Ordered, L.Step;
    var i, g := s.inserting.value, s.groups[|s.groups| - 1];
    var op := g.ops[i];
    L.StepKeepsInv(s.db, s'.db, L.Insert(op.user, op.kind, op.value));
    InsertedEntry(s.db, s'.db, op);
    assert L.NewEntry(s.db, op.user, op.kind, op.value) == EntryOf(g, i);
    assert Entries(g, i + 1) == Entries(g, i) + {EntryOf(g, i)};
  }

  lemma InsertKeepsInv(s: State, s': State)
    requires Inv(s) && Step(s, s', InsertNext)
    ensures Inv(s')
  {
    hide L.Inv, AllEntries, MemoryOk, ManifestOk, NumbersOk, L.Step, Says, Replaced, BaseOk, TablesOk, PendingOk,
         FlushOk;
    InsertKeepsMemory(s, s');
    VolatileSorted(s'.db);
    FlushingMeansImm(s);
    WriterKeepsInv(s, s');
  }

  lemma PublishKeepsSync(s: State, s': State)
    requires MemoryOk(s) && SyncOk(s) && Step(s, s', Publish)
    ensures SyncOk(s')
  {
    hide AllEntries, Holding, Ordered;
  }

  lemma PublishKeepsInv(s: State, s': State)
    requires Inv(s) && Step(s, s', Publish)
    ensures Inv(s')
  {
    hide L.Inv, AllEntries, ManifestOk, NumbersOk, Says, Replaced, BaseOk, TablesOk, PendingOk, FlushOk, LogsOk, SyncOk;
    var n := |s.groups|;
    PublishKeepsSync(s, s');
    L.StepKeepsInv(s.db, s'.db, L.Action.Publish);
    LastGroup(s.groups, s.switched);
    assert s.groups[..n] == s.groups && s'.groups[s.switched..n] == s.groups[s.switched..];
    VolatileSorted(s'.db);
    FlushingMeansImm(s);
    WriterKeepsInv(s, s');
  }

  lemma SwitchKeepsMemory(s: State, s': State)
    requires MemoryOk(s) && Step(s, s', Switch)
    ensures MemoryOk(s') && (SyncOk(s) ==> SyncOk(s'))
  {
    hide AllEntries, Ordered;
    var n := |s.groups|;
    assert s.groups[s.switched..n] == s.groups[s.switched..];
    NoEntries();
    assert s.groups[n..] == [];
    assert s'.switched == n && s'.flushed == s.switched;
  }

  lemma WholeTail(gs: seq<Group>, k: nat)
    requires k <= |gs|
    ensures gs[k..|gs|] == gs[k..] && gs[|gs|..] == []
  {
  }

  lemma SwitchKeepsInv(s: State, s': State)
    requires Inv(s) && Step(s, s', Switch)
    ensures Inv(s')
  {
    hide L.Inv, AllEntries, Holding, Ordered, ManifestOk, NumbersOk, Says, Replaced, BaseOk, TablesOk, PendingOk;
    var d := s.db.(nextFile := s.db.nextFile + 1);
    L.StepKeepsInv(s.db, d, L.Allocate);
    L.StepKeepsInv(d, s'.db, L.Switch);
    SwitchKeepsMemory(s, s');
    var n := |s.groups|;
    WholeTail(s.groups, s.switched);
    WholeTail(s.groups, n);
    VolatileSorted(s'.db);
    WriterKeepsInv(s, s');
  }

  lemma NoEntries()
    ensures AllEntries([]) == {}
  {
  }

  lemma QuietKeepsInv(s: State, s': State, a: Action)
    requires Inv(s) && Step(s, s', a) && (a.Acknowledge? || a.SyncLog? || a.SyncManifest?)
    ensures Inv(s')
  {
    hide L.Inv, AllEntries, Holding, ManifestOk, NumbersOk, BaseOk, TablesOk, PendingOk, LogsOk, MemoryOk, SyncOk;
    assert s.current in s.disk.logs && |s.disk.logs[s.current]| == |s.groups| - s.switched by { CurrentLog(s); }
    QuietStep(s, s', a);
    assert SyncOk(s') by { QuietKeepsSync(s, s', a); }
    VolatileSorted(s.db);
    WriterKeepsInv(s, s');
  }

  lemma CurrentLog(s: State)
    requires Inv(s)
    ensures s.switched <= |s.groups| && s.current in s.disk.logs && s.disk.logs[s.current] == s.groups[s.switched..]
  {
    hide L.Inv, MemoryOk, TablesOk, BaseOk, ManifestOk, NumbersOk, PendingOk;
  }

  lemma QuietKeepsSync(s: State, s': State, a: Action)
    requires s.current in s.disk.logs ==> |s.disk.logs[s.current]| == |s.groups| - s.switched
    requires MemoryOk(s) && SyncOk(s) && Step(s, s', a) && (a.Acknowledge? || a.SyncLog? || a.SyncManifest?)
    ensures SyncOk(s')
  {
    hide AllEntries, Entries, InMem, Holding, Ordered;
  }

  lemma QuietStep(s: State, s': State, a: Action)
    requires s.current in s.disk.logs ==> |s.disk.logs[s.current]| == |s.groups| - s.switched
    requires MemoryOk(s) && Step(s, s', a) && (a.Acknowledge? || a.SyncLog? || a.SyncManifest?)
    ensures MemoryOk(s')
    ensures s'.db == s.db && s'.logNumber == s.logNumber && s'.current == s.current
            && s'.previous == s.previous
    ensures s'.groups == s.groups && s'.flushed == s.flushed <= s.switched == s'.switched <= |s.groups|
    ensures s'.disk == s.disk && s'.outputs == s.outputs && s'.flushing == s.flushing
    ensures s'.doomedLogs == s.doomedLogs && s'.doomedTables == s.doomedTables
    ensures s'.pending == s.pending || (s.pending.Some? && s'.pending == Some(s.pending.value.(synced := true)))
  {
    hide AllEntries, Entries, InMem, Holding, Ordered;
  }

  /** Obsolete files may vanish at any time. */
  lemma DeleteLogKeepsInv(s: State, s': State, n: nat)
    requires Inv(s) && Step(s, s', DeleteLog(n))
    ensures Inv(s')
  {
    hide L.Inv, AllEntries, Ordered, ManifestOk, NumbersOk, TablesOk, L.Step, Says, Replaced, Holding, L.NumbersBelow,
         ChangeOf, After;
  }

  lemma DeleteTableKeepsInv(s: State, s': State, n: nat)
    requires Inv(s) && Step(s, s', DeleteTable(n))
    ensures Inv(s')
  {
    hide L.Inv, AllEntries, Ordered, ManifestOk, NumbersOk, LogsOk, L.Step, Says, Replaced, Holding, L.NumbersBelow,
         ChangeOf, After;
  }

  lemma CollectKeepsInv(s: State, s': State, logs: set<nat>, tables: set<nat>)
    requires Inv(s) && Step(s, s', Collect(logs, tables))
    ensures Inv(s')
  {
    hide L.Inv, AllEntries, Ordered, ManifestOk, NumbersOk, LogsOk, L.Step, Holding;
  }

  lemma WriteTableKeepsInv(s: State, s': State, size: nat)
    requires Inv(s) && Step(s, s', WriteTable(size))
    ensures Inv(s')
  {
    hide L.Inv, AllEntries, Ordered, ManifestOk, NumbersOk, LogsOk, L.Step, Holding, TablesOk, OnDisk, L.NumbersBelow;
    VolatileSorted(s.db);
    if s.db.imm.value != [] {
      OutputOnDisk(s.disk.tables, s.doomedTables, s.db.levels, s.outputs, s.db.nextFile,
        L.TableOf(s.db.imm.value, s.db.nextFile, size));
    }
  }

  lemma StartKeepsInv(s: State, s': State, c: Inputs)
    requires Inv(s) && Step(s, s', Start(c))
    ensures Inv(s')
  {
    hide L.Inv, AllEntries, Ordered, ManifestOk, NumbersOk, LogsOk, TablesOk, Holding, Selected;
    L.StepKeepsInv(s.db, s'.db, L.Start(c));
  }

  lemma AbandonKeepsInv(s: State, s': State)
    requires Inv(s) && Step(s, s', Abandon)
    ensures Inv(s')
  {
    hide L.Inv, AllEntries, Ordered, EditsFit, Replays, NumbersOk, LogsOk, Holding;
    L.StepKeepsInv(s.db, s'.db, L.Abandon);
  }

  lemma OutputKeepsInv(s: State, s': State, f: File)
    requires Inv(s) && Step(s, s', Output(f))
    ensures Inv(s')
  {
    hide L.Inv, AllEntries, Ordered, EditsFit, Replays, Holding, BaseOk, MemoryOk, LogsOk, NumbersOk, TablesOk,
         NumbersUsed;
    L.StepKeepsInv(s.db, s'.db, L.Allocate);
    VolatileSorted(s.db);
    VolatileSorted(s'.db);
    OutputKeepsFiles(s, s', f);
    assert s.flushed <= |s.groups| by { FlushedFew(s); }
    BaseStays(s, s');
  }

  lemma FlushedFew(s: State)
    requires MemoryOk(s)
    ensures s.flushed <= s.switched <= |s.groups|
  {
  }

  lemma OutputKeepsFiles(s: State, s': State, f: File)
    requires Inv(s) && Step(s, s', Output(f))
    ensures MemoryOk(s')
    ensures LogsOk(s'.disk.logs, s'.logNumber, s'.current, s'.previous, s'.db.imm.Some?, s'.groups, s'.flushed,
            s'.switched, s'.db.nextFile)
    ensures TablesOk(s'.disk.tables, s'.doomedTables, s'.db.levels, s'.outputs, s'.db.nextFile)
    ensures NumbersUsed(EditsOf(Settled(s')), s'.db.levels, s'.outputs, s'.db.nextFile)
    ensures NumbersOk(Settled(s'), s'.db.levels, s'.logNumber, s'.db.nextFile, s'.db.lastSequence, s'.db.horizon,
                      s'.groups[..s'.flushed])
  {
    hide L.Inv, AllEntries, Ordered, EditsFit, Replays, Holding, BaseOk, TablesOk, NumbersUsed, L.NumbersBelow;
    VolatileSorted(s.db);
    OutputOnDisk(s.disk.tables, s.doomedTables, s.db.levels, s.outputs, s.db.nextFile, f);
    OutputIsNew(EditsOf(Settled(s)), s.db.levels, s.outputs, s.db.nextFile, f);
  }

  /** A new table takes the place of none that is needed. */
  lemma OutputOnDisk(tables: map<nat, File>, doomed: set<nat>, levels: Levels, outputs: seq<File>, nextFile: nat,
                     f: File)
    requires TablesOk(tables, doomed, levels, outputs, nextFile) && L.NumbersBelow(levels, nextFile)
             && f.number == nextFile
    ensures TablesOk(tables[f.number := f], doomed, levels, outputs + [f], nextFile + 1)
    ensures TablesOk(tables[f.number := f], doomed, levels, outputs, nextFile)
            && OnDisk(tables[f.number := f], doomed, f)
  {
  }

  lemma OutputIsNew(es: seq<Edit>, levels: Levels, outputs: seq<File>, nextFile: nat, f: File)
    requires NumbersUsed(es, levels, outputs, nextFile) && f.number == nextFile
    ensures NumbersUsed(es, levels, outputs + [f], nextFile + 1)
  {
  }

  lemma LogEditKeepsInv(s: State, s': State, a: L.Action, levels: Levels, e: Edit)
    requires Inv(s) && Step(s, s', LogEdit(a, levels, e))
    ensures Inv(s')
  {
    hide L.Inv, AllEntries, Ordered, EditsFit, Replays, NumbersUsed, L.Step, Says, Replaced, ChangeOf, After, LogsOk,
         TablesOk, L.NumbersBelow, Holding;
    L.StepKeepsInv(s.db, After(s.db, a, levels), a);
    VolatileSorted(After(s.db, a, levels));
    AfterLevels(s.db, a, levels);
    FlushedAreOld(s);
    var m := s'.disk.manifest;
    assert m[..|m| - 1] == s.disk.manifest;
  }

  lemma AfterLevels(db: L.State, a: L.Action, levels: Levels)
    requires Edits(a)
    ensures After(db, a, levels).levels == levels && After(db, a, levels).lastSequence == db.lastSequence
  {
  }

  lemma FlushedAreOld(s: State)
    requires MemoryOk(s)
    ensures Ordered(s.groups[..s.flushed], s.db.lastSequence + 1)
            && Ordered(s.groups[..s.switched], s.db.lastSequence + 1)
  {
    hide AllEntries, Ordered, Holding;
    var gs := s.groups[..Complete(s)];
    OrderedSplits(gs, s.db.lastSequence + 1, s.switched);
    OrderedSplits(gs, s.db.lastSequence + 1, s.flushed);
    assert gs[..s.switched] == s.groups[..s.switched] && gs[..s.flushed] == s.groups[..s.flushed];
  }

  /** Every step keeps the invariant, so a crash may come after any of them. */
  lemma StepKeepsInv(s: State, s': State, a: Action)
    requires Inv(s) && Step(s, s', a)
    ensures Inv(s')
  {
    hide Inv, Step;
    match a
    case Append(ops, sync) => AppendKeepsInv(s, s', ops, sync);
    case InsertNext => InsertKeepsInv(s, s');
    case Publish => PublishKeepsInv(s, s');
    case Acknowledge => QuietKeepsInv(s, s', a);
    case SyncLog => QuietKeepsInv(s, s', a);
    case Switch => SwitchKeepsInv(s, s');
    case WriteTable(size) => WriteTableKeepsInv(s, s', size);
    case Start(c) => StartKeepsInv(s, s', c);
    case Output(f) => OutputKeepsInv(s, s', f);
    case Abandon => AbandonKeepsInv(s, s');
    case LogEdit(e, levels, edit) => LogEditKeepsInv(s, s', e, levels, edit);
    case SyncManifest => QuietKeepsInv(s, s', a);
    case Install => InstallStepIs(s, s'); InstallKeepsInv(s);
    case Collect(logs, tables) => CollectKeepsInv(s, s', logs, tables);
    case DeleteLog(n) => DeleteLogKeepsInv(s, s', n);
    case DeleteTable(n) => DeleteTableKeepsInv(s, s', n);
  }

  /** A run from the new database. */
  ghost predicate Run(states: seq<State>, actions: seq<Action>) {
    && |states| == |actions| + 1 && states[0] == START
    && forall i :: 0 <= i < |actions| ==> Step(states[i], states[i + 1], actions[i])
  }

  lemma {:induction false} RunKeepsInv(states: seq<State>, actions: seq<Action>, i: nat)
    requires Run(states, actions) && i < |states|
    ensures Inv(states[i])
  {
    hide Inv, Step;
    if i == 0 {
      StartInv();
    } else {
      RunKeepsInv(states, actions, i - 1);
      StepKeepsInv(states[i - 1], states[i], actions[i - 1]);
    }
  }

  ghost predicate Reachable(s: State) {
    exists states, actions :: Run(states, actions) && states[|actions|] == s
  }

  lemma ReachableInv(s: State)
    requires Reachable(s)
    ensures Inv(s)
  {
    hide Inv;
    var states, actions :| Run(states, actions) && states[|actions|] == s;
    RunKeepsInv(states, actions, |actions|);
  }

  lemma ReachesMore(s: State, s': State, a: Action)
    requires Reachable(s) && Step(s, s', a)
    ensures Reachable(s')
  {
    hide Step;
    var states, actions :| Run(states, actions) && states[|actions|] == s;
    assert Run(states + [s'], actions + [a]);
    assert (states + [s'])[|actions + [a]|] == s';
  }

  lemma InstallStepIs(s: State, s': State)
    requires Step(s, s', Install)
    ensures s.pending.Some? && s' == Installed(s)
  {
  }

  lemma StartInv()
    ensures Inv(START)
  {
    hide L.Inv, ManifestOk;
    StartTree();
    NoEntries();
    assert ManifestOk(Settled(START), START.db.levels, START.outputs, START.db.nextFile) by { StartManifest(); }
  }

  lemma StartTree()
    ensures L.Inv(START.db) && START.db == TablesOnly([[], [], [], [], [], [], []], 0, 4, None, {}, 0)
  {
    hide L.Inv;
    L.EmptyInv();
    var d := L.EMPTY.(nextFile := 3);
    L.StepKeepsInv(L.EMPTY, d, L.Allocate);
    L.StepKeepsInv(d, START.db, L.Allocate);
  }

  lemma StartManifest()
    ensures ManifestOk(Settled(START), START.db.levels, START.outputs, START.db.nextFile)
  {
    hide NoReturn, StepwiseAt;
    var es := EditsOf(START.disk.manifest);
    assert es == [Edit({}, []), Edit({}, [])];
    forall l | 0 <= l < NUM_LEVELS
      ensures NoReturn({}, es, l, 2) && Elements(START.db.levels[l]) == StepwiseAt({}, es, l, 2)
    {
      NothingAdded(es, l, 2);
      assert START.db.levels[l] == [];
    }
  }

  lemma EmptyEdit(l: nat)
    ensures AddedAt([], l) == {} && ApplyAt(LevelState({}, {}), Edit({}, []), l) == LevelState({}, {})
  {
  }

  lemma {:induction false} NothingAdded(es: seq<Edit>, l: nat, n: nat)
    requires n <= |es| && forall e :: e in es ==> e == Edit({}, [])
    ensures NoReturn({}, es, l, n) && StepwiseAt({}, es, l, n) == {}
  {
    hide AddedAt, ApplyAt;
    EmptyEdit(l);
    forall i | 0 <= i < |es|
      ensures AddedAt(es[i].added, l) == {}
    {
      assert es[i] in es;
    }
    if n > 0 {
      NothingAdded(es, l, n - 1);
      assert es[n - 1] in es;
    }
  }
}
