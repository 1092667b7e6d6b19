/** Crash safety: the protocol of logs, tables and manifest, cut into steps between any
    two of which the process may die. */
module CrashProtocol {
  import opened Options
  import opened InternalKeys
  import opened Batches
  import opened Files
  import opened Picking
  import opened Versions
  import opened VersionChanges
  import opened VersionBuilder
  import opened VersionSets
  import opened Durable
  import L = Lsm

  // ---------- What is on disk ----------

  datatype Numbers = Numbers(log: nat, nextFile: nat, last: nat)

  /** A record of the manifest.  The first record of a manifest is a snapshot of the
      levels and carries no numbers. */
  datatype ManifestRecord = ManifestRecord(edit: Edit, numbers: Option<Numbers>)

  datatype Disk = Disk(logs: map<nat, seq<Group>>, manifest: seq<ManifestRecord>, tables: map<nat, File>)

  // ---------- The running database ----------

  /** A version edit on its way: written to the manifest, perhaps synced, not yet installed. */
  datatype Pending = Pending(action: L.Action, levels: Levels, record: ManifestRecord, synced: bool)

  /** `db` is the state of the tree.  The log `current` takes new records; while there is
      an immutable memtable its records are in the log `previous`.  The rest exists for the
      statements only: `groups`, all log records ever written; `flushed` and `switched`, how
      many of them are in the tables, and how many in the tables or the immutable memtable;
      `asked`, which of them are to be synced; `acked`, how many the writers were told of;
      `synced` and `oldSynced`, how many records at the front of `current` and `previous`
      are synced. */
  datatype State = State(
    db: L.State,
    disk: Disk,
    logNumber: nat,
    current: nat,
    previous: nat,
    groups: seq<Group>,
    flushed: nat,
    switched: nat,
    inserting: Option<nat>,
    acked: nat,
    asked: set<nat>,
    synced: nat,
    oldSynced: nat,
    flushing: Option<nat>,
    outputs: seq<File>,
    pending: Option<Pending>,
    doomedLogs: set<nat>,
    doomedTables: set<nat>)

  /** A new database, just opened: manifest 2 and log 3. */
  const START: State :=
    State(L.EMPTY.(nextFile := 4),
          Disk(map[3 := []], [ManifestRecord(Edit({}, []), None), ManifestRecord(Edit({}, []), Some(Numbers(3, 4, 0)))],
            map[]),
          3, 3, 0, [], 0, 0, None, 0, {}, 0, 0, None, [], None, {}, {})

  datatype Action =
    | Append(ops: seq<Op>, sync: bool)
    | InsertNext
    | Publish
    | Acknowledge
    | SyncLog
    | Switch
    | WriteTable(size: nat)
    | Start(inputs: Inputs)
    | Output(table: File)
    | Abandon
    | LogEdit(action: L.Action, levels: Levels, edit: Edit)
    | SyncManifest
    | Install
    | Collect(logs: set<nat>, tables: set<nat>)
    | DeleteLog(log: nat)
    | DeleteTable(number: nat)

  /** How many groups are wholly in the memtables or the tables. */
  function Complete(s: State): int {
    |s.groups| - if s.inserting.Some? then 1 else 0
  }

  /** The last group is synced, if it is to be. */
  predicate LastSynced(s: State) {
    |s.groups| - 1 in s.asked ==> |s.groups| <= s.switched + s.synced
  }

  /** What an edit of the tree takes away and adds. */
  datatype Change = Change(L: int, upper: seq<File>, lower: seq<File>, added: seq<File>)

  function ChangeOf(db: L.State, a: L.Action): Change {
    match a
    case Flush(size, level) =>
      if db.imm.Some? && db.imm.value != [] then Change(level - 1, [], [], [L.TableOf(db.imm.value, db.nextFile, size)])
      else Change(-1, [], [], [])
    case Move(c) => Change(c.level, c.upper, c.lower, c.upper)
    case Install(_, _, files) =>
      if db.job.Some? then var c := db.job.value.inputs;
        Change(c.level, c.upper, c.lower, files) else Change(-1, [], [], [])
    case _ => Change(-1, [], [], [])
  }

  /** The tree after an edit with the given result. */
  function After(db: L.State, a: L.Action, levels: Levels): L.State {
    match a
    case Flush(_, _) => db.(imm := None, levels := levels, nextFile := db.nextFile + 1)
    case Move(_) => db.(levels := levels)
    case Install(_, _, _) =>
      db.(levels := levels, job := None,
          horizon := if db.job.Some? && db.horizon < db.job.value.snapshot then db.job.value.snapshot else db.horizon)
    case _ => db
  }

  predicate Edits(a: L.Action) { a.Flush? || a.Move? || a.Install? }

  ghost predicate Step(s: State, s': State, a: Action) {
    match a
    case Append(ops, sync) =>
      // AddRecord to the current log; one group at a time
      && s.inserting.None? && s.db.lastSequence + |ops| < MAX_SEQUENCE && s.current in s.disk.logs
      && var g := Group(s.db.lastSequence + 1, ops);
         s' == s.(disk := s.disk.(logs := s.disk.logs[s.current := s.disk.logs[s.current] + [g]]),
                  groups := s.groups + [g], inserting := Some(0),
                  asked := if sync then s.asked + {|s.groups|} else s.asked)
    case InsertNext =>
      // InsertInto the memtable, one operation; the log is synced before the first
      && s.inserting.Some? && s.groups != [] && LastSynced(s)
      && var i, ops := s.inserting.value, s.groups[|s.groups| - 1].ops;
         && i < |ops| && L.Step(s.db, s'.db, L.Insert(ops[i].user, ops[i].kind, ops[i].value))
         && s' == s.(db := s'.db, inserting := Some(i + 1))
    case Publish =>
      && s.inserting.Some? && s.groups != [] && s.inserting.value == |s.groups[|s.groups| - 1].ops|
      && LastSynced(s) && L.Step(s.db, s'.db, L.Action.Publish)
      && s' == s.(db := s'.db, inserting := None)
    case Acknowledge =>
      s.inserting.None? && s' == s.(acked := |s.groups|)
    case SyncLog =>
      s.current in s.disk.logs && s' == s.(synced := |s.disk.logs[s.current]|)
    case Switch =>
      // MakeRoomForWrite: a new log and a new memtable
      && s.inserting.None? && s.db.imm.None?
      && s' == s.(db := s.db.(imm := Some(s.db.mem), mem := [], nextFile := s.db.nextFile + 1),
                  disk := s.disk.(logs := s.disk.logs[s.db.nextFile := []]),
                  current := s.db.nextFile, previous := s.current, switched := |s.groups|, synced := 0,
                  oldSynced := s.synced)
    case WriteTable(size) =>
      // BuildTable for the immutable memtable
      && s.db.imm.Some? && s.pending.None? && s.flushing.None?
      && s' == s.(flushing := Some(size),
                  disk := if s.db.imm.value == [] then s.disk
                          else s.disk.(tables := s.disk.tables[s.db.nextFile := L.TableOf(s.db.imm.value, s.db.nextFile,
                            size)]))
    case Start(c) =>
      s.pending.None? && s.flushing.None? && L.Step(s.db, s'.db, L.Start(c)) && s' == s.(db := s'.db)
    case Output(f) =>
      // OpenCompactionOutputFile ... FinishCompactionOutputFile
      && s.db.job.Some? && s.pending.None? && s.flushing.None? && f.number == s.db.nextFile
      && s' == s.(db := s.db.(nextFile := s.db.nextFile + 1), outputs := s.outputs + [f],
                  disk := s.disk.(tables := s.disk.tables[f.number := f]))
    case Abandon =>
      s.pending.None? && s.flushing.None? && s' == s.(db := s.db.(job := None), outputs := [])
    case LogEdit(a, levels, edit) =>
      // LogAndApply up to the record in the manifest
      && s.pending.None? && Edits(a)
      && L.Step(s.db, After(s.db, a, levels), a)
      && (if a.Flush? then s.flushing == Some(a.size) else s.flushing.None?)
      && (a.Install? ==> forall f :: f in a.files ==> f in s.outputs)
      && var c := ChangeOf(s.db, a);
         && Says(edit, c.L, c.upper, c.lower, c.added) && Replaced(s.db.levels, levels, c.L, c.upper, c.lower, c.added)
         && var r := ManifestRecord(edit, Some(Numbers(if a.Flush? then s.current else s.logNumber,
                                                       After(s.db, a, levels).nextFile, s.db.lastSequence)));
            s' == s.(disk := s.disk.(manifest := s.disk.manifest + [r]), pending := Some(Pending(a, levels, r, false)))
    case SyncManifest =>
      s.pending.Some? && s' == s.(pending := Some(s.pending.value.(synced := true)))
    case Install =>
      s.pending.Some? && s.pending.value.synced && s' == Installed(s)
    case Collect(logs, tables) =>
      // RemoveObsoleteFiles lists what is obsolete now ...
      && s.pending.None? && s.flushing.None?
      && (forall n :: n in logs ==> n < s.logNumber)
      && (forall n :: n in tables ==> n < s.db.nextFile)
      && (forall l, f :: InLevel(s.db.levels, l, f) ==> f.number !in tables)
      && (forall f :: f in s.outputs ==> f.number !in tables)
      && s' == s.(doomedLogs := logs, doomedTables := tables)
    case DeleteLog(n) =>
      // ... and deletes it after releasing the mutex
      n in s.doomedLogs && s' == s.(disk := s.disk.(logs := s.disk.logs - {n}))
    case DeleteTable(n) =>
      n in s.doomedTables && s' == s.(disk := s.disk.(tables := s.disk.tables - {n}))
  }

  /** The end of LogAndApply: the new version is current. */
  function Installed(s: State): State
    requires s.pending.Some?
  {
    var p := s.pending.value;
    s.(db := After(s.db, p.action, p.levels),
       logNumber := if p.action.Flush? then s.current else s.logNumber,
       flushed := if p.action.Flush? then s.switched else s.flushed,
       flushing := None,
       outputs := if p.action.Install? then [] else s.outputs,
       pending := None)
  }

  // ---------- The invariant ----------

  ghost predicate Holding(es: seq<Entry>, E: set<Entry>) {
    forall e :: e in es <==> e in E
  }

  ghost function InMem(groups: seq<Group>, switched: nat, inserting: Option<nat>): set<Entry>
    requires if inserting.Some? then groups != [] && switched < |groups|
             && inserting.value <= |groups[|groups| - 1].ops|
             else switched <= |groups|
  {
    if inserting.Some? then AllEntries(groups[switched..|groups| - 1]) + Entries(groups[|groups| - 1], inserting.value)
    else AllEntries(groups[switched..])
  }

  /** The memtables hold what is not yet in the tables. */
  ghost predicate MemoryOk(s: State) {
    && s.flushed <= s.switched <= Complete(s) && s.acked <= Complete(s) && s.switched + s.synced <= |s.groups|
    && Ordered(s.groups[..Complete(s)], s.db.lastSequence + 1)
    && (s.inserting.Some? ==>
          && s.inserting.value <= |s.groups[|s.groups| - 1].ops|
             && s.groups[|s.groups| - 1].first == s.db.lastSequence + 1
          && s.db.lastSequence + |s.groups[|s.groups| - 1].ops| < MAX_SEQUENCE)
    && s.db.pending == (if s.inserting.Some? then s.inserting.value else 0)
    && (if s.db.imm.Some? then Holding(s.db.imm.value, AllEntries(s.groups[s.flushed..s.switched]))
         else s.flushed == s.switched)
    && Holding(s.db.mem, InMem(s.groups, s.switched, s.inserting))
  }

  /** The logs from logNumber on hold what is not yet in the tables, oldest first. */
  ghost predicate LogsOk(logs: map<nat, seq<Group>>, logNumber: nat, current: nat, previous: nat, imm: bool,
                         groups: seq<Group>, flushed: nat, switched: nat, nextFile: nat) {
    && flushed <= switched <= |groups|
    && logNumber <= current < nextFile && current in logs && logs[current] == groups[switched..]
    && (forall n :: n in logs ==> n <= current)
    && (imm ==> logNumber <= previous < current && previous in logs && logs[previous] == groups[flushed..switched])
    && (forall n :: n in logs && n >= logNumber ==> n == current || (imm && n == previous))
  }

  /** Group i is where no crash can reach it: in a table, or in the synced part of its log. */
  predicate IsSafe(s: State, i: nat) {
    i < s.flushed || (i < s.switched && i < s.flushed + s.oldSynced) || s.switched <= i < s.switched + s.synced
  }

  /** What was to be synced is, as soon as it can be read. */
  ghost predicate SyncOk(s: State) {
    && (s.db.imm.Some? ==> s.flushed + s.oldSynced <= s.switched)
    && (forall i :: i in s.asked && i < Complete(s) ==> IsSafe(s, i))
  }

  ghost predicate OnDisk(tables: map<nat, File>, doomed: set<nat>, f: File) {
    f.number in tables && tables[f.number] == f && f.number !in doomed
  }

  /** Every table that is or will be needed is there and is not about to be deleted. */
  ghost predicate TablesOk(tables: map<nat, File>, doomed: set<nat>, levels: Levels, outputs: seq<File>,
                           nextFile: nat) {
    && (forall l, f :: InLevel(levels, l, f) ==> OnDisk(tables, doomed, f))
    && (forall f :: f in outputs ==> OnDisk(tables, doomed, f) && f.number < nextFile)
    && (forall n :: n in doomed ==> n < nextFile)
  }

  ghost predicate FlushOk(s: State) {
    s.flushing.Some? ==>
      && s.db.imm.Some?
      && (s.db.imm.value != [] ==>
            var f := L.TableOf(s.db.imm.value, s.db.nextFile, s.flushing.value);
            OnDisk(s.disk.tables, s.doomedTables, f))
  }

  /** The tables alone answer for the groups that were flushed. */
  ghost predicate BaseOk(s: State) {
    s.flushed <= |s.groups|
    && L.Inv(TablesOnly(s.db.levels, s.db.lastSequence, s.db.nextFile, None, AllEntries(s.groups[..s.flushed]),
       s.db.horizon))
  }

  /** The records whose edits are installed. */
  function Settled(s: State): seq<ManifestRecord> {
    if s.pending.Some? && s.disk.manifest != [] then s.disk.manifest[..|s.disk.manifest| - 1] else s.disk.manifest
  }

  function EditsOf(rs: seq<ManifestRecord>): seq<Edit> {
    seq(|rs|, i requires 0 <= i < |rs| => rs[i].edit)
  }

  /** Every earlier addition of file number n was to a level above `level`, or to it. */
  ghost predicate AddedUpTo(es: seq<Edit>, n: nat, level: int) {
    forall i, p :: 0 <= i < |es| && p in es[i].added && p.1.number == n ==> p.0 <= level
  }

  /** Each edit is well formed and adds no number twice. */
  ghost predicate EditsFit(es: seq<Edit>) {
    forall i :: 0 <= i < |es| ==>
      EditOk(es[i]) && forall a, b :: 0 <= a < b < |es[i].added| ==> es[i].added[a].1.number != es[i].added[b].1.number
  }

  /** Replaying the edits one after the other gives the levels. */
  ghost predicate Replays(es: seq<Edit>, levels: Levels) {
    && |levels| == NUM_LEVELS
    && forall l :: 0 <= l < NUM_LEVELS ==>
         NoReturn({}, es, l, |es|) && Elements(levels[l]) == StepwiseAt({}, es, l, |es|)
  }

  /** Which file numbers the edits have used. */
  ghost predicate NumbersUsed(es: seq<Edit>, levels: Levels, outputs: seq<File>, nextFile: nat) {
    && (forall l, f :: InLevel(levels, l, f) ==> AddedUpTo(es, f.number, l))
    && (forall i, p :: 0 <= i < |es| && p in es[i].added ==> p.1.number < nextFile)
    && (forall f :: f in outputs ==> AddedUpTo(es, f.number, -1))
  }

  /** The last record tells where to go on. */
  ghost predicate NumbersOk(rs: seq<ManifestRecord>, levels: Levels, logNumber: nat, nextFile: nat, last: nat,
                            horizon: nat,
                            flushed: seq<Group>) {
    && rs != [] && rs[|rs| - 1].numbers.Some?
    && var k := rs[|rs| - 1].numbers.value;
       && k.log == logNumber && k.nextFile <= nextFile && L.NumbersBelow(levels, k.nextFile)
       && horizon <= k.last <= last
       && Ordered(flushed, k.last + 1)
  }

  ghost predicate ManifestOk(rs: seq<ManifestRecord>, levels: Levels, outputs: seq<File>, nextFile: nat) {
    EditsFit(EditsOf(rs)) && Replays(EditsOf(rs), levels) && NumbersUsed(EditsOf(rs), levels, outputs, nextFile)
  }

  /** An edit on its way may be installed whenever it is synced. */
  ghost predicate PendingOk(s: State) {
    s.pending.Some? ==>
      var p := s.pending.value;
      var c := ChangeOf(s.db, p.action);
      && s.disk.manifest != [] && s.disk.manifest[|s.disk.manifest| - 1] == p.record
      && Edits(p.action) && L.Step(s.db, After(s.db, p.action, p.levels), p.action)
      && Says(p.record.edit, c.L, c.upper, c.lower, c.added)
      && Replaced(s.db.levels, p.levels, c.L, c.upper, c.lower, c.added)
      && (if p.action.Flush? then s.flushing == Some(p.action.size) else s.flushing.None?)
      && (p.action.Install? ==> forall f :: f in p.action.files ==> f in s.outputs)
      && p.record.numbers.Some?
      && var k := p.record.numbers.value;
         && k.log == (if p.action.Flush? then s.current else s.logNumber)
         && k.nextFile <= After(s.db, p.action, p.levels).nextFile && L.NumbersBelow(p.levels, k.nextFile)
         && After(s.db, p.action, p.levels).horizon <= k.last <= s.db.lastSequence
         && s.flushed <= s.switched <= |s.groups|
         && Ordered(s.groups[..if p.action.Flush? then s.switched else s.flushed], k.last + 1)
  }

  ghost predicate Inv(s: State) {
    && L.Inv(s.db)
    && MemoryOk(s)
    && SyncOk(s)
    && LogsOk(s.disk.logs, s.logNumber, s.current, s.previous, s.db.imm.Some?, s.groups, s.flushed, s.switched,
       s.db.nextFile)
    && (forall n :: n in s.doomedLogs ==> n < s.logNumber)
    && TablesOk(s.disk.tables, s.doomedTables, s.db.levels, s.outputs, s.db.nextFile)
    && FlushOk(s)
    && (s.outputs != [] ==> s.db.job.Some?)
    && BaseOk(s)
    && ManifestOk(Settled(s), s.db.levels, s.outputs, s.db.nextFile)
    && NumbersOk(Settled(s), s.db.levels, s.logNumber, s.db.nextFile, s.db.lastSequence, s.db.horizon,
                 s.groups[..s.flushed])
    && PendingOk(s)
  }
}
