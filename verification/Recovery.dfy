/** Opening a database after a crash: replay the manifest, then the logs. */
module Recovery {
  import opened Options
  import opened InternalKeys
  import opened Batches
  import opened Files
  import opened Picking
  import opened Versions
  import opened VersionChanges
  import opened VersionBuilder
  import opened VersionSets
  import opened Durable
  import opened CrashProtocol
  import opened CrashSafety
  import L = Lsm

  // ---------- What a crash leaves ----------

  /** Each of the two live logs may lose records at its end, but none that was synced.  An
      earlier recovery that was interrupted may have left new logs, still empty. */
  ghost predicate LogsSurvive(s: State, left: map<nat, seq<Group>>) {
    && s.disk.logs.Keys <= left.Keys && s.current in s.disk.logs
    && left[s.current] <= s.disk.logs[s.current] && s.synced <= |left[s.current]|
    && (s.db.imm.Some? && s.previous in s.disk.logs ==>
          left[s.previous] <= s.disk.logs[s.previous] && s.oldSynced <= |left[s.previous]|)
    && (forall n :: n in left && n !in s.disk.logs ==> n > s.current && left[n] == [])
  }

  ghost predicate TableLeft(tables: map<nat, File>, f: File) {
    f.number in tables && tables[f.number] == f
  }

  /** A crash in state s may leave d.  All that was in memory is gone.  The last record of
      the manifest survives if it was synced, and may if it was not.  Tables are synced before
      a record names them. */
  ghost predicate Crash(s: State, d: Disk) {
    && (d.manifest == s.disk.manifest || (s.pending.Some? && !s.pending.value.synced && d.manifest == Settled(s)))
    && LogsSurvive(s, d.logs)
    && (forall l, f :: InLevel(s.db.levels, l, f) ==> TableLeft(d.tables, f))
    && (s.pending.Some? && d.manifest == s.disk.manifest ==>
          forall f :: f in ChangeOf(s.db, s.pending.value.action).added ==> TableLeft(d.tables, f))
  }

  /** What the manifest left on disk describes is the tree of state s. */
  ghost predicate Image(s: State, d: Disk) {
    && d.manifest == Settled(s)
    && LogsSurvive(s, d.logs)
    && (forall l, f :: InLevel(s.db.levels, l, f) ==> TableLeft(d.tables, f))
  }

  /** The state to which the manifest leads: with a surviving record on its way, the one just
      after its installation. */
  function Recoverable(s: State, d: Disk): State {
    if s.pending.Some? && d.manifest == s.disk.manifest then Installed(s) else s
  }

  /** Every crash, at whatever step, leaves what some state of the protocol describes, with
      the same groups written and acknowledged. */
  lemma CrashLeavesImage(s: State, d: Disk)
    requires Inv(s) && Crash(s, d)
    ensures var t := Recoverable(s, d);
            && Inv(t) && Image(t, d)
            && t.groups == s.groups && t.acked == s.acked && t.asked == s.asked && t.disk == s.disk
            && t.current == s.current && t.switched == s.switched && t.synced == s.synced
            && t.oldSynced == s.oldSynced
  {
    if s.pending.Some? && d.manifest == s.disk.manifest {
      InstallKeepsInv(s);
      InstalledTables(s, d);
    }
  }

  lemma InstalledTables(s: State, d: Disk)
    requires PendingOk(s) && s.pending.Some?
    requires forall l, f :: InLevel(s.db.levels, l, f) ==> TableLeft(d.tables, f)
    requires forall f :: f in ChangeOf(s.db, s.pending.value.action).added ==> TableLeft(d.tables, f)
    ensures forall l, f :: InLevel(Installed(s).db.levels, l, f) ==> TableLeft(d.tables, f)
  {
    hide TableLeft, ChangeOf, L.Step, Says, L.NumbersBelow, Ordered;
    AfterLevels(s.db, s.pending.value.action, s.pending.value.levels);
  }

  /** What is left of the log of the immutable memtable, and of the current log. */
  function OldLeft(s: State, d: Disk): seq<Group> {
    if s.db.imm.Some? && s.previous in d.logs then d.logs[s.previous] else []
  }

  function NewLeft(s: State, d: Disk): seq<Group> {
    if s.current in d.logs then d.logs[s.current] else []
  }

  /** What the two logs lost. */
  function OldLost(s: State, d: Disk): seq<Group> {
    if s.db.imm.Some? && s.previous in s.disk.logs && |OldLeft(s, d)| <= |s.disk.logs[s.previous]| then
      s.disk.logs[s.previous][|OldLeft(s, d)|..]
    else []
  }

  function NewLost(s: State, d: Disk): seq<Group> {
    if s.current in s.disk.logs && |NewLeft(s, d)| <= |s.disk.logs[s.current]| then
      s.disk.logs[s.current][|NewLeft(s, d)|..]
    else []
  }

  /** The groups that survive: those in the tables, and what is left of the logs. */
  function Surviving(s: State, d: Disk): seq<Group>
    requires s.flushed <= |s.groups|
  {
    s.groups[..s.flushed] + OldLeft(s, d) + NewLeft(s, d)
  }

  lemma SurvivingAre(s: State, d: Disk)
    requires Inv(s) && Image(s, d)
    ensures s.flushed <= s.switched <= |s.groups|
    ensures var p, c := |OldLeft(s, d)|, |NewLeft(s, d)|;
            && s.flushed + p <= s.switched && OldLeft(s, d) == s.groups[s.flushed..s.flushed + p]
            && s.switched + c <= |s.groups| && NewLeft(s, d) == s.groups[s.switched..s.switched + c]
            && OldLost(s, d) == s.groups[s.flushed + p..s.switched] && NewLost(s, d) == s.groups[s.switched + c..]
            && s.synced <= c && (s.db.imm.Some? ==> s.oldSynced <= p) && (s.db.imm.None? ==> s.flushed == s.switched)
  {
    hide L.Inv, SyncOk, TablesOk, BaseOk, ManifestOk, NumbersOk, PendingOk, FlushOk, Holding, Ordered, AllEntries;
    var f, w, p, c := s.flushed, s.switched, |OldLeft(s, d)|, |NewLeft(s, d)|;
    assert s.groups[w..][..c] == s.groups[w..w + c];
    if s.db.imm.Some? {
      assert s.groups[f..w][..p] == s.groups[f..f + p];
    }
  }

  // ---------- The manifest ----------

  /** The numbers that occur last among the first n records. */
  ghost predicate LastNumbers(manifest: seq<ManifestRecord>, n: nat, numbers: Option<Numbers>)
    requires n <= |manifest|
  {
    && (numbers.Some? ==> exists i :: 0 <= i < n && manifest[i].numbers == numbers
                                      && forall j :: i < j < n ==> manifest[j].numbers.None?)
    && (numbers.None? ==> forall j :: 0 <= j < n ==> manifest[j].numbers.None?)
  }

  /** VersionSet::Recover: one builder for all edits, and the last numbers that occur. */
  method ReplayManifest(manifest: seq<ManifestRecord>, ghost levels: Levels)
    returns (r: Levels, numbers: Option<Numbers>)
    requires EditsFit(EditsOf(manifest)) && Replays(EditsOf(manifest), levels)
    requires forall l :: 0 <= l < NUM_LEVELS ==> SortedLevel(levels[l])
    ensures r == levels
    ensures LastNumbers(manifest, |manifest|, numbers)
  {
    hide SortedLevel, NoReturn, ReplayAt, StepwiseAt, Remaining, Elements, ApplyAt, AddedAt;
    ghost var es := EditsOf(manifest);
    numbers := None;
    var builder := new Builder([[], [], [], [], [], [], []]) by { NothingSorted(); }
    BuilderStarts(es);
    var i := 0;
    while i < |manifest|
      invariant 0 <= i <= |manifest| && fresh(builder) && builder.Valid()
                && builder.base == [[], [], [], [], [], [], []]
      invariant forall l :: 0 <= l < NUM_LEVELS ==> builder.State(l) == ReplayAt(es, l, i)
      invariant LastNumbers(manifest, i, numbers)
    {
      EditIsFresh(builder, es, levels, i);
      builder.Apply(manifest[i].edit);
      ReplayNext(es, i);
      if manifest[i].numbers.Some? {
        numbers := manifest[i].numbers;
      }
      i := i + 1;
    }
    r := builder.SaveTo();
    forall l | 0 <= l < NUM_LEVELS
      ensures r[l] == levels[l]
    {
      ReplayIsStepwise({}, es, l, |es|);
      assert Elements(builder.base[l]) == {} by { ElementsEmpty([]); }
      SortedUnique(r[l], levels[l]);
    }
  }

  lemma NothingSorted()
    ensures SortedLevel([])
  {
  }

  lemma BuilderStarts(es: seq<Edit>)
    ensures forall l :: ReplayAt(es, l, 0) == LevelState({}, {})
  {
  }

  lemma ReplayNext(es: seq<Edit>, i: nat)
    requires i < |es|
    ensures forall l :: ReplayAt(es, l, i + 1) == ApplyAt(ReplayAt(es, l, i), es[i], l)
  {
  }

  lemma EditIsFresh(builder: Builder, es: seq<Edit>, levels: Levels, i: nat)
    requires builder.Valid() && builder.base == [[], [], [], [], [], [], []] && i < |es|
    requires EditsFit(es) && Replays(es, levels)
    requires forall l :: 0 <= l < NUM_LEVELS ==> builder.State(l) == ReplayAt(es, l, i)
    ensures builder.FreshFor(es[i])
  {
    hide SortedLevel, ReplayAt, StepwiseAt, NoReturn, AddedAt, Elements, Tied;
    var e := es[i];
    assert EditOk(e);
    forall a, f | 0 <= a < |e.added| && f in builder.base[e.added[a].0] + builder.added[e.added[a].0]
      ensures !Tied(f, e.added[a].1)
    {
      var l := e.added[a].0;
      MemberOf(builder.added[l], f);
      assert builder.State(l).added == ReplayAt(es, l, i).added;
      EarlierNumber(es, l, i, a, f);
      TiedMeansSame(f, e.added[a].1);
    }
    forall a, b | 0 <= a < b < |e.added| && e.added[a].0 == e.added[b].0
      ensures !Tied(e.added[a].1, e.added[b].1)
    {
      TiedMeansSame(e.added[a].1, e.added[b].1);
    }
  }

  lemma EarlierNumber(es: seq<Edit>, l: nat, i: nat, a: nat, f: File)
    requires NoReturn({}, es, l, |es|) && i < |es| && a < |es[i].added| && es[i].added[a].0 == l
    requires f in ReplayAt(es, l, i).added
    ensures f.number != es[i].added[a].1.number
  {
    hide ReplayAt;
    ReplayAdded(es, l, i);
    var j :| 0 <= j < i && f in AddedAt(es[j].added, l);
    assert es[i].added[a] in es[i].added;
    assert es[i].added[a].1 in AddedAt(es[i].added, l);
  }

  // ---------- Files ----------

  /** Is every table of the version there? */
  method TablesPresent(levels: Levels, tables: map<nat, File>) returns (ok: bool)
    ensures ok <==> forall l, f :: InLevel(levels, l, f) ==> f.number in tables
  {
    var l := 0;
    while l < |levels|
      invariant 0 <= l <= |levels|
      invariant forall m, f :: 0 <= m < l && InLevel(levels, m, f) ==> f.number in tables
    {
      var i := 0;
      while i < |levels[l]|
        invariant 0 <= i <= |levels[l]|
        invariant forall j :: 0 <= j < i ==> levels[l][j].number in tables
      {
        if levels[l][i].number !in tables {
          assert InLevel(levels, l, levels[l][i]);
          return false;
        }
        i := i + 1;
      }
      l := l + 1;
    }
    return true;
  }

  predicate Increasing(ns: seq<nat>) {
    forall i, j :: 0 <= i < j < |ns| ==> ns[i] < ns[j]
  }

  /** The logs to recover, oldest first. */
  method LogsToRecover(logs: map<nat, seq<Group>>, minLog: nat) returns (ns: seq<nat>)
    ensures Increasing(ns) && forall n :: n in ns <==> n in logs && n >= minLog
  {
    var rest := logs.Keys;
    ns := [];
    while rest != {}
      invariant rest <= logs.Keys && Increasing(ns)
      invariant forall n :: n in ns <==> n in logs && n >= minLog && n !in rest
      decreases |rest|
    {
      var n :| n in rest;
      rest := rest - {n};
      if n >= minLog {
        ns := InsertNumber(ns, n);
      }
    }
  }

  method InsertNumber(ns: seq<nat>, n: nat) returns (r: seq<nat>)
    requires Increasing(ns) && n !in ns
    ensures Increasing(r) && forall m :: m in r <==> m in ns || m == n
  {
    var i := 0;
    while i < |ns| && ns[i] < n
      invariant 0 <= i <= |ns| && forall j :: 0 <= j < i ==> ns[j] < n
    {
      i := i + 1;
    }
    assert ns == ns[..i] + ns[i..];
    r := ns[..i] + [n] + ns[i..];
    forall j | i <= j < |ns|
      ensures n < ns[j]
    {
      assert ns[i] in ns && ns[i] != n;
    }
  }

  // ---------- The logs ----------

  /** A level-0 list with one more file in its place. */
  lemma {:induction false} WithFile(fs: seq<File>, f: File) returns (r: seq<File>)
    requires SortedLevel(fs) && forall g :: g in fs ==> g.number != f.number
    ensures SortedLevel(r) && forall g :: g in r <==> g in fs || g == f
  {
    if fs == [] {
      r := [f];
    } else if BySmallest(f, fs[0]) {
      r := [f] + fs;
      assert forall i :: 0 < i < |fs| ==> BySmallest(fs[0], fs[i]);
    } else {
      var rest := WithFile(fs[1..], f);
      r := [fs[0]] + rest;
      TiedMeansSame(f, fs[0]);
      forall g | g in rest
        ensures BySmallest(fs[0], g)
      {
        if g in fs[1..] {
          var i :| 0 <= i < |fs| - 1 && fs[1..][i] == g;
          assert BySmallest(fs[0], fs[i + 1]);
        }
      }
      assert fs == [fs[0]] + fs[1..];
    }
  }

  lemma Level0With(levels: Levels, f: File) returns (levels': Levels)
    requires Shape(levels) && |levels| == NUM_LEVELS && L.NumbersBelow(levels, f.number)
    ensures Replaced(levels, levels', -1, [], [], [f])
  {
    hide FileOk, Apart, BySmallest, SortedLevel;
    forall g | g in levels[0]
      ensures g.number != f.number
    {
      assert InLevel(levels, 0, g);
    }
    var r := WithFile(levels[0], f);
    levels' := levels[0 := r];
  }

  /** The recovered tables: those of the manifest, and new ones at level 0, made of the
      first k groups of gs. */
  ghost predicate Restored(base: Levels, levels: Levels, added: seq<File>, tables: map<nat, File>, first: nat,
                           nextFile: nat,
                           gs: seq<Group>, k: nat, bound: nat, horizon: nat) {
    && k <= |gs| && first <= nextFile
    && L.Inv(TablesOnly(levels, bound, nextFile, None, AllEntries(gs[..k]), horizon))
    && (forall l, f :: InLevel(levels, l, f) <==> InLevel(base, l, f) || (l == 0 && f in added))
    && (forall i :: 0 <= i < |added| ==> first <= added[i].number < nextFile)
    && (forall i, j :: 0 <= i < j < |added| ==> added[i].number < added[j].number)
    && (forall l, f :: InLevel(levels, l, f) ==> f.number in tables && tables[f.number] == f)
  }

  /** One more table, from a memtable that holds the groups k..n. */
  lemma TableRestored(base: Levels, levels: Levels, added: seq<File>, tables: map<nat, File>, first: nat, nextFile: nat,
                      gs: seq<Group>, k: nat, n: nat, bound: nat, horizon: nat, mem: seq<Entry>,
                        size: nat) returns (levels': Levels)
    requires Restored(base, levels, added, tables, first, nextFile, gs, k, bound, horizon) && k <= n <= |gs|
    requires Sorted(mem) && mem != [] && Holding(mem, AllEntries(gs[k..n])) && Ordered(gs, bound + 1)
    ensures var f := L.TableOf(mem, nextFile, size);
            Restored(base, levels', added + [f], tables[nextFile := f], first, nextFile + 1, gs, n, bound, horizon)
  {
    hide L.Inv, AllEntries, Ordered, Shape, Recency;
    var b := TablesOnly(levels, bound, nextFile, None, AllEntries(gs[..k]), horizon);
    var f := L.TableOf(mem, nextFile, size);
    VolatileSorted(b);
    BelowMeans(levels, nextFile);
    levels' := Level0With(levels, f);
    GroupsAreFresh(b, gs, k, n, bound, mem);
    var b' := TablesOnly(levels', bound, nextFile + 1, None, AllEntries(gs[..n]), horizon);
    assert f in [f];
    TableKeepsInv(b, b', mem, size, 0, bound);
  }

  lemma GroupsAreFresh(b: L.State, gs: seq<Group>, k: nat, n: nat, bound: nat, mem: seq<Entry>)
    requires k <= n <= |gs| && Ordered(gs, bound + 1)
    requires L.Inv(b) && b.lastSequence == bound && b.history == AllEntries(gs[..k])
    requires Sorted(mem) && mem != [] && Holding(mem, AllEntries(gs[k..n]))
    ensures Fresh(b, mem, bound) && AllEntries(gs[..n]) == AllEntries(gs[..k]) + EntrySet(mem)
  {
    hide L.Inv, AllEntries, Ordered;
    VolatileSorted(b);
    OrderedSplits(gs, bound + 1, n);
    OrderedSplits(gs[..n], bound + 1, k);
    assert gs[..n][..k] == gs[..k] && gs[..n][k..] == gs[k..n];
    OrderedBelow(gs[k..n], bound + 1);
    assert EntrySet(mem) == AllEntries(gs[k..n]);
  }

  /** An empty memtable makes no table, but takes a number. */
  lemma NothingRestored(base: Levels, levels: Levels, added: seq<File>, tables: map<nat, File>, first: nat,
                        nextFile: nat,
                        gs: seq<Group>, k: nat, n: nat, bound: nat, horizon: nat, nextFile': nat)
    requires Restored(base, levels, added, tables, first, nextFile, gs, k, bound, horizon) && k <= n <= |gs|
    requires AllEntries(gs[k..n]) == {} && Ordered(gs, bound + 1) && nextFile <= nextFile'
    ensures Restored(base, levels, added, tables, first, nextFile', gs, n, bound, horizon)
  {
    hide L.Inv, AllEntries, Ordered;
    var b := TablesOnly(levels, bound, nextFile, None, AllEntries(gs[..k]), horizon);
    VolatileSorted(b);
    OrderedSplits(gs, bound + 1, n);
    OrderedSplits(gs[..n], bound + 1, k);
    assert gs[..n][..k] == gs[..k] && gs[..n][k..] == gs[k..n];
    assert AllEntries(gs[..n]) == AllEntries(gs[..k]);
    NumbersMayGrow(b, b.(nextFile := nextFile'));
  }

  /** WriteBatchInternal::InsertInto: the operations of one record enter the memtable. */
  method InsertGroup(mem: seq<Entry>, g: Group, ghost E: set<Entry>) returns (mem': seq<Entry>)
    requires Sorted(mem) && Holding(mem, E) && forall e :: e in E ==> e.key.sequence < g.first
    ensures Sorted(mem') && Holding(mem', E + Entries(g, |g.ops|))
  {
    hide InsertEntry, Less;
    mem' := mem;
    var i := 0;
    while i < |g.ops|
      invariant 0 <= i <= |g.ops| && Sorted(mem') && Holding(mem', E + Entries(g, i))
    {
      var e := Entry(InternalKey(g.ops[i].user, g.first + i, g.ops[i].kind), g.ops[i].value);
      assert e == EntryOf(g, i);
      assert Entries(g, i + 1) == Entries(g, i) + {e};
      assert forall d :: d in mem' ==> d.key.sequence < g.first + i;
      InsertEntryKeepsOrder(mem', e);
      mem' := InsertEntry(mem', e);
      i := i + 1;
    }
  }

  /** The first k groups have no sequence number above `max`, or above `floor`. */
  ghost predicate SequencesUpTo(gs: seq<Group>, k: nat, max: int, floor: int) {
    k <= |gs| && forall i :: 0 <= i < k ==>
      gs[i].first + |gs[i].ops| - 1 <= max || gs[i].first + |gs[i].ops| - 1 <= floor
  }

  lemma {:induction false} OrderedAt(gs: seq<Group>, end: nat, i: nat)
    requires Ordered(gs, end) && i < |gs|
    ensures gs[i].first + |gs[i].ops| <= end
    ensures forall e :: e in AllEntries(gs[..i]) ==> e.key.sequence < gs[i].first
  {
    var n := |gs| - 1;
    if i < n {
      OrderedAt(gs[..n], gs[n].first, i);
      assert gs[..n][..i] == gs[..i];
    } else {
      OrderedBelow(gs[..n], gs[n].first);
    }
  }

  /** The last sequence number of a group. */
  function End(g: Group): int { g.first + |g.ops| - 1 }

  /** The least number that is not below `start` and the end of any of the groups. */
  ghost predicate LeastAbove(last: int, start: int, gs: seq<Group>) {
    && start <= last && (forall g :: g in gs ==> g.first + |g.ops| - 1 <= last)
    && (last == start || exists g :: g in gs && last == g.first + |g.ops| - 1)
  }

  lemma LeastAboveMore(last: int, start: int, gs: seq<Group>, last': int, more: seq<Group>)
    requires LeastAbove(last, start, gs) && LeastAbove(last', last, more)
    ensures LeastAbove(last', start, gs + more)
  {
    if last' != start && last' == last {
      var g :| g in gs && last == End(g);
      assert g in gs + more;
    } else if last' != last {
      var g :| g in more && last' == End(g);
      assert g in gs + more;
    }
  }

  /** How the first n records of a log fill memtables: mems[i] is the memtable once record i is
      in, and starts[i] is the first record in it.  A full memtable takes no more. */
  ghost predicate Fills(records: seq<Group>, n: nat, big: seq<Entry> -> bool, starts: seq<nat>, mems: seq<seq<Entry>>) {
    && |starts| == |mems| == n <= |records|
    && forall i :: 0 <= i < n ==>
         && starts[i] == (if i == 0 then 0 else if big(mems[i - 1]) then i else starts[i - 1])
         && starts[i] <= i && Sorted(mems[i]) && Holding(mems[i], AllEntries(records[starts[i]..i + 1]))
  }

  /** The tables made of them, in order: one for each memtable that is full, or the last of the
      log, and not empty.  closes[t] is the last record in table t. */
  ghost predicate Makes(added: seq<File>, added': seq<File>, n: nat, big: seq<Entry> -> bool, mems: seq<seq<Entry>>,
                        closes: seq<nat>, atEnd: bool) {
    && n <= |mems| && |added'| == |added| + |closes| && added <= added' && Increasing(closes)
    && (forall i :: i in closes <==> 0 <= i < n && mems[i] != [] && (big(mems[i]) || (atEnd && i == n - 1)))
    && (forall t :: 0 <= t < |closes| ==> closes[t] < n && added'[|added| + t].entries == mems[closes[t]])
  }

  lemma FillsMore(records: seq<Group>, n: nat, big: seq<Entry> -> bool, starts: seq<nat>, mems: seq<seq<Entry>>,
                  start: nat, mem: seq<Entry>)
    requires Fills(records, n, big, starts, mems) && n < |records|
    requires start == if n == 0 then 0 else if big(mems[n - 1]) then n else starts[n - 1]
    requires start <= n && Sorted(mem) && Holding(mem, AllEntries(records[start..n + 1]))
    ensures Fills(records, n + 1, big, starts + [start], mems + [mem])
  {
    hide Sorted, Holding, AllEntries;
  }

  /** `after` is `before` with a table for the memtable, unless that is empty. */
  ghost predicate Adds(before: seq<File>, after: seq<File>, mem: seq<Entry>) {
    if mem == [] then after == before
    else |after| == |before| + 1 && before <= after && after[|before|].entries == mem
  }

  /** One more record; if the memtable is full then, it becomes a table. */
  lemma MakesNext(added: seq<File>, before: seq<File>, after: seq<File>, n: nat, big: seq<Entry> -> bool,
                  mems: seq<seq<Entry>>, closes: seq<nat>, mem: seq<Entry>)
    returns (closes': seq<nat>)
    requires Makes(added, before, n, big, mems, closes, false) && n == |mems|
    requires if big(mem) then Adds(before, after, mem) else after == before
    ensures Makes(added, after, n + 1, big, mems + [mem], closes', false)
  {
    closes' := closes;
    if big(mem) && mem != [] {
      closes' := closes + [n];
      assert forall i :: i in closes' <==> i in closes || i == n;
    }
  }

  /** At the end of the log what is in a memtable becomes a table too. */
  lemma MakesLast(added: seq<File>, before: seq<File>, after: seq<File>, n: nat, big: seq<Entry> -> bool,
                  mems: seq<seq<Entry>>, closes: seq<nat>)
    returns (closes': seq<nat>)
    requires Makes(added, before, n, big, mems, closes, false) && n == |mems|
    requires if n > 0 && !big(mems[n - 1]) then Adds(before, after, mems[n - 1]) else after == before
    ensures Makes(added, after, n, big, mems, closes', true)
  {
    closes' := closes;
    if n > 0 && !big(mems[n - 1]) && mems[n - 1] != [] {
      closes' := closes + [n - 1];
      assert forall i :: i in closes' <==> i in closes || i == n - 1;
    }
  }

  /** One record of the log: into the memtable, and its last sequence number noted. */
  method TakeRecord(mem: seq<Entry>, g: Group, maxSequence: int, ghost gs: seq<Group>, ghost m: nat, ghost n: nat,
                    ghost bound: nat, ghost floor: int)
    returns (mem': seq<Entry>, maxSequence': int)
    requires m <= n < |gs| && Ordered(gs, bound + 1) && g == gs[n]
    requires Sorted(mem) && Holding(mem, AllEntries(gs[m..n])) && SequencesUpTo(gs, n, maxSequence, floor)
    ensures Sorted(mem') && Holding(mem', AllEntries(gs[m..n + 1])) && SequencesUpTo(gs, n + 1, maxSequence', floor)
    ensures LeastAbove(maxSequence', maxSequence, [g]) && (maxSequence' <= maxSequence || maxSequence' <= bound)
  {
    hide AllEntries, Entries, Ordered, Holding;
    OrderedAt(gs, bound + 1, n);
    NextGroup(gs, m, n, bound);
    mem' := InsertGroup(mem, g, AllEntries(gs[m..n]));
    maxSequence' := maxSequence;
    var lastSeq := g.first + |g.ops| - 1;
    if lastSeq > maxSequence' {
      maxSequence' := lastSeq;
    }
    assert g in [g];
  }

  /** The same with record i of a log, and what is known of the records before it. */
  method FillNext(records: seq<Group>, i: nat, mem: seq<Entry>, maxSequence: int, ghost start: int,
                  ghost big: seq<Entry> -> bool, ghost starts: seq<nat>, ghost mems: seq<seq<Entry>>, ghost m: nat,
                  ghost gs: seq<Group>, ghost k: nat, ghost bound: nat, ghost floor: int)
    returns (mem': seq<Entry>, maxSequence': int)
    requires m <= i < |records| && Ordered(gs, bound + 1)
    requires k + |records| <= |gs| && records == gs[k..k + |records|]
    requires Sorted(mem) && Holding(mem, AllEntries(gs[k + m..k + i])) && SequencesUpTo(gs, k + i, maxSequence, floor)
    requires LeastAbove(maxSequence, start, records[..i]) && (maxSequence <= start || maxSequence <= bound)
    requires Fills(records, i, big, starts, mems)
    requires m == if i == 0 then 0 else if big(mems[i - 1]) then i else starts[i - 1]
    ensures Sorted(mem') && Holding(mem', AllEntries(gs[k + m..k + i + 1]))
    ensures SequencesUpTo(gs, k + i + 1, maxSequence', floor)
    ensures LeastAbove(maxSequence', start, records[..i + 1]) && (maxSequence' <= start || maxSequence' <= bound)
    ensures Fills(records, i + 1, big, starts + [m], mems + [mem'])
  {
    hide AllEntries, Ordered, Holding, Sorted, SequencesUpTo, LeastAbove;
    var g := records[i];
    mem', maxSequence' := TakeRecord(mem, g, maxSequence, gs, k + m, k + i, bound, floor);
    LeastAboveMore(maxSequence, start, records[..i], maxSequence', [g]);
    assert records[..i] + [g] == records[..i + 1];
    SameSlice(records, gs, k, m, i + 1);
    FillsMore(records, i, big, starts, mems, m, mem');
  }

  /** RecoverLogFile: the groups of one log, gs[k..n], through memtables into tables at level 0.
      `big` decides when a memtable is full. */
  method RecoverLogFile(records: seq<Group>, added: seq<File>, tables: map<nat, File>, nextFile: nat, maxSequence: int,
                        sizeOf: seq<Entry> -> nat, big: seq<Entry> -> bool,
                        ghost base: Levels, ghost levels: Levels, ghost first: nat, ghost gs: seq<Group>, ghost k: nat,
                        ghost bound: nat, ghost horizon: nat, ghost floor: int)
    returns (added': seq<File>, tables': map<nat, File>, nextFile': nat, maxSequence': int, ghost levels': Levels,
             ghost starts: seq<nat>, ghost mems: seq<seq<Entry>>, ghost closes: seq<nat>)
    requires Restored(base, levels, added, tables, first, nextFile, gs, k, bound, horizon)
    requires Ordered(gs, bound + 1) && k + |records| <= |gs| && records == gs[k..k + |records|]
    requires SequencesUpTo(gs, k, maxSequence, floor)
    ensures Restored(base, levels', added', tables', first, nextFile', gs, k + |records|, bound, horizon)
    ensures nextFile <= nextFile' <= nextFile + |records| && SequencesUpTo(gs, k + |records|, maxSequence', floor)
    ensures LeastAbove(maxSequence', maxSequence, records) && (maxSequence' <= maxSequence || maxSequence' <= bound)
    ensures Fills(records, |records|, big, starts, mems)
    ensures Makes(added, added', |records|, big, mems, closes, true)
  {
    hide L.Inv, AllEntries, Entries, Ordered, Restored, Holding, Sorted, Fills, Makes, Adds, LeastAbove, SequencesUpTo;
    added', tables', nextFile', maxSequence', levels' := added, tables, nextFile, maxSequence, levels;
    var mem: Option<seq<Entry>> := None;
    ghost var m := 0;
    starts, mems, closes := [], [], [];
    NothingYet(records, big, added, maxSequence);
    var i := 0;
    while i < |records|
      invariant 0 <= i <= |records| && m <= i && |starts| == |mems| == i
      invariant Restored(base, levels', added', tables', first, nextFile', gs, k + m, bound, horizon)
      invariant mem.None? ==> m == i && (i > 0 ==> big(mems[i - 1]))
      invariant mem.Some? ==> && m < i && mem.value == mems[i - 1] && !big(mem.value) && starts[i - 1] == m
                              && Sorted(mem.value) && Holding(mem.value, AllEntries(gs[k + m..k + i]))
      invariant nextFile <= nextFile' <= nextFile + m && SequencesUpTo(gs, k + i, maxSequence', floor)
      invariant LeastAbove(maxSequence', maxSequence, records[..i])
      invariant maxSequence' <= maxSequence || maxSequence' <= bound
      invariant Fills(records, i, big, starts, mems) && Makes(added, added', i, big, mems, closes, false)
    {
      if mem.None? {
        MemStarts(gs, k + i);
        mem := Some([]);
      }
      var taken: seq<Entry>;
      taken, maxSequence' := FillNext(records, i, mem.value, maxSequence', maxSequence, big, starts, mems, m, gs, k,
        bound, floor);
      mem := Some(taken);
      ghost var filled, before := mems, added';
      starts, mems := starts + [m], mems + [taken];
      i := i + 1;
      if big(taken) {
        added', tables', nextFile', levels' := RecoverTable(taken, added', tables', nextFile', sizeOf, base, levels',
          first, gs, k + m, k + i, bound, horizon);
        mem, m := None, i;
      }
      closes := MakesNext(added, before, added', i - 1, big, filled, closes, taken);
    }
    ghost var before := added';
    if mem.Some? {
      added', tables', nextFile', levels' := RecoverTable(mem.value, added', tables', nextFile', sizeOf, base, levels',
        first, gs, k + m, k + i, bound, horizon);
    }
    closes := MakesLast(added, before, added', i, big, mems, closes);
    assert records[..|records|] == records;
  }

  lemma SameSlice(records: seq<Group>, gs: seq<Group>, k: nat, m: nat, n: nat)
    requires k + |records| <= |gs| && records == gs[k..k + |records|] && m <= n <= |records|
    ensures records[m..n] == gs[k + m..k + n]
  {
    forall i | 0 <= i < n - m
      ensures records[m..n][i] == gs[k + m..k + n][i]
    {
      assert records[m + i] == gs[k..k + |records|][m + i];
    }
  }

  lemma NothingYet(records: seq<Group>, big: seq<Entry> -> bool, added: seq<File>, maxSequence: int)
    ensures Fills(records, 0, big, [], []) && Makes(added, added, 0, big, [], [], false)
    ensures LeastAbove(maxSequence, maxSequence, records[..0])
  {
  }

  lemma MemStarts(gs: seq<Group>, k: nat)
    requires k <= |gs|
    ensures Holding([], AllEntries(gs[k..k])) && Sorted([])
  {
    assert gs[k..k] == [];
  }

  lemma NextGroup(gs: seq<Group>, m: nat, n: nat, bound: nat)
    requires m <= n < |gs| && Ordered(gs, bound + 1)
    requires forall e :: e in AllEntries(gs[..n]) ==> e.key.sequence < gs[n].first
    ensures AllEntries(gs[m..n + 1]) == AllEntries(gs[m..n]) + Entries(gs[n], |gs[n].ops|)
    ensures forall e :: e in AllEntries(gs[m..n]) ==> e.key.sequence < gs[n].first
  {
    hide Ordered, Entries, Distinct;
    assert gs[m..n + 1][..n - m] == gs[m..n];
    OrderedSplits(gs, bound + 1, n);
    OrderedSplits(gs[..n], bound + 1, m);
    assert gs[..n][m..] == gs[m..n];
  }

  /** WriteLevel0Table during recovery: no base version, so the table goes to level 0. */
  method RecoverTable(mem: seq<Entry>, added: seq<File>, tables: map<nat, File>, nextFile: nat,
                      sizeOf: seq<Entry> -> nat,
                      ghost base: Levels, ghost levels: Levels, ghost first: nat, ghost gs: seq<Group>, ghost k: nat,
                        ghost n: nat,
                      ghost bound: nat, ghost horizon: nat)
    returns (added': seq<File>, tables': map<nat, File>, nextFile': nat, ghost levels': Levels)
    requires Restored(base, levels, added, tables, first, nextFile, gs, k, bound, horizon)
    requires Ordered(gs, bound + 1) && k <= n <= |gs| && Sorted(mem) && Holding(mem, AllEntries(gs[k..n]))
    ensures Restored(base, levels', added', tables', first, nextFile', gs, n, bound, horizon)
    ensures nextFile' == nextFile + 1
    ensures Adds(added, added', mem)
    ensures if mem == [] then added' == added && tables' == tables else
              var f := L.TableOf(mem, nextFile, sizeOf(mem)); added' == added + [f] && tables' == tables[nextFile := f]
  {
    hide L.Inv, AllEntries, Ordered, Restored;
    nextFile' := nextFile + 1;
    if mem == [] {
      added', tables', levels' := added, tables, levels;
      assert AllEntries(gs[k..n]) == {};
      NothingRestored(base, levels, added, tables, first, nextFile, gs, k, n, bound, horizon, nextFile');
    } else {
      var f := L.TableOf(mem, nextFile, sizeOf(mem));
      levels' := TableRestored(base, levels, added, tables, first, nextFile, gs, k, n, bound, horizon, mem,
        sizeOf(mem));
      added', tables' := added + [f], tables[nextFile := f];
    }
  }

  // ---------- The new manifest ----------

  /** WriteSnapshot: one edit that adds every file of the version. */
  method WriteSnapshot(levels: Levels) returns (e: Edit)
    requires Shape(levels) && |levels| == NUM_LEVELS
    ensures e.deleted == {} && forall p :: p in e.added <==> p.0 < NUM_LEVELS && InLevel(levels, p.0, p.1)
    ensures forall a, b :: 0 <= a < b < |e.added| ==> e.added[a].1.number != e.added[b].1.number
  {
    hide FileOk, Apart;
    var added: seq<(nat, File)> := [];
    var l := 0;
    while l < NUM_LEVELS
      invariant 0 <= l <= NUM_LEVELS
      invariant forall p :: p in added <==> p.0 < l && InLevel(levels, p.0, p.1)
      invariant forall a, b :: 0 <= a < b < |added| ==> added[a].1.number != added[b].1.number
    {
      added := SnapshotLevel(levels, l, added);
      l := l + 1;
    }
    e := Edit({}, added);
  }

  method SnapshotLevel(levels: Levels, l: nat, added: seq<(nat, File)>) returns (added': seq<(nat, File)>)
    requires Shape(levels) && |levels| == NUM_LEVELS && l < NUM_LEVELS
    requires forall p :: p in added <==> p.0 < l && InLevel(levels, p.0, p.1)
    requires forall a, b :: 0 <= a < b < |added| ==> added[a].1.number != added[b].1.number
    ensures forall p :: p in added' <==> p.0 <= l && InLevel(levels, p.0, p.1)
    ensures forall a, b :: 0 <= a < b < |added'| ==> added'[a].1.number != added'[b].1.number
  {
    hide FileOk, Apart;
    added' := added;
    var i := 0;
    while i < |levels[l]|
      invariant 0 <= i <= |levels[l]|
      invariant forall p :: p in added' <==>
                  (p.0 < l && InLevel(levels, p.0, p.1)) || (p.0 == l && p.1 in levels[l][..i])
      invariant forall a, b :: 0 <= a < b < |added'| ==> added'[a].1.number != added'[b].1.number
    {
      var f := levels[l][i];
      NewInSnapshot(levels, l, i, added');
      assert levels[l][..i + 1] == levels[l][..i] + [f];
      added' := added' + [(l, f)];
      i := i + 1;
    }
    assert levels[l][..|levels[l]|] == levels[l];
  }

  lemma NewInSnapshot(levels: Levels, l: nat, i: nat, added: seq<(nat, File)>)
    requires Shape(levels) && l < |levels| == NUM_LEVELS && i < |levels[l]|
    requires forall p :: p in added <==> (p.0 < l && InLevel(levels, p.0, p.1)) || (p.0 == l && p.1 in levels[l][..i])
    ensures forall a :: 0 <= a < |added| ==> added[a].1.number != levels[l][i].number
  {
    hide FileOk, Apart;
    var f := levels[l][i];
    assert InLevel(levels, l, f);
    forall a | 0 <= a < |added|
      ensures added[a].1.number != f.number
    {
      var p := added[a];
      assert p in added;
      if p.0 == l {
        var j :| 0 <= j < i && levels[l][j] == p.1;
        assert BySmallest(levels[l][j], levels[l][i]);
        assert InLevel(levels, l, p.1);
      }
    }
  }

  /** The snapshot alone replays to the version. */
  lemma SnapshotReplays(levels: Levels, e: Edit, first: nat)
    requires Shape(levels) && |levels| == NUM_LEVELS && L.NumbersBelow(levels, first)
    requires e.deleted == {} && forall p :: p in e.added <==> p.0 < NUM_LEVELS && InLevel(levels, p.0, p.1)
    requires forall a, b :: 0 <= a < b < |e.added| ==> e.added[a].1.number != e.added[b].1.number
    ensures EditsFit([e]) && Replays([e], levels) && NumbersUsed([e], levels, [], first)
  {
    hide FileOk, Apart, SortedLevel;
    forall l | 0 <= l < NUM_LEVELS
      ensures NoReturn({}, [e], l, 1) && Elements(levels[l]) == StepwiseAt({}, [e], l, 1)
    {
      SnapshotLevelReplays(levels, e, l);
    }
    forall i | 0 <= i < |e.added|
      ensures e.added[i].0 < NUM_LEVELS
    {
      assert e.added[i] in e.added;
    }
    forall l, f | InLevel(levels, l, f)
      ensures AddedUpTo([e], f.number, l)
    {
    }
  }

  lemma SnapshotLevelReplays(levels: Levels, e: Edit, l: nat)
    requires l < |levels| == NUM_LEVELS
    requires e.deleted == {} && forall p :: p in e.added <==> p.0 < NUM_LEVELS && InLevel(levels, p.0, p.1)
    ensures NoReturn({}, [e], l, 1) && Elements(levels[l]) == StepwiseAt({}, [e], l, 1)
  {
    assert DeletedAt(e, l) == {};
    forall f
      ensures f in AddedAt(e.added, l) <==> f in levels[l]
    {
      if f in levels[l] {
        assert InLevel(levels, l, f) && (l, f) in e.added;
      }
    }
    assert StepwiseAt({}, [e], l, 0) == {};
    var st := ApplyAt(LevelState({}, {}), e, l);
    assert st == LevelState({}, AddedAt(e.added, l));
  }

  // ---------- Opening ----------

  /** How many groups are in the tables before the i-th live log is read. */
  ghost function Before(s: State, d: Disk, i: nat): nat {
    if i == 0 then s.flushed
    else if i == 1 && s.db.imm.Some? then s.flushed + |OldLeft(s, d)|
    else s.flushed + |OldLeft(s, d)| + |NewLeft(s, d)|
  }

  ghost function LiveLogs(s: State): seq<nat> {
    if s.db.imm.Some? then [s.previous, s.current] else [s.current]
  }

  /** The logs to recover: the live ones, and perhaps new ones that are empty. */
  ghost predicate LogList(s: State, d: Disk, ns: seq<nat>) {
    && |LiveLogs(s)| <= |ns| && ns[..|LiveLogs(s)|] == LiveLogs(s)
    && forall i :: |LiveLogs(s)| <= i < |ns| ==> ns[i] in d.logs && d.logs[ns[i]] == []
  }

  lemma LogsAre(s: State, d: Disk, ns: seq<nat>)
    requires Inv(s) && Image(s, d)
    requires Increasing(ns) && forall n :: n in ns <==> n in d.logs && n >= s.logNumber
    ensures LogList(s, d, ns)
    ensures forall n :: n in d.logs ==> exists i :: 0 <= i < |ns| && n <= ns[i]
  {
    hide Inv, Image, LiveLogs, Increasing;
    LiveLogsAre(s, d);
    var m := UpTo(ns, s.current);
    IncreasingUnique(ns[..m], LiveLogs(s));
    forall i | m <= i < |ns|
      ensures ns[i] in d.logs && d.logs[ns[i]] == []
    {
      assert ns[i] in ns;
    }
    assert s.current in ns;
    forall n | n in d.logs
      ensures exists i :: 0 <= i < |ns| && n <= ns[i]
    {
      var x := if n in ns then n else s.current;
      assert x in ns && n <= x;
    }
  }

  lemma LiveLogsAre(s: State, d: Disk)
    requires Inv(s) && Image(s, d)
    ensures s.logNumber <= s.current && s.current in d.logs && Increasing(LiveLogs(s))
    ensures forall n :: n in LiveLogs(s) <==> n in d.logs && s.logNumber <= n <= s.current
    ensures forall n :: n in d.logs && n > s.current ==> d.logs[n] == []
  {
    hide L.Inv, MemoryOk, TablesOk, BaseOk, ManifestOk, NumbersOk, PendingOk, FlushOk;
  }

  /** Where an increasing list passes a bound. */
  lemma UpTo(ns: seq<nat>, bound: nat) returns (m: nat)
    requires Increasing(ns)
    ensures m <= |ns| && Increasing(ns[..m])
    ensures forall n :: n in ns[..m] <==> n in ns && n <= bound
    ensures forall i :: m <= i < |ns| ==> ns[i] > bound
  {
    m := 0;
    while m < |ns| && ns[m] <= bound
      invariant m <= |ns| && forall i :: 0 <= i < m ==> ns[i] <= bound
    {
      m := m + 1;
    }
    forall n | n in ns && n <= bound
      ensures n in ns[..m]
    {
      var i :| 0 <= i < |ns| && ns[i] == n;
      assert i < m;
      assert ns[..m][i] == n;
    }
  }

  /** A strictly increasing list is determined by its elements. */
  lemma {:induction false} IncreasingUnique(a: seq<nat>, b: seq<nat>)
    requires Increasing(a) && Increasing(b) && forall n :: n in a <==> n in b
    ensures a == b
  {
    assert (a != [] ==> a[0] in b) && (b != [] ==> b[0] in a);
    if a != [] {
      IncreasingTail(a);
      IncreasingTail(b);
      assert a[0] == b[0];
      IncreasingUnique(a[1..], b[1..]);
      assert a == [a[0]] + a[1..] && b == [b[0]] + b[1..];
    }
  }

  lemma IncreasingTail(a: seq<nat>)
    requires Increasing(a) && a != []
    ensures Increasing(a[1..]) && forall n :: n in a[1..] <==> n in a && n != a[0]
    ensures forall n :: n in a ==> a[0] <= n
  {
    forall n
      ensures n in a[1..] <==> n in a && n != a[0]
    {
      if n in a && n != a[0] {
        var i :| 0 <= i < |a| && a[i] == n;
        assert a[1..][i - 1] == n;
      }
      if n in a[1..] {
        var i :| 0 <= i < |a| - 1 && a[1..][i] == n;
        assert a[i + 1] == n;
      }
    }
  }

  /** The i-th log holds the groups from Before(i) to Before(i + 1). */
  lemma LogHolds(s: State, d: Disk, ns: seq<nat>, i: nat, gs: seq<Group>)
    requires Inv(s) && Image(s, d) && LogList(s, d, ns) && i < |ns|
    requires s.flushed <= |s.groups| && gs == Surviving(s, d)
    ensures ns[i] in d.logs
    ensures Before(s, d, i) <= Before(s, d, i + 1) <= |gs|
    ensures d.logs[ns[i]] == gs[Before(s, d, i)..Before(s, d, i + 1)]
    ensures i + 1 >= |LiveLogs(s)| ==> Before(s, d, i + 1) == |gs|
  {
    hide Inv, Image;
    LiveLogsAre(s, d);
    var live := LiveLogs(s);
    if i < |live| {
      assert ns[i] == ns[..|live|][i] == live[i];
      assert live[i] in live;
    }
  }

  /** An upper bound for every sequence number in use. */
  ghost function Bound(s: State): nat {
    s.db.lastSequence + if s.inserting.Some? && s.groups != [] then |s.groups[|s.groups| - 1].ops| else 0
  }

  lemma BoundOk(s: State)
    requires L.Inv(s.db) && MemoryOk(s)
    ensures Ordered(s.groups, Bound(s) + 1) && Bound(s) < MAX_SEQUENCE
  {
    hide L.Inv, AllEntries, Holding;
    VolatileSorted(s.db);
    var n := |s.groups|;
    assert s.groups[..n] == s.groups;
  }

  lemma FlushedBelow(gs: seq<Group>, k: nat, floor: nat)
    requires k <= |gs| && Ordered(gs[..k], floor + 1)
    ensures SequencesUpTo(gs, k, 0, floor) && forall e :: e in AllEntries(gs[..k]) ==> e.key.sequence <= floor
  {
    hide Ordered, AllEntries;
    OrderedBelow(gs[..k], floor + 1);
    forall i | 0 <= i < k
      ensures gs[i].first + |gs[i].ops| - 1 <= floor
    {
      OrderedAt(gs[..k], floor + 1, i);
    }
  }

  /** The last numbers of the manifest, and the groups in its tables. */
  lemma NumbersAre(s: State) returns (k: Numbers)
    requires Inv(s)
    ensures Settled(s) != [] && Settled(s)[|Settled(s)| - 1].numbers == Some(k)
    ensures k.log == s.logNumber && s.db.horizon <= k.last <= s.db.lastSequence
            && L.NumbersBelow(s.db.levels, k.nextFile + 1)
    ensures s.flushed <= |s.groups| && Ordered(s.groups[..s.flushed], k.last + 1)
  {
    hide L.Inv, TablesOk, ManifestOk, PendingOk, FlushOk, LogsOk, Holding, Ordered, AllEntries;
    k := Settled(s)[|Settled(s)| - 1].numbers.value;
  }

  lemma BaseIs(s: State)
    requires Inv(s)
    ensures s.flushed <= |s.groups| && L.Inv(Base(s)) && L.Inv(s.db) && MemoryOk(s)
  {
    hide L.Inv, TablesOk, ManifestOk, NumbersOk, PendingOk, FlushOk, LogsOk, MemoryOk;
  }

  /** Leaving out groups in the middle leaves the others in order. */
  lemma {:induction false} OrderedWithout(gs: seq<Group>, end: nat, i: nat, j: nat, k: nat)
    requires Ordered(gs, end) && i <= j <= k <= |gs|
    ensures Ordered(gs[..i] + gs[j..k], end)
    decreases |gs|, 1
  {
    if j == k {
      OrderedSplits(gs, end, i);
      assert gs[..i] + gs[j..k] == gs[..i];
    } else if k < |gs| {
      OrderedSplits(gs, end, k);
      OrderedWithout(gs[..k], end, i, j, k);
      assert gs[..k][..i] == gs[..i] && gs[..k][j..k] == gs[j..k];
    } else {
      LastStays(gs, end, i, j);
      assert gs[j..k] == gs[j..];
    }
  }

  lemma {:induction false} LastStays(gs: seq<Group>, end: nat, i: nat, j: nat)
    requires Ordered(gs, end) && i <= j < |gs|
    ensures Ordered(gs[..i] + gs[j..], end)
    decreases |gs|, 0
  {
    var n := |gs| - 1;
    OrderedWithout(gs[..n], gs[n].first, i, j, n);
    var kept := gs[..i] + gs[j..];
    assert gs[..n][..i] == gs[..i] && gs[..n][j..n] == gs[j..n];
    assert kept[..|kept| - 1] == gs[..i] + gs[j..n];
  }

  /** What recovery starts from: the tables of the manifest. */
  lemma StartRestored(s: State, d: Disk, gs: seq<Group>, k: Numbers)
    requires Inv(s) && Image(s, d) && s.flushed <= |s.groups| && gs == Surviving(s, d)
    requires Settled(s) != [] && Settled(s)[|Settled(s)| - 1].numbers == Some(k)
    ensures Restored(s.db.levels, s.db.levels, [], d.tables, k.nextFile + 1, k.nextFile + 1, gs, s.flushed, Bound(s),
            s.db.horizon)
    ensures Ordered(gs, Bound(s) + 1) && Bound(s) < MAX_SEQUENCE && s.flushed <= |gs|
    ensures SequencesUpTo(gs, s.flushed, 0, k.last)
    ensures k.log == s.logNumber && s.db.horizon <= k.last <= Bound(s) && L.NumbersBelow(s.db.levels, k.nextFile + 1)
  {
    hide Inv, L.Inv, MemoryOk, Ordered, AllEntries, SequencesUpTo, L.NumbersBelow;
    BaseIs(s);
    BoundOk(s);
    SurvivingOrdered(s, d, Bound(s) + 1);
    var k' := NumbersAre(s);
    assert gs[..s.flushed] == s.groups[..s.flushed];
    FlushedBelow(gs, s.flushed, k.last);
    var b := Base(s);
    NumbersMayShrink(b, b.(lastSequence := Bound(s), nextFile := k.nextFile + 1));
  }

  lemma SurvivingOrdered(s: State, d: Disk, end: nat)
    requires Inv(s) && Image(s, d) && Ordered(s.groups, end) && s.flushed <= |s.groups|
    ensures Ordered(Surviving(s, d), end)
  {
    hide Inv, Image, Ordered, OldLeft, NewLeft;
    SurvivingAre(s, d);
    var f, w, p, c := s.flushed, s.switched, |OldLeft(s, d)|, |NewLeft(s, d)|;
    assert s.groups[..f] + s.groups[f..f + p] == s.groups[..f + p];
    OrderedWithout(s.groups, end, f + p, w, w + c);
  }

  /** The reopened database. */
  function Opened(db: L.State, disk: Disk, log: nat, gs: seq<Group>): State {
    State(db, disk, log, log, 0, gs, |gs|, |gs|, None, |gs|, {}, 0, 0, None, [], None, {}, {})
  }

  /** The image of a state, except that tables may be missing; those that are there are intact. */
  ghost predicate ImageButTables(s: State, d: Disk) {
    && d.manifest == Settled(s) && LogsSurvive(s, d.logs)
    && forall l, f :: InLevel(s.db.levels, l, f) && f.number in d.tables ==> TableLeft(d.tables, f)
  }

  lemma ManifestParts(s: State, d: Disk)
    requires Inv(s) && ImageButTables(s, d)
    ensures d.manifest != [] && d.manifest[|d.manifest| - 1].numbers.Some?
    ensures EditsFit(EditsOf(d.manifest)) && Replays(EditsOf(d.manifest), s.db.levels)
    ensures Shape(s.db.levels) && |s.db.levels| == NUM_LEVELS && forall l :: 0 <= l < NUM_LEVELS ==>
              SortedLevel(s.db.levels[l])
    ensures Image(s, d) <==> forall l, f :: InLevel(s.db.levels, l, f) ==> f.number in d.tables
    ensures s.current in d.logs
  {
    hide MemoryOk, TablesOk, PendingOk, FlushOk, LogsOk, BaseOk, EditsFit, Replays, Recency, SortedLevel, L.MemoryOk,
         L.ReadsOk, L.JobsOk;
  }

  lemma NumberUsed(base: Levels, levels: Levels, added: seq<File>, tables: map<nat, File>, first: nat, nextFile: nat,
                   gs: seq<Group>, k: nat, bound: nat, horizon: nat, nextFile': nat)
    requires Restored(base, levels, added, tables, first, nextFile, gs, k, bound, horizon) && nextFile <= nextFile'
    ensures Restored(base, levels, added, tables, first, nextFile', gs, k, bound, horizon)
  {
    hide L.Inv, AllEntries;
    var b := TablesOnly(levels, bound, nextFile, None, AllEntries(gs[..k]), horizon);
    VolatileSorted(b);
    NumbersMayGrow(b, b.(nextFile := nextFile'));
  }

  /** The recovered tables as one edit on top of a snapshot of the manifest's version: the
      new manifest replays to the recovered version. */
  method NewManifest(levels: Levels, added: seq<File>, nextFile: nat, last: nat, ghost all: Levels,
                     ghost tables: map<nat, File>,
                     ghost first: nat, ghost gs: seq<Group>, ghost k: nat, ghost bound: nat, ghost horizon: nat)
    returns (manifest: seq<ManifestRecord>, version: Levels)
    requires Restored(levels, all, added, tables, first, nextFile, gs, k, bound, horizon)
    requires Shape(levels) && |levels| == NUM_LEVELS && L.NumbersBelow(levels, first)
    ensures version == all && ManifestOk(manifest, all, [], nextFile + 1)
    ensures |manifest| == 2 && manifest[1].numbers == Some(Numbers(nextFile, nextFile + 1, last))
  {
    hide L.Inv, AllEntries, Shape, Replaced, EditsFit, Replays, NumbersUsed, L.NumbersBelow, Says, FreshThere;
    var snapshot := WriteSnapshot(levels);
    var edit := Edit({}, seq(|added|, i requires 0 <= i < |added| => (0, added[i])));
    AddedFit(levels, all, added, tables, first, nextFile, gs, k, bound, horizon, edit, snapshot);
    version := InstallEdit(levels, edit, -1, [], [], added);
    RestoredShape(levels, all, added, tables, first, nextFile, gs, k, bound, horizon);
    SameVersion(levels, all, added, version);
    manifest := [ManifestRecord(snapshot, None), ManifestRecord(edit, Some(Numbers(nextFile, nextFile + 1, last)))];
    SnapshotReplays(levels, snapshot, first);
    var c := Change(-1, [], [], added);
    EditReplays([snapshot], edit, levels, version, c);
    EditFits([snapshot], edit, levels, c);
    EditUses([snapshot], edit, levels, version, c, [], [], first, nextFile + 1);
    assert EditsOf(manifest) == [snapshot] + [edit];
  }

  lemma RestoredShape(base: Levels, levels: Levels, added: seq<File>, tables: map<nat, File>, first: nat, nextFile: nat,
                      gs: seq<Group>, k: nat, bound: nat, horizon: nat)
    requires Restored(base, levels, added, tables, first, nextFile, gs, k, bound, horizon)
    ensures Shape(levels) && |levels| == NUM_LEVELS && forall l :: 0 <= l < NUM_LEVELS ==> SortedLevel(levels[l])
  {
    hide L.Inv, AllEntries;
    VolatileSorted(TablesOnly(levels, bound, nextFile, None, AllEntries(gs[..k]), horizon));
  }

  lemma AddedFit(levels: Levels, all: Levels, added: seq<File>, tables: map<nat, File>, first: nat, nextFile: nat,
                 gs: seq<Group>, k: nat, bound: nat, horizon: nat, edit: Edit, snapshot: Edit)
    requires Restored(levels, all, added, tables, first, nextFile, gs, k, bound, horizon)
             && L.NumbersBelow(levels, first)
    requires edit == Edit({}, seq(|added|, i requires 0 <= i < |added| => (0, added[i])))
    requires forall p :: p in snapshot.added <==> p.0 < NUM_LEVELS && InLevel(levels, p.0, p.1)
    ensures Says(edit, -1, [], [], added) && FreshThere(levels, -1, added)
    ensures ChangeFits(levels, [snapshot], Change(-1, [], [], added)) && forall f :: f in added ==>
              f.number < nextFile + 1
  {
    hide L.Inv, AllEntries;
    forall f | f in added
      ensures first <= f.number < nextFile && AddedUpTo([snapshot], f.number, -1)
    {
      var i :| 0 <= i < |added| && added[i] == f;
      assert first <= added[i].number;
    }
  }

  lemma SameVersion(levels: Levels, all: Levels, added: seq<File>, version: Levels)
    requires |all| == NUM_LEVELS && forall l :: 0 <= l < NUM_LEVELS ==> SortedLevel(all[l])
    requires forall l, f :: InLevel(all, l, f) <==> InLevel(levels, l, f) || (l == 0 && f in added)
    requires Replaced(levels, version, -1, [], [], added)
    ensures version == all
  {
    hide SortedLevel;
    forall l | 0 <= l < NUM_LEVELS
      ensures version[l] == all[l]
    {
      forall f
        ensures f in Elements(version[l]) <==> f in Elements(all[l])
      {
        assert InLevel(version, l, f) <==> InLevel(all, l, f);
        MemberOf(version[l], f);
        MemberOf(all[l], f);
      }
      SortedUnique(version[l], all[l]);
    }
  }

  lemma {:induction false} OrderedTo(gs: seq<Group>, end: nat, last: nat)
    requires Ordered(gs, end) && forall i :: 0 <= i < |gs| ==> gs[i].first + |gs[i].ops| <= last + 1
    ensures Ordered(gs, last + 1)
  {
    if gs != [] {
      assert gs[|gs| - 1].first + |gs[|gs| - 1].ops| <= last + 1;
    }
  }

  /** The reopened database keeps every invariant. */
  lemma OpenedInv(base: Levels, all: Levels, added: seq<File>, tables: map<nat, File>, first: nat, nextFile: nat,
                  gs: seq<Group>, bound: nat, horizon: nat, last: nat, logs: map<nat, seq<Group>>,
                    manifest: seq<ManifestRecord>)
    returns (s: State)
    requires Restored(base, all, added, tables, first, nextFile, gs, |gs|, bound, horizon) && Ordered(gs, bound + 1)
    requires horizon <= last < MAX_SEQUENCE && SequencesUpTo(gs, |gs|, last, last)
    requires ManifestOk(manifest, all, [], nextFile + 1) && |manifest| == 2
             && manifest[1].numbers == Some(Numbers(nextFile, nextFile + 1, last))
    requires forall n :: n in logs ==> n < nextFile
    ensures s == Opened(TablesOnly(all, last, nextFile + 1, None, AllEntries(gs), horizon),
                        Disk(logs[nextFile := []], manifest, tables), nextFile, gs)
    ensures Inv(s)
  {
    hide L.Inv, AllEntries, Ordered, ManifestOk;
    assert gs[..|gs|] == gs;
    OrderedTo(gs, bound + 1, last);
    OrderedBelow(gs, last + 1);
    var b := TablesOnly(all, bound, nextFile, None, AllEntries(gs), horizon);
    VolatileSorted(b);
    var db := TablesOnly(all, last, nextFile + 1, None, AllEntries(gs), horizon);
    BelowMeans(all, nextFile);
    NumbersMayShrink(b, db);
    s := Opened(db, Disk(logs[nextFile := []], manifest, tables), nextFile, gs);
    assert gs[|gs|..] == [];
    NoEntries();
  }

  /** A safe group survives. */
  lemma SafeSurvives(s: State, d: Disk, i: nat)
    requires Inv(s) && Image(s, d) && s.flushed <= |s.groups| && i < |s.groups| && IsSafe(s, i)
    ensures s.groups[i] in Surviving(s, d)
  {
    hide Inv, Image, OldLeft, NewLeft, OldLost, NewLost;
    SurvivingAre(s, d);
    var gs, f, w, p, c := s.groups, s.flushed, s.switched, |OldLeft(s, d)|, |NewLeft(s, d)|;
    if i < f {
      assert gs[..f][i] == gs[i];
    } else if i < w {
      assert gs[f..f + p][i - f] == gs[i];
    } else {
      assert gs[w..w + c][i - w] == gs[i];
    }
  }

  /** Groups that were to be synced survive once they are complete. */
  lemma SyncedSurvive(s: State, d: Disk)
    requires Inv(s) && Image(s, d) && s.flushed <= |s.groups|
    ensures s.acked <= |s.groups|
    ensures forall i :: i in s.asked && i < s.acked ==> s.groups[i] in Surviving(s, d)
  {
    hide Inv, Image, IsSafe, Surviving;
    CompleteAreSafe(s);
    forall i | i in s.asked && i < s.acked
      ensures s.groups[i] in Surviving(s, d)
    {
      SafeSurvives(s, d, i);
    }
  }

  lemma CompleteAreSafe(s: State)
    requires Inv(s)
    ensures s.acked <= |s.groups| && forall i :: i in s.asked && i < s.acked ==> IsSafe(s, i)
  {
    hide L.Inv, TablesOk, BaseOk, ManifestOk, NumbersOk, PendingOk, FlushOk, Holding, Ordered, AllEntries, LogsOk,
         IsSafe;
  }

  /** With the older log whole the surviving groups are the first ones. */
  lemma WholeLogs(s: State, d: Disk)
    requires Inv(s) && Image(s, d) && s.flushed <= |s.groups|
    ensures OldLost(s, d) == [] ==> Surviving(s, d) <= s.groups
    ensures OldLost(s, d) == [] && NewLost(s, d) == [] ==> Surviving(s, d) == s.groups
  {
    hide Inv, Image, OldLeft, NewLeft, OldLost, NewLost;
    SurvivingAre(s, d);
    var f, w, p, c := s.flushed, s.switched, |OldLeft(s, d)|, |NewLeft(s, d)|;
    if OldLost(s, d) == [] {
      assert f + p == w;
      assert s.groups[..f] + s.groups[f..w] + s.groups[w..w + c] == s.groups[..w + c];
      assert s.groups[..|s.groups|] == s.groups;
    }
  }

  /** DB::Open on what a crash left.  It succeeds, the database is as good as before, and
      holds the groups that were in the tables and those left in the logs: among them every
      acknowledged one that was to be synced.  They are a prefix of the groups ever written
      if the older log lost nothing, and all of them if the newer one lost nothing either. */
  method Open(d: Disk, sizeOf: seq<Entry> -> nat, big: seq<Entry> -> bool, ghost s: State)
    returns (ok: bool, ghost reopened: State)
    requires Inv(s) && Crash(s, d)
    ensures ok && Inv(reopened)
    ensures var t := Recoverable(s, d);
            && t.groups == s.groups && t.flushed <= |s.groups| && reopened.groups == Surviving(t, d)
            && (OldLost(t, d) == [] ==> reopened.groups <= s.groups)
            && (OldLost(t, d) == [] && NewLost(t, d) == [] ==> reopened.groups == s.groups)
            && (IsPrefixOf(AllEntries(reopened.groups), s.groups) <==>
                  AllEntries(OldLost(t, d)) == {} || AllEntries(NewLeft(t, d)) == {})
    ensures reopened.flushed == reopened.acked == |reopened.groups| && reopened.inserting == None
    ensures s.acked <= |s.groups| && forall i :: i in s.asked && i < s.acked ==> s.groups[i] in reopened.groups
    ensures d.manifest != [] && d.manifest[|d.manifest| - 1].numbers.Some?
    ensures LeastAbove(reopened.db.lastSequence, d.manifest[|d.manifest| - 1].numbers.value.last,
                       OldLeft(Recoverable(s, d), d) + NewLeft(Recoverable(s, d), d))
    ensures reopened.disk.manifest != []
            && reopened.disk.manifest[|reopened.disk.manifest| - 1].numbers ==
               Some(Numbers(reopened.current, reopened.current + 1, reopened.db.lastSequence))
  {
    hide Inv, Crash, Image, Recoverable, OldLeft, NewLeft, OldLost, NewLost, Surviving, IsPrefixOf, AllEntries;
    CrashLeavesImage(s, d);
    ghost var t := Recoverable(s, d);
    ImageHasTables(t, d);
    ok, reopened := Recover(d, sizeOf, big, t);
    SyncedSurvive(t, d);
    WholeLogs(t, d);
    PrefixNeedsOldLog(t, d);
  }

  lemma ImageHasTables(s: State, d: Disk)
    requires Image(s, d)
    ensures ImageButTables(s, d) && forall l, f :: InLevel(s.db.levels, l, f) ==> f.number in d.tables
  {
  }

  /** DBImpl::Recover and the new manifest, on the image of a state; it fails exactly when a table
      of the version is missing. */
  method Recover(d: Disk, sizeOf: seq<Entry> -> nat, big: seq<Entry> -> bool, ghost s: State)
    returns (ok: bool, ghost reopened: State)
    requires Inv(s) && ImageButTables(s, d)
    ensures ok <==> forall l, f :: InLevel(s.db.levels, l, f) ==> f.number in d.tables
    ensures s.flushed <= |s.groups| && d.manifest != [] && d.manifest[|d.manifest| - 1].numbers.Some?
    ensures ok ==>
              && Inv(reopened) && reopened.groups == Surviving(s, d)
              && reopened.flushed == reopened.acked == |reopened.groups| && reopened.inserting == None
              && LeastAbove(reopened.db.lastSequence, d.manifest[|d.manifest| - 1].numbers.value.last,
                            OldLeft(s, d) + NewLeft(s, d))
              && reopened.disk.manifest != []
              && reopened.disk.manifest[|reopened.disk.manifest| - 1].numbers ==
                 Some(Numbers(reopened.current, reopened.current + 1, reopened.db.lastSequence))
  {
    hide Inv, L.Inv, AllEntries, Ordered, Restored, EditsFit, Replays, Shape, Replaced, SequencesUpTo, LogList,
         LogsSurvive, LiveLogs, OldLeft, NewLeft, LeastAbove;
    ManifestParts(s, d);
    FlushedWithin(s);
    var levels, numbers := ReplayManifest(d.manifest, s.db.levels);
    var present := TablesPresent(levels, d.tables);
    if !present {
      return false, s;
    }
    SurvivingAre(s, d);
    ghost var gs := Surviving(s, d);
    ghost var bound, horizon, floor := Bound(s), s.db.horizon, numbers.value.last;
    ghost var first := numbers.value.nextFile + 1;
    StartRestored(s, d, gs, numbers.value);
    var logs: seq<nat> := LogsToRecover(d.logs, numbers.value.log);
    LogsAre(s, d, logs);
    SomeLog(s, d, logs);
    var added, tables, nextFile, maxSequence;
    ghost var all;
    added, tables, nextFile, maxSequence, all :=
      RecoverLogs(d, logs, numbers.value.nextFile + 1, sizeOf, big, s, gs, bound, floor);
    var last: nat := if numbers.value.last < maxSequence then maxSequence else numbers.value.last;
    assert gs[s.flushed..] == OldLeft(s, d) + NewLeft(s, d);
    LargerOf(last, maxSequence, numbers.value.last, gs[s.flushed..]);
    var manifest, version := NewManifest(levels, added, nextFile, last, all, tables, first, gs, |gs|, bound, horizon);
    ok := true;
    reopened := OpenedInv(levels, all, added, tables, first, nextFile, gs, bound, horizon, last, d.logs, manifest) by {
      LastIsAbove(gs, maxSequence, floor, last);
    }
  }

  /** The loop over the logs. */
  method RecoverLogs(d: Disk, logs: seq<nat>, start: nat, sizeOf: seq<Entry> -> nat, big: seq<Entry> -> bool,
                     ghost s: State, ghost gs: seq<Group>, ghost bound: nat, ghost floor: int)
    returns (added: seq<File>, tables: map<nat, File>, nextFile: nat, maxSequence: int, ghost all: Levels)
    requires Inv(s) && Image(s, d) && LogList(s, d, logs) && logs != []
    requires s.flushed <= |s.groups| && gs == Surviving(s, d) && Ordered(gs, bound + 1)
    requires Restored(s.db.levels, s.db.levels, [], d.tables, start, start, gs, s.flushed, bound, s.db.horizon)
    requires SequencesUpTo(gs, s.flushed, 0, floor)
    ensures Restored(s.db.levels, all, added, tables, start, nextFile, gs, |gs|, bound, s.db.horizon)
    ensures SequencesUpTo(gs, |gs|, maxSequence, floor) && LeastAbove(maxSequence, 0, gs[s.flushed..])
    ensures 0 <= maxSequence <= bound && forall j :: 0 <= j < |logs| ==> logs[j] < nextFile
  {
    hide Inv, Image, L.Inv, AllEntries, Ordered, Restored, SequencesUpTo, LogList, LiveLogs, OldLeft, NewLeft,
         LeastAbove, Surviving;
    added, tables, nextFile, maxSequence, all := [], d.tables, start, 0, s.db.levels;
    LogHolds(s, d, logs, 0, gs);
    NothingRead(gs, s.flushed);
    var i := 0;
    while i < |logs|
      invariant 0 <= i <= |logs| && s.flushed <= Before(s, d, i) <= |gs|
      invariant Restored(s.db.levels, all, added, tables, start, nextFile, gs, Before(s, d, i), bound, s.db.horizon)
      invariant SequencesUpTo(gs, Before(s, d, i), maxSequence, floor) && 0 <= maxSequence <= bound
      invariant LeastAbove(maxSequence, 0, gs[s.flushed..Before(s, d, i)])
      invariant forall j :: 0 <= j < i ==> logs[j] < nextFile
    {
      LogHolds(s, d, logs, i, gs);
      ghost var before, read := maxSequence, gs[s.flushed..Before(s, d, i)];
      ghost var starts, mems, closes;
      added, tables, nextFile, maxSequence, all, starts, mems, closes :=
        RecoverLogFile(d.logs[logs[i]], added, tables, nextFile, maxSequence, sizeOf, big,
                       s.db.levels, all, start, gs, Before(s, d, i), bound, s.db.horizon, floor);
      LeastAboveMore(before, 0, read, maxSequence, d.logs[logs[i]]);
      assert read + d.logs[logs[i]] == gs[s.flushed..Before(s, d, i + 1)];
      if nextFile <= logs[i] {
        NumberUsed(s.db.levels, all, added, tables, start, nextFile, gs, Before(s, d, i + 1), bound, s.db.horizon,
                   logs[i] + 1);
        nextFile := logs[i] + 1;
      }
      i := i + 1;
    }
    SomeLog(s, d, logs);
    LogHolds(s, d, logs, |logs| - 1, gs);
    WholeRest(gs, s.flushed);
  }

  lemma WholeRest(gs: seq<Group>, k: nat)
    requires k <= |gs|
    ensures gs[k..|gs|] == gs[k..]
  {
  }

  lemma LargerOf(last: int, max: int, floor: nat, gs: seq<Group>)
    requires LeastAbove(max, 0, gs) && last == if floor < max then max else floor
    ensures LeastAbove(last, floor, gs)
  {
  }

  lemma NothingRead(gs: seq<Group>, k: nat)
    requires k <= |gs|
    ensures LeastAbove(0, 0, gs[k..k])
  {
  }

  lemma FlushedWithin(s: State)
    requires Inv(s)
    ensures s.flushed <= |s.groups|
  {
    hide L.Inv, TablesOk, BaseOk, ManifestOk, NumbersOk, PendingOk, FlushOk, LogsOk, SyncOk, Holding, Ordered,
         AllEntries;
  }

  lemma SomeLog(s: State, d: Disk, ns: seq<nat>)
    requires LogList(s, d, ns)
    ensures 0 < |LiveLogs(s)| <= |ns|
  {
  }

  lemma LastIsAbove(gs: seq<Group>, max: int, floor: int, last: nat)
    requires SequencesUpTo(gs, |gs|, max, floor) && max <= last && floor <= last
    ensures SequencesUpTo(gs, |gs|, last, last)
  {
  }

  // ---------- What the theorem covers ----------

  /** Recovery itself may be interrupted.  Until the new manifest is named current it only
      writes tables, under numbers the manifest does not use, and the new log: the next
      recovery finds what a crash may leave, of a state with the same groups. */
  lemma InterruptedRecovery(s: State, d: Disk, tables: map<nat, File>, newLog: Option<nat>)
    requires Inv(s) && Crash(s, d)
    requires d.manifest != [] && d.manifest[|d.manifest| - 1].numbers.Some?
    requires forall n :: n in tables ==> n > d.manifest[|d.manifest| - 1].numbers.value.nextFile
    requires newLog.Some? ==> forall n :: n in d.logs ==> n < newLog.value
    ensures var t := Recoverable(s, d);
            var logs := if newLog.Some? then d.logs[newLog.value := []] else d.logs;
            var d' := Disk(logs, d.manifest, d.tables + tables);
            && Inv(t) && Crash(t, d') && Recoverable(t, d') == t
            && t.groups == s.groups && t.acked == s.acked && t.asked == s.asked
            && t.flushed <= |t.groups| && Surviving(t, d') == Surviving(t, d)
  {
    hide Inv, L.Inv, L.NumbersBelow;
    CrashLeavesImage(s, d);
    var t := Recoverable(s, d);
    var k := NumbersAre(t);
    BelowMeans(t.db.levels, k.nextFile + 1);
  }

  /** The map that the first groups leave behind. */
  function MapAfter(gs: seq<Group>): map<UserKey, string> {
    if gs == [] then map[] else ApplyOps(MapAfter(gs[..|gs| - 1]), gs[|gs| - 1].ops)
  }

  lemma {:induction false} GroupReads(E: set<Entry>, m: map<UserKey, string>, g: Group, i: nat, k: UserKey, t: nat)
    requires i <= |g.ops| && g.first + i <= t + 1 && Distinct(E) && forall e :: e in E ==> e.key.sequence < g.first
    requires Read(E, k, t) == L.Lookup(m, k)
    ensures Read(E + Entries(g, i), k, t) == L.Lookup(ApplyOps(m, g.ops[..i]), k)
    ensures Distinct(E + Entries(g, i))
  {
    hide Read;
    if i == 0 {
      assert E + Entries(g, 0) == E;
    } else {
      GroupReads(E, m, g, i - 1, k, t);
      var F, e := E + Entries(g, i - 1), EntryOf(g, i - 1);
      assert E + Entries(g, i) == F + {e};
      L.InsertReads(F, e, k, t);
      assert g.ops[..i][..i - 1] == g.ops[..i - 1];
    }
  }

  /** Reading the entries of a list of groups at or after the last one gives the map they
      leave behind.  With Open: a reopened database shows exactly the surviving groups. */
  lemma {:induction false} GroupsRead(gs: seq<Group>, end: nat, k: UserKey, t: nat)
    requires Ordered(gs, end) && end <= t + 1
    ensures Read(AllEntries(gs), k, t) == L.Lookup(MapAfter(gs), k)
  {
    hide Read;
    if gs == [] {
      ReadNothing({}, k, t);
    } else {
      var n := |gs| - 1;
      var g := gs[n];
      GroupsRead(gs[..n], g.first, k, t);
      OrderedBelow(gs[..n], g.first);
      assert g.ops[..|g.ops|] == g.ops;
      GroupReads(AllEntries(gs[..n]), MapAfter(gs[..n]), g, |g.ops|, k, t);
    }
  }

  /** The reopened database answers every read like the map after the surviving groups. */
  lemma ReopenedReads(s: State, k: UserKey)
    requires Inv(s) && s.inserting.None? && s.flushed == |s.groups|
    ensures Read(L.Stored(s.db), k, s.db.lastSequence) == L.Lookup(MapAfter(s.groups), k)
    ensures forall e :: e in AllEntries(s.groups) ==> e.key.sequence <= s.db.lastSequence
  {
    hide Read, AllEntries, Ordered, MapAfter, TablesOk, LogsOk, ManifestOk, NumbersOk, PendingOk, FlushOk, Shape,
         Recency, L.JobsOk, L.MemoryOk;
    assert s.groups[..|s.groups|] == s.groups && s.groups[|s.groups|..] == [];
    OrderedBelow(s.groups, s.db.lastSequence + 1);
    GroupsRead(s.groups, s.db.lastSequence + 1, k, s.db.lastSequence);
    TablesHoldAll(s);
  }

  lemma TablesHoldAll(s: State)
    requires Inv(s) && s.inserting.None? && s.flushed == |s.groups|
    ensures forall k :: Read(L.Stored(s.db), k, s.db.lastSequence) == Read(AllEntries(s.groups), k, s.db.lastSequence)
  {
    hide Read, AllEntries, Ordered, TablesOk, LogsOk, ManifestOk, NumbersOk, PendingOk, FlushOk, L.Inv;
    assert s.groups[..|s.groups|] == s.groups && s.groups[|s.groups|..] == [];
    var b := Base(s);
    StoredInTables(b);
    BaseReads(b);
    MemoryIsEmpty(s);
    assert L.Stored(s.db) == L.Stored(b) by { SameStored(s, b); }
  }

  lemma BaseReads(b: L.State)
    requires L.Inv(b)
    ensures forall k, t :: t >= b.lastSequence ==> Read(b.history, k, t) == Read(L.Stored(b), k, t)
  {
    hide Read, Shape, Recency;
  }

  lemma MemoryIsEmpty(s: State)
    requires MemoryOk(s) && s.inserting.None? && s.flushed == |s.groups|
    ensures s.db.mem == [] && (s.db.imm.Some? ==> s.db.imm.value == [])
  {
    NoEntries();
    assert s.groups[|s.groups|..] == [] && s.groups[|s.groups|..|s.groups|] == [];
    HoldsNothing(s.db.mem);
    if s.db.imm.Some? {
      HoldsNothing(s.db.imm.value);
    }
  }

  lemma HoldsNothing(es: seq<Entry>)
    requires Holding(es, {})
    ensures es == []
  {
    EntrySetEmpty(es);
    assert EntrySet(es) == {};
  }

  lemma EntrySetEmpty(es: seq<Entry>)
    ensures EntrySet(es) == {} <==> es == []
  {
    if es != [] {
      assert es[0] in EntrySet(es);
    }
  }

  lemma SameStored(s: State, b: L.State)
    requires Inv(s) && s.db.mem == [] && (s.db.imm.Some? ==> s.db.imm.value == []) && s.flushed <= |s.groups|
             && b == Base(s)
    requires forall e :: e in L.Stored(b) <==> Holds(b.levels, e)
    ensures L.Stored(s.db) == L.Stored(b)
  {
    hide Read, AllEntries, Ordered, TablesOk, LogsOk, ManifestOk, NumbersOk, PendingOk, FlushOk, MemoryOk, Shape,
         Recency, L.JobsOk, L.ReadsOk, BaseOk;
    forall e
      ensures e in L.Stored(s.db) <==> Holds(s.db.levels, e)
    {
      assert Holds(s.db.levels, e) ==> L.IsStored(s.db.mem, s.db.imm, s.db.levels, e);
    }
  }

  /** If the machine fails, not only the process, the older of two logs may lose its end: it is
      not synced before the newer one is written.  What recovery then has is what some prefix
      of the groups wrote exactly when nothing was written in the lost end of the older log,
      or nothing in what is left of the newer one. */
  lemma PrefixNeedsOldLog(s: State, d: Disk)
    requires Inv(s) && Image(s, d) && s.flushed <= |s.groups|
    ensures IsPrefixOf(AllEntries(Surviving(s, d)), s.groups) <==>
            AllEntries(OldLost(s, d)) == {} || AllEntries(NewLeft(s, d)) == {}
  {
    hide Inv, Image, L.Inv, MemoryOk, Ordered, AllEntries, IsPrefixOf, OldLeft, NewLeft, OldLost, NewLost;
    BaseIs(s);
    BoundOk(s);
    SurvivingAre(s, d);
    var gs, f, w, p, c := s.groups, s.flushed, s.switched, |OldLeft(s, d)|, |NewLeft(s, d)|;
    LostEnd(gs, Bound(s) + 1, f + p, w, w + c);
    assert gs[..f] + gs[f..f + p] == gs[..f + p];
  }

  ghost predicate IsPrefixOf(E: set<Entry>, gs: seq<Group>) {
    exists n: nat :: n <= |gs| && E == AllEntries(gs[..n])
  }

  lemma {:induction false} EntriesJoin(a: seq<Group>, b: seq<Group>)
    ensures AllEntries(a + b) == AllEntries(a) + AllEntries(b)
  {
    if b == [] {
      assert a + b == a;
    } else {
      var n := |b| - 1;
      EntriesJoin(a, b[..n]);
      assert (a + b)[..|a + b| - 1] == a + b[..n];
    }
  }

  /** The groups from i to j are lost, those from j to k are left. */
  lemma LostEnd(gs: seq<Group>, end: nat, i: nat, j: nat, k: nat)
    requires Ordered(gs, end) && i <= j <= k <= |gs|
    ensures IsPrefixOf(AllEntries(gs[..i] + gs[j..k]), gs) <==> AllEntries(gs[i..j]) == {} || AllEntries(gs[j..k]) == {}
  {
    hide Ordered, AllEntries;
    var kept := AllEntries(gs[..i] + gs[j..k]);
    EntriesJoin(gs[..i], gs[j..k]);
    if AllEntries(gs[i..j]) == {} {
      EntriesJoin(gs[..i], gs[i..j]);
      EntriesJoin(gs[..j], gs[j..k]);
      assert gs[..i] + gs[i..j] == gs[..j] && gs[..j] + gs[j..k] == gs[..k];
      assert kept == AllEntries(gs[..k]);
    } else if AllEntries(gs[j..k]) == {} {
      assert kept == AllEntries(gs[..i]);
    } else {
      var x :| x in AllEntries(gs[i..j]);
      var y :| y in AllEntries(gs[j..k]);
      forall n: nat | n <= |gs|
        ensures kept != AllEntries(gs[..n])
      {
        NoPrefix(gs, end, i, j, k, n, x, y);
      }
    }
  }

  /** A prefix that has y has x too, but x was lost. */
  lemma NoPrefix(gs: seq<Group>, end: nat, i: nat, j: nat, k: nat, n: nat, x: Entry, y: Entry)
    requires Ordered(gs, end) && i <= j <= k <= |gs| && n <= |gs|
    requires x in AllEntries(gs[i..j]) && y in AllEntries(gs[j..k])
    ensures AllEntries(gs[..i]) + AllEntries(gs[j..k]) != AllEntries(gs[..n])
  {
    hide Ordered, AllEntries;
    var m := if n < j then n else j;
    EntriesJoin(gs[i..j], gs[j..]);
    EntriesJoin(gs[j..k], gs[k..]);
    EntriesJoin(gs[m..j], gs[j..]);
    assert gs[i..j] + gs[j..] == gs[i..] && gs[j..k] + gs[k..] == gs[j..] && gs[m..j] + gs[j..] == gs[m..];
    OrderedSplits(gs, end, i);
    OrderedSplits(gs, end, j);
    OrderedSplits(gs, end, m);
    if n >= j {
      EntriesJoin(gs[..i], gs[i..j]);
      EntriesJoin(gs[..j], gs[j..n]);
      assert gs[..i] + gs[i..j] == gs[..j] && gs[..j] + gs[j..n] == gs[..n];
      Behind(gs, end, i, j, x);
      assert x in AllEntries(gs[..n]) && x !in AllEntries(gs[..i]) + AllEntries(gs[j..k]);
    } else {
      assert y in AllEntries(gs[n..]) && y !in AllEntries(gs[..n]);
    }
  }

  /** An entry of the groups from i to j is in no group before or after them. */
  lemma Behind(gs: seq<Group>, end: nat, i: nat, j: nat, x: Entry)
    requires Ordered(gs, end) && i <= j <= |gs| && x in AllEntries(gs[i..j])
    ensures x !in AllEntries(gs[..i]) && x !in AllEntries(gs[j..])
  {
    hide Ordered, AllEntries;
    EntriesJoin(gs[i..j], gs[j..]);
    EntriesJoin(gs[..i], gs[i..j]);
    assert gs[i..j] + gs[j..] == gs[i..] && gs[..i] + gs[i..j] == gs[..j];
    OrderedSplits(gs, end, i);
    OrderedSplits(gs, end, j);
  }
}
