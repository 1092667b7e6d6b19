/** What a synced write says about the writes before it. */
module SyncPromise {
  import opened Options
  import opened InternalKeys
  import opened Batches
  import opened Versions
  import opened VersionChanges
  import opened VersionSets
  import opened Durable
  import opened CrashProtocol
  import opened CrashSafety
  import opened Recovery
  import L = Lsm

  /** The older log has entries behind its synced part, and no record that is sure to survive
      has made that log obsolete. */
  ghost predicate Exposed(s: State) {
    && s.db.imm.Some? && !(s.pending.Some? && s.pending.value.synced && s.pending.value.action.Flush?)
    && s.flushed + s.oldSynced <= s.switched <= |s.groups|
    && AllEntries(s.groups[s.flushed + s.oldSynced..s.switched]) != {}
  }

  /** All that was written up to group j is there after the crash. */
  ghost predicate KeepsUpTo(s: State, d: Disk, j: nat) {
    var t := Recoverable(s, d);
    t.flushed <= |t.groups| && j < |s.groups| && AllEntries(s.groups[..j + 1]) <= AllEntries(Surviving(t, d))
  }

  /** After a crash a bulk load may be restarted just after its last synchronous write, says the
      documentation.  That is so for every crash exactly when this write is not in the newer of
      two logs, or the older one is not exposed. */
  lemma SyncCoversEarlier(s: State, j: nat)
    requires Inv(s) && j in s.asked && j < s.acked
    ensures (forall d :: Crash(s, d) ==> KeepsUpTo(s, d, j)) <==> j < s.switched || !Exposed(s)
  {
    hide Inv, Crash, KeepsUpTo, AllEntries;
    CompleteAreSafe(s);
    if j < s.switched || !Exposed(s) {
      forall d | Crash(s, d)
        ensures KeepsUpTo(s, d, j)
      {
        EarlierSurvive(s, d, j);
      }
    } else {
      var d := LosingCrash(s);
      EarlierLost(s, d, j);
    }
  }

  lemma {:induction false} PrefixEntries(gs: seq<Group>, m: nat, n: nat)
    requires m <= n <= |gs|
    ensures AllEntries(gs[..m]) <= AllEntries(gs[..n])
  {
    hide AllEntries;
    EntriesJoin(gs[..m], gs[m..n]);
    assert gs[..m] + gs[m..n] == gs[..n];
  }

  lemma NothingLost(gs: seq<Group>, i: nat, p: nat, w: nat)
    requires i <= p <= w <= |gs| && AllEntries(gs[i..w]) == {}
    ensures AllEntries(gs[p..w]) == {}
  {
    hide AllEntries;
    EntriesJoin(gs[i..p], gs[p..w]);
    assert gs[i..p] + gs[p..w] == gs[i..w];
  }

  /** What the surviving groups hold, when nothing was written in those that are lost. */
  lemma AllButLost(gs: seq<Group>, f: nat, p: nat, w: nat, c: nat)
    requires f <= p <= w <= w + c <= |gs|
    ensures AllEntries(gs[..p]) <= AllEntries(gs[..f] + gs[f..p] + gs[w..w + c])
    ensures AllEntries(gs[p..w]) == {} ==>
              AllEntries(gs[..w + c]) == AllEntries(gs[..f] + gs[f..p] + gs[w..w + c])
  {
    hide AllEntries;
    assert gs[..f] + gs[f..p] == gs[..p];
    EntriesJoin(gs[..p], gs[w..w + c]);
    EntriesJoin(gs[..p], gs[p..w]);
    EntriesJoin(gs[..w], gs[w..w + c]);
    assert gs[..p] + gs[p..w] == gs[..w] && gs[..w] + gs[w..w + c] == gs[..w + c];
  }

  lemma ImageKeeps(t: State, d: Disk, j: nat)
    requires Inv(t) && Image(t, d) && j in t.asked && j < t.acked && t.flushed <= |t.groups|
    requires j < t.switched || t.db.imm.None? ||
               (t.flushed + t.oldSynced <= t.switched <= |t.groups|
                && AllEntries(t.groups[t.flushed + t.oldSynced..t.switched]) == {})
    ensures j < |t.groups| && AllEntries(t.groups[..j + 1]) <= AllEntries(Surviving(t, d))
  {
    hide Inv, Image, AllEntries, OldLeft, NewLeft, OldLost, NewLost;
    CompleteAreSafe(t);
    SurvivingAre(t, d);
    var gs, f, w, p, c := t.groups, t.flushed, t.switched, t.flushed + |OldLeft(t, d)|, |NewLeft(t, d)|;
    AllButLost(gs, f, p, w, c);
    if j < w {
      PrefixEntries(gs, j + 1, p);
    } else {
      if t.db.imm.Some? {
        NothingLost(gs, f + t.oldSynced, p, w);
      } else {
        assert gs[p..w] == [];
        NoEntries();
      }
      PrefixEntries(gs, j + 1, w + c);
    }
  }

  /** Where the manifest leads, seen from the state at the crash. */
  lemma RecoverableIs(s: State, d: Disk)
    requires Inv(s) && Crash(s, d)
    ensures var t := Recoverable(s, d);
            && (t.db.imm.Some? ==> t.flushed == s.flushed && t.previous == s.previous && s.db.imm.Some?
                                   && !(s.pending.Some? && s.pending.value.synced && s.pending.value.action.Flush?))
            && (!(s.pending.Some? && s.pending.value.action.Flush? && d.manifest == s.disk.manifest) ==>
                  t.db.imm == s.db.imm && t.flushed == s.flushed && t.previous == s.previous)
  {
    hide L.Inv, MemoryOk, SyncOk, TablesOk, BaseOk, ManifestOk, NumbersOk, LogsOk, FlushOk, LogsSurvive, L.Step;
  }

  lemma EarlierSurvive(s: State, d: Disk, j: nat)
    requires Inv(s) && Crash(s, d) && j in s.asked && j < s.acked && (j < s.switched || !Exposed(s))
    ensures KeepsUpTo(s, d, j)
  {
    hide Inv, Crash, Recoverable, AllEntries, Surviving;
    CrashLeavesImage(s, d);
    RecoverableIs(s, d);
    var t := Recoverable(s, d);
    SurvivingAre(t, d);
    CompleteAreSafe(t);
    SyncedIsThere(t);
    ImageKeeps(t, d, j);
  }

  lemma SyncedIsThere(s: State)
    requires Inv(s)
    ensures s.flushed <= s.switched <= |s.groups| && (s.db.imm.Some? ==> s.flushed + s.oldSynced <= s.switched)
  {
    hide L.Inv, TablesOk, BaseOk, ManifestOk, NumbersOk, PendingOk, FlushOk, LogsOk, Holding, Ordered, AllEntries;
  }

  /** The crash that keeps of the older log only what was synced. */
  lemma LosingCrash(s: State) returns (d: Disk)
    requires Inv(s) && s.db.imm.Some?
    ensures Crash(s, d) && s.current in d.logs && s.current in s.disk.logs
            && d.logs[s.current] == s.disk.logs[s.current]
    ensures s.previous in s.disk.logs && s.oldSynced <= |s.disk.logs[s.previous]|
            && s.previous in d.logs && d.logs[s.previous] == s.disk.logs[s.previous][..s.oldSynced]
    ensures s.pending.Some? && !s.pending.value.synced ==> d.manifest == Settled(s) && d.manifest != s.disk.manifest
  {
    hide L.Inv, TablesOk, BaseOk, ManifestOk, NumbersOk, FlushOk, Holding, Ordered, AllEntries, ChangeOf, L.Step, After,
         Says, Replaced, L.NumbersBelow;
    if s.pending.Some? {
      AddedAreOnDisk(s);
    }
    NeededAreOnDisk(s);
    var lost := s.disk.logs[s.previous := s.disk.logs[s.previous][..s.oldSynced]];
    var manifest := if s.pending.Some? && !s.pending.value.synced then Settled(s) else s.disk.manifest;
    d := Disk(lost, manifest, s.disk.tables);
  }

  lemma NeededAreOnDisk(s: State)
    requires Inv(s)
    ensures forall l, f :: InLevel(s.db.levels, l, f) ==> OnDisk(s.disk.tables, s.doomedTables, f)
  {
    hide L.Inv, BaseOk, ManifestOk, NumbersOk, FlushOk, MemoryOk, SyncOk, LogsOk, PendingOk, OnDisk;
  }

  /** What the older log lost was written before group j. */
  lemma EarlierLost(s: State, d: Disk, j: nat)
    requires Inv(s) && Crash(s, d) && Exposed(s) && s.switched <= j < |s.groups|
    requires s.previous in s.disk.logs && s.oldSynced <= |s.disk.logs[s.previous]| && s.previous in d.logs
    requires d.logs[s.previous] == s.disk.logs[s.previous][..s.oldSynced]
    requires s.pending.Some? && !s.pending.value.synced ==> d.manifest != s.disk.manifest
    ensures !KeepsUpTo(s, d, j)
  {
    hide Inv, Crash, Recoverable, AllEntries, OldLeft, NewLeft, OldLost, NewLost, Ordered, L.Inv, MemoryOk, Image;
    CrashLeavesImage(s, d);
    RecoverableIs(s, d);
    var t := Recoverable(s, d);
    SurvivingAre(t, d);
    BaseIs(s);
    BoundOk(s);
    OldLeftIs(t, d);
    LostBefore(s.groups, Bound(s) + 1, s.flushed, s.flushed + s.oldSynced, s.switched, |NewLeft(t, d)|, j);
  }

  lemma LostBefore(gs: seq<Group>, end: nat, f: nat, p: nat, w: nat, c: nat, j: nat)
    requires Ordered(gs, end) && f <= p <= w <= w + c <= |gs| && w <= j < |gs|
    requires AllEntries(gs[p..w]) != {}
    ensures !(AllEntries(gs[..j + 1]) <= AllEntries(gs[..f] + gs[f..p] + gs[w..w + c]))
  {
    hide Ordered, AllEntries;
    assert gs[..f] + gs[f..p] == gs[..p];
    var x :| x in AllEntries(gs[p..w]);
    Behind(gs, end, p, w, x);
    EntriesJoin(gs[..p], gs[w..w + c]);
    EntriesJoin(gs[w..w + c], gs[w + c..]);
    assert gs[w..w + c] + gs[w + c..] == gs[w..];
    EntriesJoin(gs[..p], gs[p..w]);
    assert gs[..p] + gs[p..w] == gs[..w];
    PrefixEntries(gs, w, j + 1);
  }

  lemma OldLeftIs(s: State, d: Disk)
    requires s.db.imm.Some? && s.previous in d.logs
    ensures OldLeft(s, d) == d.logs[s.previous]
  {
  }

  // ---------- A run that breaks the promise ----------

  function First(op: Op, n: nat): Entry { Entry(InternalKey(op.user, n, op.kind), op.value) }

  lemma InsertsFirst(db: L.State, op: Op, n: nat)
    requires db.mem == [] && db.lastSequence + 1 == n < MAX_SEQUENCE && db.pending == 0
    ensures var e := First(op, n);
            L.Step(db, db.(mem := [e], pending := 1, history := db.history + {e}), L.Insert(op.user, op.kind, op.value))
  {
    assert InsertEntry([], First(op, n)) == [First(op, n)];
  }

  /** One write of one operation: logged, synced if it is to be, inserted, published. */
  lemma WriteOne(s: State, op: Op, sync: bool) returns (s': State)
    requires Reachable(s) && s.inserting.None? && s.db.mem == [] && s.db.pending == 0
    requires s.db.lastSequence + 1 < MAX_SEQUENCE && s.switched == |s.groups|
    requires s.current in s.disk.logs && s.disk.logs[s.current] == []
    requires forall i :: i in s.asked ==> i < |s.groups|
    ensures Reachable(s')
    ensures var n := s.db.lastSequence + 1;
            s' == s.(disk := s.disk.(logs := s.disk.logs[s.current := [Group(n, [op])]]),
                     groups := s.groups + [Group(n, [op])], asked := if sync then s.asked + {|s.groups|} else s.asked,
                     synced := if sync then 1 else s.synced, acked := |s.groups| + 1,
                     db := s.db.(mem := [First(op, n)], history := s.db.history + {First(op, n)}, lastSequence := n))
  {
    hide Reachable, L.Step, Step;
    var n := s.db.lastSequence + 1;
    var g, e := Group(n, [op]), First(op, n);
    var a := s.(disk := s.disk.(logs := s.disk.logs[s.current := [g]]), groups := s.groups + [g], inserting := Some(0),
                asked := if sync then s.asked + {|s.groups|} else s.asked);
    AppendIs(s, a, op, sync);
    ReachesMore(s, a, Append([op], sync));
    if sync {
      var synced := a.(synced := 1);
      SyncIs(a, synced);
      ReachesMore(a, synced, SyncLog);
      a := synced;
    }
    var b := a.(db := a.db.(mem := [e], pending := 1, history := a.db.history + {e}), inserting := Some(1));
    InsertsFirst(a.db, op, n);
    assert Step(a, b, InsertNext) by { InsertIs(a, b, op); }
    ReachesMore(a, b, InsertNext);
    var c := b.(db := b.db.(lastSequence := n, pending := 0), inserting := None);
    PublishIs(b, c);
    ReachesMore(b, c, Publish);
    s' := c.(acked := |c.groups|);
    AcknowledgeIs(c, s');
    ReachesMore(c, s', Acknowledge);
  }

  lemma AppendIs(s: State, s': State, op: Op, sync: bool)
    requires s.inserting.None? && s.db.lastSequence + 1 < MAX_SEQUENCE
    requires s.current in s.disk.logs && s.disk.logs[s.current] == []
    requires var g := Group(s.db.lastSequence + 1, [op]);
             s' == s.(disk := s.disk.(logs := s.disk.logs[s.current := [g]]), groups := s.groups + [g],
                      inserting := Some(0), asked := if sync then s.asked + {|s.groups|} else s.asked)
    ensures Step(s, s', Append([op], sync))
  {
    var g := Group(s.db.lastSequence + 1, [op]);
    assert s.disk.logs[s.current] + [g] == [g];
  }

  lemma SyncIs(s: State, s': State)
    requires s.current in s.disk.logs && s' == s.(synced := |s.disk.logs[s.current]|)
    ensures Step(s, s', SyncLog)
  {
  }

  lemma InsertIs(s: State, s': State, op: Op)
    requires s.inserting == Some(0) && s.groups != [] && s.groups[|s.groups| - 1].ops == [op] && LastSynced(s)
    requires L.Step(s.db, s'.db, L.Insert(op.user, op.kind, op.value)) && s' == s.(db := s'.db, inserting := Some(1))
    ensures Step(s, s', InsertNext)
  {
    hide L.Step;
  }

  lemma PublishIs(s: State, s': State)
    requires s.inserting == Some(1) && s.groups != [] && |s.groups[|s.groups| - 1].ops| == 1 && LastSynced(s)
    requires s' == s.(db := s.db.(lastSequence := s.db.lastSequence + s.db.pending, pending := 0), inserting := None)
    ensures Step(s, s', Publish)
  {
  }

  lemma AcknowledgeIs(s: State, s': State)
    requires s.inserting.None? && s' == s.(acked := |s.groups|)
    ensures Step(s, s', Acknowledge)
  {
  }

  lemma StartIsReachable()
    ensures Reachable(START)
  {
    hide Step;
    assert Run([START], []);
  }

  /** Between two acknowledged writes, of which the second one is synchronous, the memtable is
      switched.  A crash may then leave the second write without the first one. */
  lemma SyncedWithoutEarlier(a: Op, b: Op) returns (s: State, d: Disk)
    ensures Reachable(s) && Crash(s, d) && Recoverable(s, d) == s && s.flushed == 0
    ensures s.groups == [Group(1, [a]), Group(2, [b])] && s.acked == 2 && s.asked == {1}
    ensures OldLost(s, d) == [Group(1, [a])] && NewLost(s, d) == [] && Surviving(s, d) == [Group(2, [b])]
  {
    hide Inv, Crash, Reachable, Step, L.Step, AllEntries;
    StartIsReachable();
    var s1 := WriteOne(START, a, false);
    var s2 := s1.(db := s1.db.(imm := Some(s1.db.mem), mem := [], nextFile := s1.db.nextFile + 1),
                  disk := s1.disk.(logs := s1.disk.logs[s1.db.nextFile := []]),
                  current := s1.db.nextFile, previous := s1.current, switched := |s1.groups|, synced := 0,
                  oldSynced := s1.synced);
    SwitchIs(s1, s2);
    ReachesMore(s1, s2, Switch);
    s := WriteOne(s2, b, true);
    ReachableInv(s);
    d := LosingCrash(s);
    assert s.disk.logs[s.current][1..] == [] && s.disk.logs[s.previous][..0] == [];
  }

  lemma SwitchIs(s: State, s': State)
    requires s.inserting.None? && s.db.imm.None?
    requires s' == s.(db := s.db.(imm := Some(s.db.mem), mem := [], nextFile := s.db.nextFile + 1),
                      disk := s.disk.(logs := s.disk.logs[s.db.nextFile := []]),
                      current := s.db.nextFile, previous := s.current, switched := |s.groups|, synced := 0,
                      oldSynced := s.synced)
    ensures Step(s, s', Switch)
  {
  }
}
