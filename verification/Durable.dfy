/** What the table files alone hold: the part of the database that needs no log. */
module Durable {
  import opened Options
  import opened InternalKeys
  import opened Batches
  import opened Files
  import opened Picking
  import opened Versions
  import opened VersionChanges
  import opened Lsm

  /** One log record: the operations of a group of writers, numbered from `first`. */
  datatype Group = Group(first: nat, ops: seq<Op>)

  function EntryOf(g: Group, i: nat): Entry
    requires i < |g.ops|
  {
    Entry(InternalKey(g.ops[i].user, g.first + i, g.ops[i].kind), g.ops[i].value)
  }

  /** The first n entries of a group. */
  ghost function Entries(g: Group, n: nat): set<Entry>
    requires n <= |g.ops|
  {
    set i | 0 <= i < n :: EntryOf(g, i)
  }

  ghost function AllEntries(gs: seq<Group>): set<Entry> {
    if gs == [] then {} else AllEntries(gs[..|gs| - 1]) + Entries(gs[|gs| - 1], |gs[|gs| - 1].ops|)
  }

  /** Groups number their operations upwards; `end` is beyond them all. */
  ghost predicate Ordered(gs: seq<Group>, end: nat) {
    if gs == [] then true else
      var g := gs[|gs| - 1];
      Ordered(gs[..|gs| - 1], g.first) && g.first + |g.ops| <= end
  }

  lemma {:induction false} OrderedBelow(gs: seq<Group>, end: nat)
    requires Ordered(gs, end)
    ensures forall e :: e in AllEntries(gs) ==> e.key.sequence < end
    ensures Distinct(AllEntries(gs))
  {
    if gs != [] {
      var n := |gs| - 1;
      OrderedBelow(gs[..n], gs[n].first);
    }
  }

  lemma {:induction false} OrderedSplits(gs: seq<Group>, end: nat, k: nat)
    requires Ordered(gs, end) && k <= |gs|
    ensures Ordered(gs[..k], end) && Ordered(gs[k..], end)
    ensures forall d, e :: d in AllEntries(gs[..k]) && e in AllEntries(gs[k..]) ==> d.key.sequence < e.key.sequence
    ensures AllEntries(gs) == AllEntries(gs[..k]) + AllEntries(gs[k..])
  {
    hide Distinct;
    if k == |gs| {
      assert gs[..k] == gs && gs[k..] == [];
    } else {
      var n := |gs| - 1;
      var front := gs[..n];
      OrderedSplits(front, gs[n].first, k);
      assert front[..k] == gs[..k] && front[k..] == gs[k..][..n - k];
      OrderedBelow(front[..k], gs[n].first);
    }
  }

  // ---------- The tables as a database of their own ----------

  /** A database that consists of table files only. */
  function TablesOnly(levels: Levels, last: nat, nextFile: nat, job: Option<Job>, history: set<Entry>,
                      horizon: nat): State {
    State([], None, levels, last, 0, nextFile, job, history, horizon)
  }

  lemma StoredInTables(s: State)
    requires Inv(s) && s.mem == [] && s.imm == None
    ensures forall e :: e in Stored(s) <==> Holds(s.levels, e)
  {
    hide Read, Shape, Recency, JobOk, ReadsOk, HistoryOk;
    forall e
      ensures e in Stored(s) <==> Holds(s.levels, e)
    {
      assert Holds(s.levels, e) ==> IsStored(s.mem, s.imm, s.levels, e);
    }
  }

  /** Newer entries added on both sides leave reads in agreement. */
  lemma NewerAgree(E: set<Entry>, F: set<Entry>, N: set<Entry>, k: UserKey, t: nat)
    requires Distinct(E + N) && F <= E
    requires forall d, e :: d in E && e in N && d.key.user == e.key.user ==> d.key.sequence < e.key.sequence
    requires Read(E, k, t) == Read(F, k, t)
    ensures Read(E + N, k, t) == Read(F + N, k, t)
  {
    NewestExists(N, k, t);
    if n :| IsNewest(N, k, t, n) {
      assert IsNewest(E + N, k, t, n) && IsNewest(F + N, k, t, n);
      ReadIs(E + N, k, t, n);
      ReadIs(F + N, k, t, n);
    } else {
      OlderDecide(E, N, k, t);
      OlderDecide(F, N, k, t);
    }
  }

  lemma OlderDecide(E: set<Entry>, N: set<Entry>, k: UserKey, t: nat)
    requires Distinct(E + N) && forall e :: e in N ==> !Visible(e, k, t)
    ensures Read(E + N, k, t) == Read(E, k, t)
  {
    NewestExists(E, k, t);
    if m :| IsNewest(E, k, t, m) {
      assert IsNewest(E + N, k, t, m);
      ReadIs(E, k, t, m);
      ReadIs(E + N, k, t, m);
    } else {
      ReadNothing(E, k, t);
      ReadNothing(E + N, k, t);
    }
  }

  ghost function EntrySet(es: seq<Entry>): set<Entry> { set e | e in es }

  /** Sorted entries that are newer than everything may wait as an immutable memtable. */
  ghost predicate Fresh(s: State, es: seq<Entry>, last: nat) {
    && Sorted(es) && es != [] && Distinct(EntrySet(es)) && s.lastSequence <= last < MAX_SEQUENCE
    && (forall e :: e in es ==> e.key.sequence <= last)
    && (forall d, e :: d in s.history && e in es ==> d.key.sequence < e.key.sequence)
  }

  lemma AddMemoryKeepsMemory(s: State, m: State, es: seq<Entry>, last: nat)
    requires MemoryOk(s) && s.mem == [] && s.imm == None && s.pending == 0 && Fresh(s, es, last)
    requires m == s.(imm := Some(es), history := s.history + EntrySet(es), lastSequence := last)
    ensures MemoryOk(m)
    ensures forall e :: e in Stored(m) <==> e in Stored(s) || e in es
  {
    forall e
      ensures IsStored(m.mem, m.imm, m.levels, e) <==> IsStored(s.mem, s.imm, s.levels, e) || e in es
    {
    }
    forall e | Holds(s.levels, e)
      ensures e in s.history && e.key.sequence <= s.lastSequence
    {
      assert IsStored(s.mem, s.imm, s.levels, e);
    }
  }

  lemma AddMemoryKeepsInv(s: State, m: State, es: seq<Entry>, last: nat)
    requires Inv(s) && s.mem == [] && s.imm == None && s.pending == 0 && Fresh(s, es, last)
    requires m == s.(imm := Some(es), history := s.history + EntrySet(es), lastSequence := last)
    ensures Inv(m)
  {
    hide Shape, Recency, JobOk, Read;
    AddMemoryKeepsMemory(s, m, es, last);
    assert Stored(m) == Stored(s) + EntrySet(es);
    forall k, t | t >= s.horizon
      ensures Read(m.history, k, t) == Read(Stored(m), k, t)
    {
      NewerAgree(s.history, Stored(s), EntrySet(es), k, t);
    }
  }

  /** A table of newer entries, put where a flush may put it, keeps the tables in order. */
  lemma TableKeepsInv(s: State, s': State, es: seq<Entry>, size: nat, level: nat, last: nat)
    requires Inv(s) && s.mem == [] && s.imm == None && s.pending == 0 && Fresh(s, es, last)
    requires var f := TableOf(es, s.nextFile, size);
             FlushLevel(s.levels, Lo(f), Hi(f), level) && Replaced(s.levels, s'.levels, level - 1, [], [], [f])
    requires s' == s.(levels := s'.levels, history := s.history + EntrySet(es), lastSequence := last,
             nextFile := s.nextFile + 1)
    ensures Inv(s')
  {
    hide Inv, FlushLevel, Replaced;
    var m := s.(imm := Some(es), history := s.history + EntrySet(es), lastSequence := last);
    AddMemoryKeepsInv(s, m, es, last);
    StepKeepsInv(m, s', Flush(size, level));
  }

  /** Sequence and file numbers may run ahead of the tables. */
  lemma NumbersMayGrow(s: State, s': State)
    requires Inv(s) && s.mem == [] && s.imm == None && s.pending == 0
    requires s' == s.(lastSequence := s'.lastSequence, nextFile := s'.nextFile)
    requires s.lastSequence <= s'.lastSequence < MAX_SEQUENCE && s.nextFile <= s'.nextFile
    ensures Inv(s')
  {
    hide Shape, Recency, JobOk, Read, ReadsOk;
    assert Stored(s') == Stored(s);
  }

  /** ... and may be lowered as far as the tables allow. */
  lemma NumbersMayShrink(s: State, s': State)
    requires Inv(s) && s.mem == [] && s.imm == None && s.pending == 0
    requires s' == s.(lastSequence := s'.lastSequence, nextFile := s'.nextFile, job := None)
    requires s.horizon <= s'.lastSequence < MAX_SEQUENCE
    requires forall e :: e in s.history ==> e.key.sequence <= s'.lastSequence
    requires NumbersBelow(s.levels, s'.nextFile)
    ensures Inv(s')
  {
    hide Shape, Recency, JobOk, Read, ReadsOk;
    assert Stored(s') == Stored(s);
    forall e | Holds(s.levels, e)
      ensures e in s.history
    {
      assert IsStored(s.mem, s.imm, s.levels, e);
    }
  }

  /** A job of the whole database is a job of its tables. */
  lemma JobMayRun(s: State, db: State)
    requires Inv(s) && s.mem == [] && s.imm == None && s.pending == 0 && s.job == None
    requires Inv(db) && db.levels == s.levels && db.lastSequence == s.lastSequence
    ensures Inv(s.(job := db.job))
  {
    hide Shape, Recency, JobOk, Read, ReadsOk;
    assert Stored(s.(job := db.job)) == Stored(s);
  }
}
