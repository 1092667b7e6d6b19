/** Doing the work of a compaction: which entries survive, and in which files. */
module Compacting {
  import opened InternalKeys
  import opened Options
  import opened Files
  import opened Picking

  // ---------- The drop rules, stated on the set of inputs ----------

  /** A newer entry for the same user key is visible to the oldest reader. */
  ghost predicate Shadowed(input: seq<Entry>, ss: nat, e: Entry) {
    exists d :: d in input && d.key.user == e.key.user && e.key.sequence < d.key.sequence <= ss
  }

  /** No level deeper than the outputs can hold the user key. */
  ghost predicate IsBase(levels: Levels, level: nat, k: UserKey) {
    forall l, f :: level + 2 <= l < |levels| && f in levels[l] ==> !Contains(f, k)
  }

  ghost predicate Survives(levels: Levels, level: nat, input: seq<Entry>, ss: nat, e: Entry) {
    && e in input
    && !Shadowed(input, ss, e)
    && !(e.key.kind.Deletion? && e.key.sequence <= ss && IsBase(levels, level, e.key.user))
  }

  // ---------- Outputs ----------

  function Flatten(outputs: seq<seq<Entry>>): seq<Entry> {
    if outputs == [] then [] else Flatten(outputs[..|outputs| - 1]) + outputs[|outputs| - 1]
  }

  lemma FlattenAppend(outputs: seq<seq<Entry>>, last: seq<Entry>)
    ensures Flatten(outputs + [last]) == Flatten(outputs) + last
  {
    assert (outputs + [last])[..|outputs|] == outputs;
  }

  ghost predicate DistinctSeq(input: seq<Entry>) {
    forall d, e :: d in input && e in input && d.key.user == e.key.user && d.key.sequence == e.key.sequence ==> d == e
  }

  /** Rule (A) looks only at the entry just before; that is enough. */
  lemma ShadowedByNeighbour(input: seq<Entry>, ss: nat, i: nat)
    requires Sorted(input) && DistinctSeq(input) && i < |input|
    ensures Shadowed(input, ss, input[i])
       <==> i > 0 && input[i - 1].key.user == input[i].key.user && input[i - 1].key.sequence <= ss
  {
    var e := input[i];
    if i > 0 && input[i - 1].key.user == e.key.user {
      assert Less(input[i - 1].key, e.key);
      assert input[i - 1] in input;
    }
    if d :| d in input && d.key.user == e.key.user && e.key.sequence < d.key.sequence <= ss {
      var j :| 0 <= j < |input| && input[j] == d;
      assert j < i;
      assert j == i - 1 || Less(input[j].key, input[i - 1].key);
      assert Less(input[i - 1].key, e.key);
    }
  }

  /** The surviving entries among the first n, in order. */
  ghost function Kept(levels: Levels, level: nat, input: seq<Entry>, ss: nat, n: nat): seq<Entry>
    requires n <= |input|
  {
    if n == 0 then [] else
      Kept(levels, level, input, ss, n - 1) + if Survives(levels, level, input, ss, input[n - 1]) then [input[n - 1]]
        else []
  }

  lemma {:induction false} KeptIs(levels: Levels, level: nat, input: seq<Entry>, ss: nat, n: nat)
    requires n <= |input| && Sorted(input)
    ensures Sorted(Kept(levels, level, input, ss, n))
    ensures forall e :: e in Kept(levels, level, input, ss, n) <==>
              e in input[..n] && Survives(levels, level, input, ss, e)
  {
    if n > 0 {
      KeptIs(levels, level, input, ss, n - 1);
      assert input[..n] == input[..n - 1] + [input[n - 1]];
      forall d | d in Kept(levels, level, input, ss, n - 1)
        ensures Less(d.key, input[n - 1].key)
      {
        var j :| 0 <= j < n - 1 && input[..n - 1][j] == d;
      }
    }
  }

  lemma EverythingKept(levels: Levels, level: nat, input: seq<Entry>, ss: nat)
    requires Sorted(input)
    ensures Sorted(Kept(levels, level, input, ss, |input|))
    ensures forall e :: e in Kept(levels, level, input, ss, |input|) <==> Survives(levels, level, input, ss, e)
  {
    KeptIs(levels, level, input, ss, |input|);
    assert input[..|input|] == input;
  }

  // ---------- Where the outputs are cut ----------

  ghost function Survivors(levels: Levels, level: nat, input: seq<Entry>, ss: nat): set<nat> {
    set i: nat | i < |input| && Survives(levels, level, input, ss, input[i])
  }

  ghost predicate Together(files: seq<seq<Entry>>, d: Entry, e: Entry) {
    exists o :: o in files && d in o && e in o
  }

  /** Of the first n entries those in `kept` are in the files.  A file ends between two of them,
      one next to the other, if and only if it was full with the first one, or was to stop
      before the second one or an entry between them. */
  ghost predicate CutRight(files: seq<seq<Entry>>, input: seq<Entry>, kept: set<nat>, stopBefore: nat -> bool,
                           full: nat -> bool, n: nat)
    requires n <= |input|
  {
    forall i: nat, j: nat :: i < j < n && i in kept && j in kept && (forall m :: i < m < j ==> m !in kept) ==>
      (Together(files, input[i], input[j]) <==> !full(i) && forall m: nat :: i < m <= j ==> !stopBefore(m))
  }

  /** The closed outputs and the one being built. */
  function AllOutputs(outputs: seq<seq<Entry>>, builder: Option<seq<Entry>>): seq<seq<Entry>> {
    outputs + if builder.Some? then [builder.value] else []
  }

  /** `last` is the latest of the kept entries among the first n, or -1.  An output is being built,
      and holds it, exactly if nothing has ended that output, up to a stop before entry `stops`. */
  ghost predicate LastKept(input: seq<Entry>, kept: set<nat>, stopBefore: nat -> bool, full: nat -> bool,
                           builder: Option<seq<Entry>>, n: nat, stops: nat, last: int)
    requires n <= |input|
  {
    && -1 <= last < n && (last >= 0 ==> last in kept) && (forall m :: last < m < n ==> m !in kept)
    && (builder.Some? <==> last >= 0 && !full(last) && forall m: nat :: last < m < stops ==> !stopBefore(m))
    && (builder.Some? ==> input[last] in builder.value)
  }

  ghost predicate Within(files: seq<seq<Entry>>, input: seq<Entry>, n: nat)
    requires n <= |input|
  {
    forall o, e :: o in files && e in o ==> e in input[..n]
  }

  /** An entry that is dropped changes nothing. */
  lemma CutStays(files: seq<seq<Entry>>, input: seq<Entry>, kept: set<nat>, stopBefore: nat -> bool, full: nat -> bool,
                 n: nat)
    requires n < |input| && CutRight(files, input, kept, stopBefore, full, n) && Within(files, input, n) && n !in kept
    ensures CutRight(files, input, kept, stopBefore, full, n + 1) && Within(files, input, n + 1)
  {
    hide Together;
    assert forall e :: e in input[..n] ==> e in input[..n + 1];
  }

  /** One that is kept goes into the output being built if there is one, else into a new one. */
  lemma CutGrows(outputs: seq<seq<Entry>>, builder: Option<seq<Entry>>, input: seq<Entry>, kept: set<nat>,
                 stopBefore: nat -> bool, full: nat -> bool, n: nat, last: int)
    requires n < |input| && Sorted(input) && n in kept
    requires CutRight(AllOutputs(outputs, builder), input, kept, stopBefore, full, n)
    requires Within(AllOutputs(outputs, builder), input, n)
    requires LastKept(input, kept, stopBefore, full, builder, n, n + 1, last)
    ensures var grown := AllOutputs(outputs, Some((if builder.Some? then builder.value else []) + [input[n]]));
            CutRight(grown, input, kept, stopBefore, full, n + 1) && Within(grown, input, n + 1)
  {
    hide Together, LastKept;
    var files := AllOutputs(outputs, builder);
    var grown := AllOutputs(outputs, Some((if builder.Some? then builder.value else []) + [input[n]]));
    GrowsWithin(outputs, builder, input, n);
    forall i: nat, j: nat | i < j < n + 1 && i in kept && j in kept && forall m :: i < m < j ==> m !in kept
      ensures Together(grown, input[i], input[j]) <==> !full(i) && forall m: nat :: i < m <= j ==> !stopBefore(m)
    {
      if j < n {
        OthersTogether(outputs, builder, input, n, i, j);
      } else {
        LastTogether(outputs, builder, input, kept, stopBefore, full, n, last, i);
      }
    }
  }

  lemma GrowsWithin(outputs: seq<seq<Entry>>, builder: Option<seq<Entry>>, input: seq<Entry>, n: nat)
    requires n < |input| && Within(AllOutputs(outputs, builder), input, n)
    ensures Within(AllOutputs(outputs, Some((if builder.Some? then builder.value else []) + [input[n]])), input, n + 1)
  {
    var grown := AllOutputs(outputs, Some((if builder.Some? then builder.value else []) + [input[n]]));
    assert input[..n + 1] == input[..n] + [input[n]];
    forall o, e | o in grown && e in o
      ensures e in input[..n + 1]
    {
      assert builder.Some? ==> builder.value in AllOutputs(outputs, builder);
      assert o in outputs ==> o in AllOutputs(outputs, builder);
    }
  }

  /** Which of the earlier entries are together stays. */
  lemma OthersTogether(outputs: seq<seq<Entry>>, builder: Option<seq<Entry>>, input: seq<Entry>, n: nat, i: nat, j: nat)
    requires i < j < n < |input| && Sorted(input)
    ensures var grown := AllOutputs(outputs, Some((if builder.Some? then builder.value else []) + [input[n]]));
            Together(grown, input[i], input[j]) <==> Together(AllOutputs(outputs, builder), input[i], input[j])
  {
    var files, old' := AllOutputs(outputs, builder), if builder.Some? then builder.value else [];
    var grown := AllOutputs(outputs, Some(old' + [input[n]]));
    assert Less(input[i].key, input[n].key) && Less(input[j].key, input[n].key);
    if o :| o in files && input[i] in o && input[j] in o {
      assert (if o in outputs then o else old' + [input[n]]) in grown;
    }
    if o :| o in grown && input[i] in o && input[j] in o {
      assert o in outputs || o == old' + [input[n]];
      assert (if o in outputs then o else old') in files;
    }
  }

  /** The new entry is together with the last one kept exactly if that one's output goes on. */
  lemma LastTogether(outputs: seq<seq<Entry>>, builder: Option<seq<Entry>>, input: seq<Entry>, kept: set<nat>,
                     stopBefore: nat -> bool, full: nat -> bool, n: nat, last: int, i: nat)
    requires n < |input| && Sorted(input) && Within(AllOutputs(outputs, builder), input, n)
    requires LastKept(input, kept, stopBefore, full, builder, n, n + 1, last)
    requires i < n && i in kept && forall m :: i < m < n ==> m !in kept
    ensures var grown := AllOutputs(outputs, Some((if builder.Some? then builder.value else []) + [input[n]]));
            Together(grown, input[i], input[n]) <==> !full(i) && forall m: nat :: i < m <= n ==> !stopBefore(m)
  {
    assert i == last;
    var files, old' := AllOutputs(outputs, builder), if builder.Some? then builder.value else [];
    var grown := AllOutputs(outputs, Some(old' + [input[n]]));
    assert old' + [input[n]] in grown;
    NotYetIn(input, n);
    forall o | o in grown && input[i] in o && input[n] in o
      ensures builder.Some?
    {
      assert o in outputs ==> o in files;
      assert Less(input[i].key, input[n].key);
    }
  }

  /** What the next entry does to the outputs, dropped or kept. */
  lemma NextEntry(outputs: seq<seq<Entry>>, builder: Option<seq<Entry>>, input: seq<Entry>, kept: set<nat>,
                  stopBefore: nat -> bool, full: nat -> bool, n: nat, last: int)
    requires n < |input| && Sorted(input)
    requires CutRight(AllOutputs(outputs, builder), input, kept, stopBefore, full, n)
    requires Within(AllOutputs(outputs, builder), input, n)
    requires LastKept(input, kept, stopBefore, full, builder, n, n + 1, last)
    ensures var grown := Some((if builder.Some? then builder.value else []) + [input[n]]);
            if n in kept then
              && CutRight(AllOutputs(outputs, grown), input, kept, stopBefore, full, n + 1)
              && Within(AllOutputs(outputs, grown), input, n + 1)
              && LastKept(input, kept, stopBefore, full, if full(n) then None else grown, n + 1, n + 1, n)
            else
              && CutRight(AllOutputs(outputs, builder), input, kept, stopBefore, full, n + 1)
              && Within(AllOutputs(outputs, builder), input, n + 1)
              && LastKept(input, kept, stopBefore, full, builder, n + 1, n + 1, last)
  {
    hide CutRight, Within, AllOutputs;
    if n in kept {
      CutGrows(outputs, builder, input, kept, stopBefore, full, n, last);
    } else {
      CutStays(AllOutputs(outputs, builder), input, kept, stopBefore, full, n);
    }
  }

  /** What the merge loop has done with the first n entries, and with a stop before entry `stops`. */
  ghost predicate SoFar(levels: Levels, level: nat, input: seq<Entry>, ss: nat, stopBefore: nat -> bool,
                        full: nat -> bool, outputs: seq<seq<Entry>>, builder: Option<seq<Entry>>, n: nat, stops: nat,
                        last: int)
    requires n <= |input|
  {
    && NonEmpty(outputs, builder)
    && if ss >= MAX_SEQUENCE then outputs == [] && builder == None else
         var kept, all := Survivors(levels, level, input, ss), AllOutputs(outputs, builder);
         && Written(outputs, builder) == Kept(levels, level, input, ss, n)
         && CutRight(all, input, kept, stopBefore, full, n) && Within(all, input, n)
         && LastKept(input, kept, stopBefore, full, builder, n, stops, last)
  }

  lemma SoFarStarts(levels: Levels, level: nat, input: seq<Entry>, ss: nat, stopBefore: nat -> bool, full: nat -> bool)
    ensures SoFar(levels, level, input, ss, stopBefore, full, [], None, 0, 0, -1)
  {
  }

  lemma SoFarStops(levels: Levels, level: nat, input: seq<Entry>, ss: nat, stopBefore: nat -> bool, full: nat -> bool,
                   outputs: seq<seq<Entry>>, builder: Option<seq<Entry>>, n: nat, last: int,
                   outputs': seq<seq<Entry>>, builder': Option<seq<Entry>>)
    requires n <= |input| && SoFar(levels, level, input, ss, stopBefore, full, outputs, builder, n, n, last)
    requires if stopBefore(n) then Finished(outputs, builder, outputs', builder')
             else outputs' == outputs && builder' == builder
    ensures SoFar(levels, level, input, ss, stopBefore, full, outputs', builder', n, n + 1, last)
  {
    hide CutRight, Within, Kept, Survivors, AllOutputs, Written;
  }

  lemma SoFarNext(levels: Levels, level: nat, input: seq<Entry>, ss: nat, stopBefore: nat -> bool, full: nat -> bool,
                  outputs: seq<seq<Entry>>, builder: Option<seq<Entry>>, n: nat, last: int, drop: bool,
                  outputs': seq<seq<Entry>>, builder': Option<seq<Entry>>)
    requires n < |input| && Sorted(input)
    requires SoFar(levels, level, input, ss, stopBefore, full, outputs, builder, n, n + 1, last)
    requires if ss < MAX_SEQUENCE then drop <==> !Survives(levels, level, input, ss, input[n]) else drop
    requires if drop then outputs' == outputs && builder' == builder
             else Added(outputs, builder, input[n], full(n), outputs', builder')
    ensures SoFar(levels, level, input, ss, stopBefore, full, outputs', builder', n + 1, n + 1, if drop then last else n)
  {
    hide CutRight, Within, AllOutputs, Written, Survives, LastKept, Sorted;
    if ss < MAX_SEQUENCE {
      NextEntry(outputs, builder, input, Survivors(levels, level, input, ss), stopBefore, full, n, last);
    }
  }

  lemma SoFarEnds(levels: Levels, level: nat, input: seq<Entry>, ss: nat, stopBefore: nat -> bool, full: nat -> bool,
                  outputs: seq<seq<Entry>>, builder: Option<seq<Entry>>, last: int, outputs': seq<seq<Entry>>)
    requires Sorted(input) && Finished(outputs, builder, outputs', None)
    requires SoFar(levels, level, input, ss, stopBefore, full, outputs, builder, |input|, |input|, last)
    ensures (forall o :: o in outputs' ==> o != []) && Sorted(Flatten(outputs'))
    ensures if ss >= MAX_SEQUENCE then outputs' == [] else
              && (forall e :: e in Flatten(outputs') <==> Survives(levels, level, input, ss, e))
              && CutRight(outputs', input, Survivors(levels, level, input, ss), stopBefore, full, |input|)
  {
    hide Survives, CutRight, Within, LastKept, Kept;
    NothingOpen(outputs');
    EverythingKept(levels, level, input, ss);
  }

  lemma NextInOrder(input: seq<Entry>, i: nat)
    requires Sorted(input) && i < |input|
    ensures i > 0 ==> Less(input[i - 1].key, input[i].key) && input[i - 1].key.user <= input[i].key.user
  {
  }

  lemma NothingOpen(outputs: seq<seq<Entry>>)
    ensures Written(outputs, None) == Flatten(outputs) && AllOutputs(outputs, None) == outputs
  {
  }

  lemma NotYetIn(input: seq<Entry>, n: nat)
    requires Sorted(input) && n < |input|
    ensures input[n] !in input[..n]
  {
  }

  // ---------- Grandparents ----------

  /** How many of the files end before the key. */
  ghost function Passed(files: seq<File>, k: InternalKey): (i: nat)
    ensures i <= |files| && forall j :: 0 <= j < i ==> Less(files[j].largest, k)
    ensures i < |files| ==> !Less(files[i].largest, k)
  {
    if files == [] || !Less(files[0].largest, k) then 0 else 1 + Passed(files[1..], k)
  }

  /** From which grandparent on the output that holds entry m overlaps: the place of the latest
      stop up to m, or of the first entry. */
  ghost function Since(files: seq<File>, maxFileSize: nat, input: seq<Entry>, m: nat): nat
    requires m < |input|
    decreases m, 1
  {
    if m == 0 || StopAt(files, maxFileSize, input, m) then Passed(files, input[m].key)
    else Since(files, maxFileSize, input, m - 1)
  }

  /** Stop before entry m when the grandparents passed since then are more than ten files' worth. */
  ghost predicate StopAt(files: seq<File>, maxFileSize: nat, input: seq<Entry>, m: nat)
    decreases m, 0
  {
    0 < m < |input| &&
    var a, b := Since(files, maxFileSize, input, m - 1), Passed(files, input[m].key);
    a <= b && TotalFileSize(files[a..b]) > 10 * maxFileSize
  }

  ghost function Stops(files: seq<File>, maxFileSize: nat, input: seq<Entry>): nat -> bool {
    (m: nat) => StopAt(files, maxFileSize, input, m)
  }

  lemma StopMeans(files: seq<File>, maxFileSize: nat, input: seq<Entry>, m: nat)
    requires m < |input|
    ensures var b := Passed(files, input[m].key);
            && (Stops(files, maxFileSize, input)(m) <==>
                  m > 0 && var a := Since(files, maxFileSize, input, m - 1);
                           a <= b && TotalFileSize(files[a..b]) > 10 * maxFileSize)
            && Since(files, maxFileSize, input, m) ==
               if m == 0 || Stops(files, maxFileSize, input)(m) then b else Since(files, maxFileSize, input, m - 1)
  {
  }

  lemma PassedIs(files: seq<File>, k: InternalKey, i: nat)
    requires i <= |files| && (i < |files| ==> !Less(files[i].largest, k))
    requires forall j :: 0 <= j < i ==> Less(files[j].largest, k)
    ensures Passed(files, k) == i
  {
    var p := Passed(files, k);
  }

  lemma PassesMore(files: seq<File>, k: InternalKey, k': InternalKey)
    requires Less(k, k')
    ensures Passed(files, k) <= Passed(files, k')
    ensures forall j :: 0 <= j < Passed(files, k) ==> Less(files[j].largest, k')
  {
    var p, p' := Passed(files, k), Passed(files, k');
  }

  lemma NothingPassed(files: seq<File>, a: nat)
    requires a <= |files|
    ensures TotalFileSize(files[a..a]) == 0
  {
  }

  lemma OneMoreFile(files: seq<File>, a: nat, b: nat)
    requires a <= b < |files|
    ensures TotalFileSize(files[a..b + 1]) == TotalFileSize(files[a..b]) + files[b].size
  {
    TotalIsSum(files[a..b], [files[b]]);
    assert files[a..b + 1] == files[a..b] + [files[b]];
  }

  /** A running compaction: the version it reads and its cursors into the deeper levels. */
  class Compaction {
    const levels: Levels
    const level: nat
    const levelPtrs: array<nat>
    const grandparents: seq<File>
    const maxFileSize: nat
    var grandparentIndex: nat
    var seenKey: bool
    var overlappedBytes: nat
    ghost var since: nat
    ghost var lastKey: Option<InternalKey>
    ghost var asked: Option<UserKey>

    ghost predicate Valid()
      reads this`asked, levelPtrs
    {
      && |levels| == NUM_LEVELS && level + 1 < NUM_LEVELS
      && levelPtrs.Length == NUM_LEVELS
      && forall l :: level + 2 <= l < NUM_LEVELS ==>
           && Ascending(levels[l])
           && levelPtrs[l] <= |levels[l]|
           && forall i :: 0 <= i < levelPtrs[l] ==> asked.Some? && Hi(levels[l][i]) < asked.value
    }

    /** The cursor over the grandparents stands behind those that end before the last key. */
    ghost predicate CursorOk()
      reads this`grandparentIndex, this`seenKey, this`overlappedBytes, this`since, this`lastKey
    {
      && since <= grandparentIndex <= |grandparents|
      && if lastKey.Some?
         then seenKey && grandparentIndex == Passed(grandparents, lastKey.value)
              && overlappedBytes == TotalFileSize(grandparents[since..grandparentIndex])
         else !seenKey && grandparentIndex == overlappedBytes == 0
    }

    constructor (levels: Levels, level: nat, grandparents: seq<File>, maxFileSize: nat)
      requires |levels| == NUM_LEVELS && level + 1 < NUM_LEVELS
      requires forall l :: level + 2 <= l < NUM_LEVELS ==> Ascending(levels[l])
      ensures Valid() && fresh(levelPtrs) && asked == None
      ensures CursorOk() && lastKey == None && this.grandparents == grandparents && this.maxFileSize == maxFileSize
      ensures this.levels == levels && this.level == level
    {
      this.levels, this.level, this.grandparents, this.maxFileSize := levels, level, grandparents, maxFileSize;
      grandparentIndex, seenKey, overlappedBytes, since, lastKey := 0, false, 0, 0, None;
      levelPtrs := new nat[NUM_LEVELS](_ => 0);
      asked := None;
    }

    /** The cursors only move forward, yet for user keys asked in non-decreasing
        order the answer is that of a scan of every deeper file. */
    method IsBaseLevelForKey(k: UserKey) returns (base: bool)
      requires Valid() && (asked.Some? ==> asked.value <= k)
      modifies levelPtrs, this`asked
      ensures Valid() && asked == Some(k)
      ensures base <==> IsBase(levels, level, k)
    {
      asked := Some(k);
      var l := level + 2;
      while l < NUM_LEVELS
        invariant level + 2 <= l && (l <= NUM_LEVELS || l == level + 2)
        invariant Valid() && asked == Some(k)
        invariant forall m, f :: level + 2 <= m < l && m < NUM_LEVELS && f in levels[m] ==> !Contains(f, k)
      {
        var files := levels[l];
        while levelPtrs[l] < |files|
          invariant Valid() && asked == Some(k)
          decreases |files| - levelPtrs[l]
        {
          var f := files[levelPtrs[l]];
          if k <= Hi(f) {
            if k >= Lo(f) {
              assert f in levels[l] && Contains(f, k);
              return false;
            }
            break;
          }
          levelPtrs[l] := levelPtrs[l] + 1;
        }
        forall f | f in files
          ensures !Contains(f, k)
        {
          var i :| 0 <= i < |files| && files[i] == f;
          if levelPtrs[l] < i {
            assert Less(files[levelPtrs[l]].largest, files[i].smallest);
          }
        }
        l := l + 1;
      }
      base := true;
    }

    /** Should the merge loop drop input[i]?  `lastSequenceForKey` is the sequence
        number of the entry just before, if that has the same user key. */
    method ShouldDrop(ghost input: seq<Entry>, ghost i: nat, e: Entry, lastSequenceForKey: nat, smallestSnapshot: nat)
      returns (drop: bool)
      requires Valid() && (asked.Some? ==> asked.value <= e.key.user)
      requires Sorted(input) && DistinctSeq(input) && i < |input| && input[i] == e
      requires lastSequenceForKey == if i > 0 && input[i - 1].key.user == e.key.user
                                     then input[i - 1].key.sequence else MAX_SEQUENCE
      modifies levelPtrs, this`asked
      ensures Valid() && (asked.Some? ==> asked.value <= e.key.user)
      ensures smallestSnapshot < MAX_SEQUENCE ==> (drop <==> !Survives(levels, level, input, smallestSnapshot, e))
      ensures smallestSnapshot >= MAX_SEQUENCE >= lastSequenceForKey ==> drop
    {
      ShadowedByNeighbour(input, smallestSnapshot, i);
      if lastSequenceForKey <= smallestSnapshot {
        drop := true;
      } else if e.key.kind.Deletion? && e.key.sequence <= smallestSnapshot {
        drop := IsBaseLevelForKey(e.key.user);
      } else {
        drop := false;
      }
    }

    /** Would the current output overlap too much of the level after next with this key?  Keys are
        asked in increasing order. */
    method ShouldStopBefore(key: InternalKey) returns (stop: bool)
      requires CursorOk() && (lastKey.Some? ==> Less(lastKey.value, key))
      modifies this`grandparentIndex, this`seenKey, this`overlappedBytes, this`since, this`lastKey
      ensures CursorOk() && lastKey == Some(key)
      ensures stop <==> && old(lastKey).Some? && old(since) <= Passed(grandparents, key)
                        && TotalFileSize(grandparents[old(since)..Passed(grandparents, key)]) > 10 * maxFileSize
      ensures since == if stop || old(lastKey).None? then Passed(grandparents, key) else old(since)
    {
      hide TotalFileSize, Passed, Less;
      if lastKey.Some? {
        PassesMore(grandparents, lastKey.value, key);
      }
      ghost var from := since;
      while grandparentIndex < |grandparents| && Less(grandparents[grandparentIndex].largest, key)
        invariant from <= grandparentIndex <= |grandparents|
        invariant seenKey == old(seenKey) && since == from
        invariant forall j :: 0 <= j < grandparentIndex ==> Less(grandparents[j].largest, key)
        invariant overlappedBytes == if seenKey then TotalFileSize(grandparents[from..grandparentIndex]) else 0
      {
        OneMoreFile(grandparents, from, grandparentIndex);
        if seenKey {
          overlappedBytes := overlappedBytes + grandparents[grandparentIndex].size;
        }
        grandparentIndex := grandparentIndex + 1;
      }
      PassedIs(grandparents, key, grandparentIndex);
      NothingPassed(grandparents, grandparentIndex);
      if !seenKey {
        since := grandparentIndex;
      }
      seenKey, lastKey := true, Some(key);
      if overlappedBytes > MaxGrandParentOverlapBytes(maxFileSize) {
        overlappedBytes := 0;
        since := grandparentIndex;
        return true;
      }
      return false;
    }

    /** The merge loop.  `input` is what the input iterator yields; `full` says after which
        entries an output file is closed because of its size. */
    method DoCompactionWork(input: seq<Entry>, smallestSnapshot: nat, full: nat -> bool)
      returns (outputs: seq<seq<Entry>>)
      requires Valid() && asked == None && CursorOk() && lastKey == None
      requires Sorted(input) && DistinctSeq(input)
      requires forall e :: e in input ==> e.key.sequence <= MAX_SEQUENCE
      modifies levelPtrs, this`asked, this`grandparentIndex, this`seenKey, this`overlappedBytes, this`since,
               this`lastKey
      ensures forall o :: o in outputs ==> o != []
      ensures Sorted(Flatten(outputs))
      ensures smallestSnapshot < MAX_SEQUENCE ==>
                forall e :: e in Flatten(outputs) <==> Survives(levels, level, input, smallestSnapshot, e)
      ensures smallestSnapshot < MAX_SEQUENCE ==>
                CutRight(outputs, input, Survivors(levels, level, input, smallestSnapshot),
                         Stops(grandparents, maxFileSize, input), full, |input|)
      ensures smallestSnapshot >= MAX_SEQUENCE ==> outputs == []
      ensures (forall e :: e in Flatten(outputs) <==> Survives(levels, level, input, smallestSnapshot, e))
         <==> smallestSnapshot < MAX_SEQUENCE || (forall e :: e in input ==>
           !Survives(levels, level, input, smallestSnapshot, e))
    {
      hide Survives, SoFar, Passed, TotalFileSize, Since, StopAt, Valid, CursorOk, Flatten, DistinctSeq, Stops, Sorted,
           Less, Finished, Added, CutRight;
      ghost var stops, last := Stops(grandparents, maxFileSize, input), -1;
      outputs := [];
      var builder: Option<seq<Entry>> := None;
      SoFarStarts(levels, level, input, smallestSnapshot, stops, full);
      var current: Option<UserKey> := None;
      var lastSequenceForKey := MAX_SEQUENCE;
      var i := 0;
      while i < |input|
        invariant 0 <= i <= |input|
        invariant Valid() && (asked.Some? ==> i > 0 && asked.value <= input[i - 1].key.user)
        invariant CursorOk() && (i == 0 ==> lastKey == None)
        invariant i > 0 ==> lastKey == Some(input[i - 1].key) && since == Since(grandparents, maxFileSize, input, i - 1)
        invariant i == 0 ==> current == None
        invariant i > 0 ==> current == Some(input[i - 1].key.user) && lastSequenceForKey == input[i - 1].key.sequence
        invariant SoFar(levels, level, input, smallestSnapshot, stops, full, outputs, builder, i, i, last)
      {
        var e := input[i];
        NextInOrder(input, i);
        StopMeans(grandparents, maxFileSize, input, i);
        ghost var outputs0, builder0 := outputs, builder;
        var stop := ShouldStopBefore(e.key);
        if stop {
          outputs, builder := FinishOutput(outputs, builder);
        }
        SoFarStops(levels, level, input, smallestSnapshot, stops, full, outputs0, builder0, i, last, outputs, builder);
        if current.None? || current.value != e.key.user {
          current := Some(e.key.user);
          lastSequenceForKey := MAX_SEQUENCE;
        }
        var drop := ShouldDrop(input, i, e, lastSequenceForKey, smallestSnapshot);
        lastSequenceForKey := e.key.sequence;
        outputs0, builder0 := outputs, builder;
        if !drop {
          outputs, builder := AddToOutput(outputs, builder, e, full(i));
        }
        SoFarNext(levels, level, input, smallestSnapshot, stops, full, outputs0, builder0, i, last, drop, outputs,
                  builder);
        last := if drop then last else i;
        i := i + 1;
      }
      ghost var outputs0, builder0 := outputs, builder;
      outputs, builder := FinishOutput(outputs, builder);
      SoFarEnds(levels, level, input, smallestSnapshot, stops, full, outputs0, builder0, last, outputs);
      SurvivorsAreInputs(levels, level, input, smallestSnapshot);
      NoEntryInNone();
    }
  }

  lemma NoEntryInNone()
    ensures Flatten([]) == []
  {
  }

  lemma SurvivorsAreInputs(levels: Levels, level: nat, input: seq<Entry>, ss: nat)
    ensures forall e :: Survives(levels, level, input, ss, e) ==> e in input
  {
  }

  /** The limit of the sequence numbers is the one place where the loop is wrong: with
      the smallest snapshot there it writes nothing, yet a live newest value must survive. */
  lemma LimitShouldKeep(levels: Levels, level: nat, input: seq<Entry>, e: Entry)
    requires e in input && e.key.kind.Value?
    requires forall d :: d in input && d.key.user == e.key.user ==> d.key.sequence <= e.key.sequence
    ensures Survives(levels, level, input, MAX_SEQUENCE, e)
  {
  }

  /** Everything written so far: the closed files and the one being built. */
  function Written(outputs: seq<seq<Entry>>, builder: Option<seq<Entry>>): seq<Entry> {
    Flatten(outputs) + if builder.Some? then builder.value else []
  }

  predicate NonEmpty(outputs: seq<seq<Entry>>, builder: Option<seq<Entry>>) {
    (forall o :: o in outputs ==> o != []) && (builder.Some? ==> builder.value != [])
  }

  /** The output being built, if there is one, is closed. */
  ghost predicate Finished(outputs: seq<seq<Entry>>, builder: Option<seq<Entry>>, outputs': seq<seq<Entry>>,
                           builder': Option<seq<Entry>>)
  {
    && (NonEmpty(outputs, builder) ==> NonEmpty(outputs', builder')) && builder' == None
    && Written(outputs', builder') == Written(outputs, builder)
    && AllOutputs(outputs', builder') == AllOutputs(outputs, builder)
    && (builder.None? ==> outputs' == outputs)
  }

  /** One more entry in the output being built, which is closed if it is full then. */
  ghost predicate Added(outputs: seq<seq<Entry>>, builder: Option<seq<Entry>>, e: Entry, full: bool,
                        outputs': seq<seq<Entry>>, builder': Option<seq<Entry>>)
  {
    var grown := Some((if builder.Some? then builder.value else []) + [e]);
    && (NonEmpty(outputs, builder) ==> NonEmpty(outputs', builder'))
    && Written(outputs', builder') == Written(outputs, builder) + [e]
    && AllOutputs(outputs', builder') == AllOutputs(outputs, grown) && builder' == if full then None else grown
  }

  method FinishOutput(outputs: seq<seq<Entry>>, builder: Option<seq<Entry>>)
    returns (outputs': seq<seq<Entry>>, builder': Option<seq<Entry>>)
    ensures Finished(outputs, builder, outputs', builder') && builder' == None
  {
    outputs', builder' := outputs, None;
    if builder.Some? {
      FlattenAppend(outputs, builder.value);
      outputs' := outputs + [builder.value];
    }
  }

  method AddToOutput(outputs: seq<seq<Entry>>, builder: Option<seq<Entry>>, e: Entry, full: bool)
    returns (outputs': seq<seq<Entry>>, builder': Option<seq<Entry>>)
    ensures Added(outputs, builder, e, full, outputs', builder')
  {
    outputs', builder' := outputs, Some((if builder.Some? then builder.value else []) + [e]);
    assert Written(outputs', builder') == Written(outputs, builder) + [e];
    if full {
      outputs', builder' := FinishOutput(outputs', builder');
    }
  }
}
