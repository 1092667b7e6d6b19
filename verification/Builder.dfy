/** Applying version edits: VersionSet::Builder, and replaying many edits at once. */
module VersionBuilder {
  import opened Options
  import opened Files
  import opened Picking
  import opened Versions

  datatype Edit = Edit(deleted: set<(nat, nat)>, added: seq<(nat, File)>)

  ghost predicate EditOk(e: Edit) {
    forall i :: 0 <= i < |e.added| ==> e.added[i].0 < NUM_LEVELS
  }

  function DeletedAt(e: Edit, l: nat): set<nat> {
    set p | p in e.deleted && p.0 == l :: p.1
  }

  function AddedAt(added: seq<(nat, File)>, l: nat): set<File> {
    set p | p in added && p.0 == l :: p.1
  }

  function Numbers(fs: set<File>): set<nat> {
    set f | f in fs :: f.number
  }

  function Elements(fs: seq<File>): set<File> {
    set f | f in fs
  }

  /** What is left of one level: the base and added files whose number is not deleted. */
  function Remaining(base: set<File>, deleted: set<nat>, added: set<File>): set<File> {
    set f | f in base + added && f.number !in deleted
  }

  /** Neither sorts before the other: a std::set with this order takes them for equal. */
  predicate Tied(f: File, g: File) {
    !BySmallest(f, g) && !BySmallest(g, f)
  }

  lemma TiedMeansSame(f: File, g: File)
    ensures Tied(f, g) <==> f.smallest == g.smallest && f.number == g.number
  {
  }

  lemma ElementsEmpty(r: seq<File>)
    ensures Elements(r) == {} <==> r == []
  {
    if r != [] {
      assert r[0] in Elements(r);
    }
  }

  /** A sorted level is determined by its files. */
  lemma {:induction false} SortedUnique(r: seq<File>, s: seq<File>)
    requires SortedLevel(r) && SortedLevel(s) && Elements(r) == Elements(s)
    ensures r == s
  {
    ElementsEmpty(r);
    ElementsEmpty(s);
    if r != [] {
      assert r[0] in Elements(s) && (s != [] ==> s[0] in Elements(r));
      var i :| 0 <= i < |s| && s[i] == r[0];
      var j :| 0 <= j < |r| && r[j] == s[0];
      assert r[0] == s[0];
      forall f
        ensures f in Elements(r[1..]) <==> f in Elements(s[1..])
      {
        assert f in Elements(r) <==> f in Elements(s);
        TailElements(r, f);
        TailElements(s, f);
      }
      SortedUnique(r[1..], s[1..]);
      assert r == [r[0]] + r[1..] && s == [s[0]] + s[1..];
    }
  }

  lemma TailElements(r: seq<File>, f: File)
    requires SortedLevel(r) && r != []
    ensures f in r[1..] <==> f in r && f != r[0]
  {
    if f in r && f != r[0] {
      var i :| 0 <= i < |r| && r[i] == f;
      assert r[1..][i - 1] == f;
    }
    if f in r[1..] {
      var i :| 0 <= i < |r| - 1 && r[1..][i] == f;
      assert BySmallest(r[0], r[i + 1]);
    }
  }

  /** std::set insertion of a file that ties with none present. */
  method InsertBySmallest(fs: seq<File>, f: File) returns (r: seq<File>)
    requires SortedLevel(fs) && forall g :: g in fs ==> !Tied(f, g)
    ensures SortedLevel(r) && Elements(r) == Elements(fs) + {f}
  {
    var j := 0;
    while j < |fs| && BySmallest(fs[j], f)
      invariant 0 <= j <= |fs|
      invariant forall m :: 0 <= m < j ==> BySmallest(fs[m], f)
    {
      j := j + 1;
    }
    forall m | j <= m < |fs|
      ensures BySmallest(f, fs[m])
    {
      assert fs[j] in fs && (m == j || BySmallest(fs[j], fs[m]));
    }
    InsertKeepsSorted(fs, j, f);
    r := fs[..j] + [f] + fs[j..];
  }

  lemma InsertKeepsSorted(fs: seq<File>, j: nat, f: File)
    requires SortedLevel(fs) && j <= |fs|
    requires forall m :: 0 <= m < j ==> BySmallest(fs[m], f)
    requires forall m :: j <= m < |fs| ==> BySmallest(f, fs[m])
    ensures SortedLevel(fs[..j] + [f] + fs[j..])
    ensures Elements(fs[..j] + [f] + fs[j..]) == Elements(fs) + {f}
  {
    hide BySmallest;
    assert fs == fs[..j] + fs[j..];
  }

  /** One level of SaveTo: merge the added files into the base files, dropping deleted ones. */
  method MergeLevel(base: seq<File>, deleted: set<nat>, added: seq<File>) returns (r: seq<File>)
    requires SortedLevel(base) && SortedLevel(added)
    requires forall f, g :: f in base && g in added ==> !Tied(f, g)
    ensures SortedLevel(r)
    ensures Elements(r) == Remaining(Elements(base), deleted, Elements(added))
  {
    r := [];
    var i, j := 0, 0;
    while i < |base| || j < |added|
      invariant 0 <= i <= |base| && 0 <= j <= |added|
      invariant SortedLevel(r)
      invariant forall f :: f in r <==> (f in base[..i] || f in added[..j]) && f.number !in deleted
      invariant i < |base| ==> forall f :: f in r ==> BySmallest(f, base[i])
      invariant j < |added| ==> forall f :: f in r ==> BySmallest(f, added[j])
      decreases |base| - i + |added| - j
    {
      assert i < |base| ==> base[..i + 1] == base[..i] + [base[i]];
      assert j < |added| ==> added[..j + 1] == added[..j] + [added[j]];
      if j == |added| || (i < |base| && !BySmallest(added[j], base[i])) {
        assert j < |added| ==> !Tied(base[i], added[j]);
        r := MaybeAddFile(r, deleted, base[i], if i + 1 < |base| then Some(base[i + 1]) else None,
                          if j < |added| then Some(added[j]) else None);
        i := i + 1;
      } else {
        r := MaybeAddFile(r, deleted, added[j], if j + 1 < |added| then Some(added[j + 1]) else None,
                          if i < |base| then Some(base[i]) else None);
        j := j + 1;
      }
    }
    assert base[..|base|] == base && added[..|added|] == added;
  }

  method MaybeAddFile(fs: seq<File>, deleted: set<nat>, f: File, ghost next: Option<File>, ghost other: Option<File>)
    returns (r: seq<File>)
    requires SortedLevel(fs) && forall g :: g in fs ==> BySmallest(g, f)
    requires next.Some? ==> BySmallest(f, next.value)
    requires other.Some? ==> BySmallest(f, other.value)
    ensures SortedLevel(r) && r == if f.number in deleted then fs else fs + [f]
    ensures forall g :: g in r <==> g in fs || (g == f && f.number !in deleted)
    ensures next.Some? ==> forall g :: g in r ==> BySmallest(g, next.value)
    ensures other.Some? ==> forall g :: g in r ==> BySmallest(g, other.value)
  {
    r := if f.number in deleted then fs else fs + [f];
  }

  // ---------- Many edits ----------

  /** What a builder remembers about one level. */
  datatype LevelState = LevelState(deleted: set<nat>, added: set<File>)

  /** Deletions first, then additions, which cancel a deletion of the same number. */
  function ApplyAt(st: LevelState, e: Edit, l: nat): LevelState {
    LevelState(st.deleted + DeletedAt(e, l) - Numbers(AddedAt(e.added, l)), st.added + AddedAt(e.added, l))
  }

  /** One builder fed the first n edits. */
  function ReplayAt(es: seq<Edit>, l: nat, n: nat): LevelState
    requires n <= |es|
  {
    if n == 0 then LevelState({}, {}) else ApplyAt(ReplayAt(es, l, n - 1), es[n - 1], l)
  }

  /** A new builder, and a new version, for each of the first n edits. */
  function StepwiseAt(base: set<File>, es: seq<Edit>, l: nat, n: nat): set<File>
    requires n <= |es|
  {
    if n == 0 then base else
      var st := ApplyAt(LevelState({}, {}), es[n - 1], l);
      Remaining(StepwiseAt(base, es, l, n - 1), st.deleted, st.added)
  }

  /** No edit adds to level l a file number that was in it before. */
  ghost predicate NoReturn(base: set<File>, es: seq<Edit>, l: nat, n: nat)
    requires n <= |es|
  {
    && (forall i, f :: 0 <= i < n && f in AddedAt(es[i].added, l) ==> f.number !in Numbers(base))
    && (forall i, j, f, g :: 0 <= i < j < n && f in AddedAt(es[i].added, l) && g in AddedAt(es[j].added, l) ==>
         f.number != g.number)
  }

  lemma {:induction false} ReplayAdded(es: seq<Edit>, l: nat, n: nat)
    requires n <= |es|
    ensures forall f :: f in ReplayAt(es, l, n).added ==> exists i :: 0 <= i < n && f in AddedAt(es[i].added, l)
  {
    if n > 0 {
      ReplayAdded(es, l, n - 1);
    }
  }

  /** The level that a builder saves after the first n edits. */
  function Replayed(base: set<File>, es: seq<Edit>, l: nat, n: nat): set<File>
    requires n <= |es|
  {
    Remaining(base, ReplayAt(es, l, n).deleted, ReplayAt(es, l, n).added)
  }

  /** Of the files that are deleted so far the edit brings none back: their numbers are not
      added again, except with the very same file. */
  ghost predicate NoneReturns(base: set<File>, st: LevelState, e: Edit, l: nat) {
    forall f :: f in base + st.added && f.number in st.deleted && f.number in Numbers(AddedAt(e.added, l)) ==>
      f in AddedAt(e.added, l)
  }

  /** A file that is deleted so far is there after one more edit exactly when its number is added. */
  lemma ReturnsWithItsNumber(base: set<File>, st: LevelState, e: Edit, l: nat, f: File)
    requires f in base + st.added && f.number in st.deleted
    ensures var all := ApplyAt(st, e, l);
            f in Remaining(base, all.deleted, all.added) <==> f.number in Numbers(AddedAt(e.added, l))
  {
    hide AddedAt, DeletedAt;
  }

  /** One more edit in the same builder is the same as one more builder exactly when no
      deleted file returns. */
  lemma OneMoreEdit(base: set<File>, st: LevelState, e: Edit, l: nat)
    ensures var all, one := ApplyAt(st, e, l), ApplyAt(LevelState({}, {}), e, l);
            (Remaining(base, all.deleted, all.added) ==
             Remaining(Remaining(base, st.deleted, st.added), one.deleted, one.added)) <==>
              NoneReturns(base, st, e, l)
  {
    hide AddedAt, DeletedAt;
    var plus := AddedAt(e.added, l);
    var all, one := ApplyAt(st, e, l), ApplyAt(LevelState({}, {}), e, l);
    var whole := Remaining(base, all.deleted, all.added);
    var twice := Remaining(Remaining(base, st.deleted, st.added), one.deleted, one.added);
    assert forall f :: f in plus ==> f.number in Numbers(plus);
    forall f
      ensures f in whole <==>
                || f in twice
                || (f in base + st.added && f.number in st.deleted && f.number in Numbers(plus) && f !in plus)
    {
    }
  }

  /** One builder fed the whole edit sequence agrees with one builder per edit, all along the
      way, exactly when no edit brings a deleted file back. */
  lemma {:induction false} ReplayAgreesExactly(base: set<File>, es: seq<Edit>, l: nat, n: nat)
    requires n <= |es|
    ensures (forall m: nat :: m <= n ==> Replayed(base, es, l, m) == StepwiseAt(base, es, l, m)) <==>
              forall m: nat :: m < n ==> NoneReturns(base, ReplayAt(es, l, m), es[m], l)
  {
    hide NoneReturns, Remaining, Numbers, AddedAt, ApplyAt;
    NothingRemoved(base);
    assert Replayed(base, es, l, 0) == StepwiseAt(base, es, l, 0);
    if n > 0 {
      ReplayAgreesExactly(base, es, l, n - 1);
      OneMoreEdit(base, ReplayAt(es, l, n - 1), es[n - 1], l);
      if Replayed(base, es, l, n - 1) == StepwiseAt(base, es, l, n - 1) {
        assert (Replayed(base, es, l, n) == StepwiseAt(base, es, l, n)) <==>
                 NoneReturns(base, ReplayAt(es, l, n - 1), es[n - 1], l);
      }
    }
  }

  /** In particular when no file number returns to a level it was in. */
  lemma ReplayIsStepwise(base: set<File>, es: seq<Edit>, l: nat, n: nat)
    requires n <= |es| && NoReturn(base, es, l, n)
    ensures Remaining(base, ReplayAt(es, l, n).deleted, ReplayAt(es, l, n).added) == StepwiseAt(base, es, l, n)
  {
    hide NoReturn, Remaining, Numbers, AddedAt, ReplayAt, StepwiseAt, NoneReturns;
    forall m: nat | m < n
      ensures NoneReturns(base, ReplayAt(es, l, m), es[m], l)
    {
      NextIsUnused(base, es, l, m, n);
    }
    ReplayAgreesExactly(base, es, l, n);
    assert Replayed(base, es, l, n) == StepwiseAt(base, es, l, n);
  }

  lemma NothingRemoved(base: set<File>)
    ensures Remaining(base, {}, {}) == base
  {
  }

  lemma NextIsUnused(base: set<File>, es: seq<Edit>, l: nat, m: nat, n: nat)
    requires m < n <= |es| && NoReturn(base, es, l, n)
    ensures NoneReturns(base, ReplayAt(es, l, m), es[m], l)
  {
    hide ReplayAt, AddedAt;
    ReplayAdded(es, l, m);
    forall f | f in base
      ensures f.number in Numbers(base)
    {
    }
  }

  /** The condition matters: a number that is deleted and later added again brings
      the deleted base file back when one builder sees both edits. */
  lemma ReturningNumberResurrects(f: File, g: File)
    requires f.number == g.number && f != g
    ensures var es := [Edit({(1, f.number)}, []), Edit({}, [(1, g)])];
            var st := ReplayAt(es, 1, 2);
            && f in Remaining({f}, st.deleted, st.added)
            && f !in StepwiseAt({f}, es, 1, 2)
  {
    var es := [Edit({(1, f.number)}, []), Edit({}, [(1, g)])];
    assert (1, g) in es[1].added;
    assert AddedAt(es[1].added, 1) == {g} && AddedAt(es[0].added, 1) == {};
    assert (1, f.number) in es[0].deleted;
    assert DeletedAt(es[0], 1) == {f.number} && DeletedAt(es[1], 1) == {};
    var one := ReplayAt(es, 1, 1);
    assert one == ApplyAt(ReplayAt(es, 1, 0), es[0], 1);
    assert one.deleted == {f.number};
    var st := ReplayAt(es, 1, 2);
    assert st == ApplyAt(one, es[1], 1);
    assert st.deleted == {} && f in Remaining({f}, st.deleted, st.added);
    assert StepwiseAt({f}, es, 1, 0) == {f};
    assert StepwiseAt({f}, es, 1, 1) == {};
  }

  // ---------- The builder ----------

  class Builder {
    const base: Levels
    var deleted: seq<set<nat>>
    var added: seq<seq<File>>

    ghost predicate Valid()
      reads this
    {
      && |base| == |deleted| == |added| == NUM_LEVELS
      && (forall l :: 0 <= l < NUM_LEVELS ==> SortedLevel(base[l]) && SortedLevel(added[l]))
      && (forall l, f, g :: 0 <= l < NUM_LEVELS && f in base[l] && g in added[l] ==> !Tied(f, g))
    }

    ghost function State(l: nat): LevelState
      reads this
      requires Valid() && l < NUM_LEVELS
    {
      LevelState(deleted[l], Elements(added[l]))
    }

    constructor (base: Levels)
      requires |base| == NUM_LEVELS && forall l :: 0 <= l < NUM_LEVELS ==> SortedLevel(base[l])
      ensures Valid() && this.base == base
      ensures forall l :: 0 <= l < NUM_LEVELS ==> State(l) == LevelState({}, {})
    {
      this.base := base;
      deleted := seq(NUM_LEVELS, _ => {});
      added := seq(NUM_LEVELS, _ => []);
    }

    /** No file that an edit adds to a level has number and smallest key of one that is there. */
    ghost predicate FreshFor(e: Edit)
      reads this
      requires Valid()
    {
      && EditOk(e)
      && (forall i, f :: 0 <= i < |e.added| && f in base[e.added[i].0] + added[e.added[i].0] ==>
           !Tied(f, e.added[i].1))
      && (forall i, j :: 0 <= i < j < |e.added| && e.added[i].0 == e.added[j].0 ==>
           !Tied(e.added[i].1, e.added[j].1))
    }

    /** One added file: it cancels a deletion of its number and joins the sorted set. */
    method AddFile(l: nat, f: File)
      requires Valid() && l < NUM_LEVELS
      requires forall g :: g in base[l] || g in added[l] ==> !Tied(g, f)
      modifies this
      ensures Valid()
      ensures deleted == old(deleted)[l := old(deleted)[l] - {f.number}]
      ensures |added| == |old(added)| && forall m :: 0 <= m < NUM_LEVELS && m != l ==> added[m] == old(added)[m]
      ensures Elements(added[l]) == Elements(old(added)[l]) + {f}
    {
      hide SortedLevel, BySmallest;
      var merged := InsertBySmallest(added[l], f) by {
        forall g | g in added[l]
          ensures !Tied(f, g)
        {
          TiedMeansSame(f, g);
        }
      }
      forall b, g | b in base[l] && g in merged
        ensures !Tied(b, g)
      {
        TiedMeansSame(b, g);
        assert g in Elements(merged);
      }
      deleted := deleted[l := deleted[l] - {f.number}];
      added := added[l := merged];
    }

    /** The numbers already added from this edit do not clash with the next one. */
    lemma NextIsNew(st: LevelState, e: Edit, i: nat)
      requires Valid() && EditOk(e) && i < |e.added|
      requires forall j :: 0 <= j < i && e.added[j].0 == e.added[i].0 ==> !Tied(e.added[j].1, e.added[i].1)
      requires forall f :: f in base[e.added[i].0] || f in st.added ==> !Tied(f, e.added[i].1)
      requires State(e.added[i].0) == ApplyPrefix(st, e, e.added[i].0, i)
      ensures forall f :: f in base[e.added[i].0] || f in added[e.added[i].0] ==> !Tied(f, e.added[i].1)
    {
      var l := e.added[i].0;
      forall f | f in added[l]
        ensures !Tied(f, e.added[i].1)
      {
        assert f in Elements(added[l]);
        if f in AddedAt(e.added[..i], l) {
          var p :| p in e.added[..i] && p.0 == l && p.1 == f;
          var j :| 0 <= j < i && e.added[j] == p;
        }
      }
    }

    method Apply(e: Edit)
      requires Valid() && FreshFor(e)
      modifies this
      ensures Valid()
      ensures forall l :: 0 <= l < NUM_LEVELS ==> State(l) == ApplyAt(old(State(l)), e, l)
    {
      ghost var before := seq(NUM_LEVELS, l requires 0 <= l < NUM_LEVELS reads this requires Valid() => State(l));
      deleted := seq(NUM_LEVELS, l requires 0 <= l < |deleted| reads this => deleted[l] + DeletedAt(e, l));
      PrefixStart(before, e);
      assert forall l :: 0 <= l < NUM_LEVELS ==> State(l) == ApplyPrefix(before[l], e, l, 0);
      AddFiles(before, e);
      PrefixEnd(before, e);
    }

    /** The loop over the added files. */
    method AddFiles(ghost before: seq<LevelState>, e: Edit)
      requires Valid() && EditOk(e) && |before| == NUM_LEVELS
      requires forall l :: 0 <= l < NUM_LEVELS ==> State(l) == ApplyPrefix(before[l], e, l, 0)
      requires forall i, f :: 0 <= i < |e.added| && (f in base[e.added[i].0] || f in before[e.added[i].0].added) ==>
                 !Tied(f, e.added[i].1)
      requires forall i, j :: 0 <= i < j < |e.added| && e.added[i].0 == e.added[j].0 ==>
                 !Tied(e.added[i].1, e.added[j].1)
      modifies this
      ensures Valid()
      ensures forall l :: 0 <= l < NUM_LEVELS ==> State(l) == ApplyPrefix(before[l], e, l, |e.added|)
    {
      hide SortedLevel, Tied, ApplyPrefix, Elements;
      var i := 0;
      while i < |e.added|
        invariant 0 <= i <= |e.added| && Valid()
        invariant forall l :: 0 <= l < NUM_LEVELS ==> State(l) == ApplyPrefix(before[l], e, l, i)
      {
        var (l, f) := e.added[i];
        NextIsNew(before[l], e, i);
        ghost var was := seq(NUM_LEVELS, m requires 0 <= m < NUM_LEVELS reads this requires Valid() => State(m));
        AddFile(l, f);
        forall m | 0 <= m < NUM_LEVELS
          ensures State(m) == ApplyPrefix(before[m], e, m, i + 1)
        {
          PrefixNext(before[m], e, m, i);
          assert was[m] == ApplyPrefix(before[m], e, m, i);
        }
        i := i + 1;
      }
    }

    method SaveTo() returns (r: Levels)
      requires Valid()
      ensures |r| == NUM_LEVELS
      ensures forall l :: 0 <= l < NUM_LEVELS ==>
                && SortedLevel(r[l])
                && Elements(r[l]) == Remaining(Elements(base[l]), State(l).deleted, State(l).added)
    {
      r := [];
      var l := 0;
      while l < NUM_LEVELS
        invariant 0 <= l <= NUM_LEVELS && |r| == l
        invariant forall m :: 0 <= m < l ==>
                    && SortedLevel(r[m])
                    && Elements(r[m]) == Remaining(Elements(base[m]), State(m).deleted, State(m).added)
      {
        var level := MergeLevel(base[l], deleted[l], added[l]);
        r := r + [level];
        l := l + 1;
      }
    }
  }

  /** Part of an edit: all its deletions and the first i of its additions. */
  function ApplyPrefix(st: LevelState, e: Edit, l: nat, i: nat): LevelState
    requires i <= |e.added|
  {
    var plus := AddedAt(e.added[..i], l);
    LevelState(st.deleted + DeletedAt(e, l) - Numbers(plus), st.added + plus)
  }

  lemma PrefixStart(before: seq<LevelState>, e: Edit)
    requires |before| == NUM_LEVELS
    ensures forall l :: 0 <= l < NUM_LEVELS ==>
              ApplyPrefix(before[l], e, l, 0) == LevelState(before[l].deleted + DeletedAt(e, l), before[l].added)
  {
    forall l | 0 <= l < NUM_LEVELS
      ensures AddedAt(e.added[..0], l) == {}
    {
    }
  }

  lemma PrefixEnd(before: seq<LevelState>, e: Edit)
    requires |before| == NUM_LEVELS
    ensures forall l :: 0 <= l < NUM_LEVELS ==> ApplyPrefix(before[l], e, l, |e.added|) == ApplyAt(before[l], e, l)
  {
    assert e.added[..|e.added|] == e.added;
  }

  lemma PrefixNext(st: LevelState, e: Edit, l: nat, i: nat)
    requires i < |e.added|
    ensures ApplyPrefix(st, e, l, i + 1)
         == var p, f := ApplyPrefix(st, e, l, i), e.added[i].1;
            if e.added[i].0 == l then LevelState(p.deleted - {f.number}, p.added + {f}) else p
  {
    var f := e.added[i].1;
    assert e.added[..i + 1] == e.added[..i] + [e.added[i]];
    assert AddedAt(e.added[..i + 1], l) == AddedAt(e.added[..i], l) + if e.added[i].0 == l then {f} else {} by {
      assert e.added[i] in e.added[..i + 1];
    }
    assert Numbers(AddedAt(e.added[..i + 1], l))
        == Numbers(AddedAt(e.added[..i], l)) + if e.added[i].0 == l then {f.number} else {};
  }
}
