/** Installing a version edit, and what the edits of flushes, moves and compactions do. */
module VersionSets {
  import opened InternalKeys
  import opened Options
  import opened Files
  import opened Selection
  import opened Picking
  import opened Versions
  import opened VersionChanges
  import opened VersionBuilder

  const MAX_MEM_COMPACT_LEVEL: nat := 2

  /** May the table of a memtable that spans [lo, hi] be put at `level`? */
  ghost predicate MaySink(levels: Levels, lo: UserKey, hi: UserKey, maxFileSize: nat, level: nat)
    requires |levels| == NUM_LEVELS
  {
    && FlushLevel(levels, lo, hi, level)
    && forall l :: 2 <= l <= level + 1 && l < NUM_LEVELS ==>
         TotalFileSize(Meeting(levels[l], lo, hi)) <= 10 * maxFileSize
  }

  lemma SomeFileMeets(files: seq<File>, lo: UserKey, hi: UserKey)
    ensures (exists f :: f in files && Overlaps(f, Some(lo), Some(hi))) <==>
              (exists f :: f in files && Meets(f, lo, hi))
  {
  }

  /** The deepest admissible level: one level at a time while nothing overlaps. */
  method PickLevelForMemTableOutput(levels: Levels, lo: UserKey, hi: UserKey, maxFileSize: nat) returns (level: nat)
    requires RangesOk(levels)
    ensures MaySink(levels, lo, hi, maxFileSize, level)
    ensures level < 2 ==> !MaySink(levels, lo, hi, maxFileSize, level + 1)
  {
    hide Ascending, Unrepeated, Overlaps, TotalFileSize, Meeting;
    level := 0;
    var overlap := SomeFileOverlapsRange(false, levels[0], Some(lo), Some(hi));
    SomeFileMeets(levels[0], lo, hi);
    if overlap {
      var f :| f in levels[0] && Meets(f, lo, hi);
      assert InLevel(levels, 0, f);
      return;
    }
    while level < MAX_MEM_COMPACT_LEVEL
      invariant level <= MAX_MEM_COMPACT_LEVEL
      invariant MaySink(levels, lo, hi, maxFileSize, level)
      invariant forall l, f :: l <= level && InLevel(levels, l, f) ==> !Meets(f, lo, hi)
    {
      overlap := SomeFileOverlapsRange(true, levels[level + 1], Some(lo), Some(hi));
      SomeFileMeets(levels[level + 1], lo, hi);
      if overlap {
        var f :| f in levels[level + 1] && Meets(f, lo, hi);
        assert InLevel(levels, level + 1, f);
        return;
      }
      var overlaps, _, _ := GetOverlappingInputs(levels[level + 2], false, lo, hi);
      if TotalFileSize(overlaps) > MaxGrandParentOverlapBytes(maxFileSize) {
        return;
      }
      level := level + 1;
    }
  }

  // ---------- The edits ----------

  /** What an edit says: `upper` leaves level L, `lower` leaves and `added` enters level L + 1. */
  ghost predicate Says(e: Edit, L: int, upper: seq<File>, lower: seq<File>, added: seq<File>) {
    && (forall p :: p in e.deleted <==>
          || (exists f :: f in upper && p.0 == L && p.1 == f.number)
          || (exists f :: f in lower && p.0 == L + 1 && p.1 == f.number))
    && |e.added| == |added| && 0 <= L + 1
    && forall i :: 0 <= i < |added| ==> e.added[i].0 == L + 1 && e.added[i].1 == added[i]
  }

  /** The added files have numbers of their own at their new level. */
  ghost predicate FreshThere(levels: Levels, L: int, added: seq<File>) {
    && (forall i, j :: 0 <= i < j < |added| ==> added[i].number != added[j].number)
    && (forall f, g :: f in added && InLevel(levels, L + 1, g) ==> f.number != g.number)
  }

  lemma AddedThere(e: Edit, L: int, upper: seq<File>, lower: seq<File>, added: seq<File>, l: nat)
    requires Says(e, L, upper, lower, added)
    ensures forall f :: f in AddedAt(e.added, l) <==> l == L + 1 && f in added
  {
    forall f
      ensures f in AddedAt(e.added, l) <==> l == L + 1 && f in added
    {
      if f in AddedAt(e.added, l) {
        var p :| p in e.added && p.0 == l && p.1 == f;
        var i :| 0 <= i < |e.added| && e.added[i] == p;
        assert added[i] in added;
      }
      if l == L + 1 && f in added {
        var i :| 0 <= i < |added| && added[i] == f;
        assert e.added[i] in e.added;
        assert e.added[i] == (L + 1, f);
      }
    }
  }

  lemma DeletedThere(e: Edit, L: int, upper: seq<File>, lower: seq<File>, added: seq<File>, l: nat, n: nat)
    requires Says(e, L, upper, lower, added)
    ensures n in DeletedAt(e, l) <==>
              (exists f :: f in upper && l == L && n == f.number)
                || (exists f :: f in lower && l == L + 1 && n == f.number)
  {
    assert n in DeletedAt(e, l) <==> (l, n) in e.deleted;
  }

  /** A file of the base stays exactly when it is not among those that leave. */
  lemma BaseFileStays(levels: Levels, e: Edit, L: int, upper: seq<File>, lower: seq<File>, added: seq<File>, l: nat,
                      f: File)
    requires Shape(levels) && Says(e, L, upper, lower, added) && FreshThere(levels, L, added)
    requires forall g :: g in upper ==> InLevel(levels, L, g)
    requires forall g :: g in lower ==> InLevel(levels, L + 1, g)
    requires InLevel(levels, l, f)
    ensures f.number in DeletedAt(e, l) - Numbers(AddedAt(e.added, l)) <==> !Untouched(levels, L, upper, lower, l, f)
  {
    hide FileOk, SortedLevel, Apart;
    AddedThere(e, L, upper, lower, added, l);
    assert f.number !in Numbers(AddedAt(e.added, l));
    DeletedThere(e, L, upper, lower, added, l, f.number);
  }

  /** One level after one edit. */
  lemma RemainingAfter(levels: Levels, e: Edit, L: int, upper: seq<File>, lower: seq<File>, added: seq<File>, l: nat,
                       f: File)
    requires Shape(levels) && |levels| == NUM_LEVELS && l < NUM_LEVELS
    requires Says(e, L, upper, lower, added) && FreshThere(levels, L, added)
    requires forall g :: g in upper ==> InLevel(levels, L, g)
    requires forall g :: g in lower ==> InLevel(levels, L + 1, g)
    ensures var st := ApplyAt(LevelState({}, {}), e, l);
            f in Remaining(Elements(levels[l]), st.deleted, st.added)
            <==> Untouched(levels, L, upper, lower, l, f) || (l == L + 1 && f in added)
  {
    hide Shape, Says, FreshThere, Untouched;
    AddedThere(e, L, upper, lower, added, l);
    if f in AddedAt(e.added, l) {
      assert f.number in Numbers(AddedAt(e.added, l));
    } else if f in levels[l] {
      assert InLevel(levels, l, f);
      BaseFileStays(levels, e, L, upper, lower, added, l, f);
    } else {
      assert !Untouched(levels, L, upper, lower, l, f) by { NotTouchable(levels, L, upper, lower, l, f); }
    }
  }

  lemma NotTouchable(levels: Levels, L: int, upper: seq<File>, lower: seq<File>, l: nat, f: File)
    requires |levels| == NUM_LEVELS && l < NUM_LEVELS && f !in levels[l]
    ensures !Untouched(levels, L, upper, lower, l, f)
  {
  }

  /** LogAndApply without the manifest: a builder turns the current version into the next. */
  method InstallEdit(levels: Levels, e: Edit, ghost L: int, ghost upper: seq<File>, ghost lower: seq<File>,
                     ghost added: seq<File>)
    returns (levels': Levels)
    requires Shape(levels) && L + 1 < NUM_LEVELS
    requires Says(e, L, upper, lower, added) && FreshThere(levels, L, added)
    requires forall g :: g in upper ==> InLevel(levels, L, g)
    requires forall g :: g in lower ==> InLevel(levels, L + 1, g)
    ensures Replaced(levels, levels', L, upper, lower, added)
  {
    hide SortedLevel, FileOk, Apart, Elements, Remaining, ApplyAt, DeletedAt, AddedAt, Numbers, Untouched;
    var builder := new Builder(levels);
    EditIsFresh(levels, builder, e, L, upper, lower, added);
    builder.Apply(e);
    levels' := builder.SaveTo();
    forall l, f
      ensures InLevel(levels', l, f) <==> Untouched(levels, L, upper, lower, l, f) || (l == L + 1 && f in added)
    {
      if 0 <= l < NUM_LEVELS {
        RemainingAfter(levels, e, L, upper, lower, added, l, f);
        assert f in levels'[l] <==> f in Elements(levels'[l]) by { MemberOf(levels'[l], f); }
      } else {
        OutsideLevels(levels, L, upper, lower, l, f);
      }
    }
  }

  lemma MemberOf(fs: seq<File>, f: File)
    ensures f in fs <==> f in Elements(fs)
  {
  }

  lemma OutsideLevels(levels: Levels, L: int, upper: seq<File>, lower: seq<File>, l: int, f: File)
    requires |levels| == NUM_LEVELS && !(0 <= l < NUM_LEVELS)
    ensures !Untouched(levels, L, upper, lower, l, f)
  {
  }

  lemma EditIsFresh(levels: Levels, builder: Builder, e: Edit, L: int, upper: seq<File>, lower: seq<File>,
                    added: seq<File>)
    requires builder.Valid() && builder.base == levels && forall l :: 0 <= l < NUM_LEVELS ==>
               builder.State(l) == LevelState({}, {})
    requires Says(e, L, upper, lower, added) && FreshThere(levels, L, added) && L + 1 < NUM_LEVELS
    ensures builder.FreshFor(e)
  {
    forall i, f | 0 <= i < |e.added| && f in builder.base[e.added[i].0] + builder.added[e.added[i].0]
      ensures f.number != e.added[i].1.number
    {
      ElementsEmpty(builder.added[e.added[i].0]);
      assert builder.State(e.added[i].0).added == {};
      assert added[i] in added && InLevel(levels, L + 1, f);
    }
  }
}
