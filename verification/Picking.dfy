/** From a picked file to the complete inputs of a compaction. */
module Picking {
  import opened InternalKeys
  import opened Options
  import opened Files
  import opened Selection

  const NUM_LEVELS: nat := 7

  type Levels = seq<seq<File>>

  /** The inputs of a compaction: `upper` from `level`, `lower` from the level below
      it.  The upper files span [smallest, largest], all inputs [allStart, allLimit]. */
  datatype Inputs = Inputs(level: nat, upper: seq<File>, lower: seq<File>, grandparents: seq<File>,
                           smallest: InternalKey, largest: InternalKey,
                           allStart: InternalKey, allLimit: InternalKey)

  function TotalFileSize(files: seq<File>): nat {
    if files == [] then 0 else files[0].size + TotalFileSize(files[1..])
  }

  /** A sum over the files. */
  lemma {:induction false} TotalIsSum(a: seq<File>, b: seq<File>)
    ensures TotalFileSize(a + b) == TotalFileSize(a) + TotalFileSize(b)
    ensures forall f :: TotalFileSize([f]) == f.size
  {
    if a == [] {
      assert a + b == b;
    } else {
      TotalIsSum(a[1..], b);
      assert (a + b)[1..] == a[1..] + b;
    }
  }

  function MaxGrandParentOverlapBytes(maxFileSize: nat): nat { 10 * maxFileSize }

  function ExpandedCompactionByteSizeLimit(maxFileSize: nat): nat { 25 * maxFileSize }

  predicate Unrepeated(fs: seq<File>) {
    forall i, j :: 0 <= i < j < |fs| ==> fs[i] != fs[j]
  }

  /** All metadata in the version is well formed; below level 0 files do not overlap. */
  ghost predicate RangesOk(levels: Levels) {
    && |levels| == NUM_LEVELS
    && (forall l, f :: 0 <= l < NUM_LEVELS && f in levels[l] ==> RangeOk(f))
    && Unrepeated(levels[0])
    && (forall l :: 1 <= l < NUM_LEVELS ==> Ascending(levels[l]))
  }

  /** Files of one level: at level 0 each is read through an iterator of its own, at
      the other levels one concatenating iterator reads them all. */
  ghost predicate Readable(fs: seq<File>, level: nat) {
    if level == 0 then Unrepeated(fs) else Ascending(fs)
  }

  /** The inputs are in the order in which the input iterator reads them. */
  ghost predicate InOrder(c: Inputs) {
    Readable(c.upper, c.level) && Ascending(c.lower)
  }

  lemma {:induction false} MeetingUnrepeated(files: seq<File>, lo: UserKey, hi: UserKey)
    requires Unrepeated(files)
    ensures Unrepeated(Meeting(files, lo, hi))
  {
    if files != [] {
      var n := |files| - 1;
      MeetingUnrepeated(files[..n], lo, hi);
      forall f | f in Meeting(files[..n], lo, hi)
        ensures f != files[n]
      {
        var i :| 0 <= i < n && files[..n][i] == f;
      }
    }
  }

  lemma {:induction false} MeetingAscends(files: seq<File>, lo: UserKey, hi: UserKey)
    requires Ascending(files)
    ensures Ascending(Meeting(files, lo, hi))
  {
    if files != [] {
      var n := |files| - 1;
      MeetingAscends(files[..n], lo, hi);
      forall f | f in Meeting(files[..n], lo, hi)
        ensures Less(f.largest, files[n].smallest)
      {
        var i :| 0 <= i < n && files[..n][i] == f;
      }
    }
  }

  lemma {:induction false} ChainAscends(files: seq<File>, fs: seq<File>, key: InternalKey, chain: seq<File>)
    requires Ascending(fs) && forall f :: f in fs ==> !Less(key, f.largest)
    requires Chain(files, key, chain) && forall f :: f in files ==> RangeOk(f)
    ensures Ascending(fs + chain)
    decreases |chain|
  {
    if chain == [] {
      assert fs + chain == fs;
    } else {
      var b, rest := chain[0], chain[1..];
      assert forall i :: 0 <= i < |fs| ==> fs[i] in fs;
      assert forall i :: 0 <= i < |fs| ==> Less(fs[i].largest, b.smallest);
      ChainAscends(files, fs + [b], b.largest, rest);
      assert fs + [b] + rest == fs + chain;
    }
  }

  // ---------- Neighbours ----------

  /** `fs` are neighbours in their level. */
  ghost predicate IsRun(files: seq<File>, fs: seq<File>) {
    exists i, j :: 0 <= i <= j <= |files| && fs == files[i..j]
  }

  /** The smallest boundary file is the next one of the level. */
  lemma BoundaryIsNext(files: seq<File>, j: nat, key: InternalKey, b: File)
    requires Ascending(files) && 0 < j <= |files| && key == files[j - 1].largest
    requires IsSmallestBoundary(files, key, b)
    ensures j < |files| && files[j] == b
  {
    var m :| 0 <= m < |files| && files[m] == b;
    if j < m {
      assert Less(files[j - 1].largest, files[j].smallest) && Less(files[j].largest, files[m].smallest);
      assert files[j] in files && IsBoundary(files[j], key);
    }
  }

  /** A chain of boundary files continues the run it starts from. */
  lemma {:induction false} ChainContinues(files: seq<File>, i: nat, j: nat, key: InternalKey, chain: seq<File>)
    requires Ascending(files) && i < j <= |files| && key == files[j - 1].largest && Chain(files, key, chain)
    ensures j + |chain| <= |files| && files[i..j] + chain == files[i..j + |chain|]
    decreases |chain|
  {
    if chain != [] {
      hide Ascending, IsSmallestBoundary, IsBoundary;
      var rest := chain[1..];
      BoundaryIsNext(files, j, key, chain[0]);
      ChainContinues(files, i, j + 1, chain[0].largest, rest);
      RunGoesOn(files, i, j, chain, rest);
    }
  }

  lemma RunGoesOn(files: seq<File>, i: nat, j: nat, chain: seq<File>, rest: seq<File>)
    requires i <= j < |files| && chain != [] && chain[0] == files[j] && rest == chain[1..]
    requires j + 1 + |rest| <= |files| && files[i..j + 1] + rest == files[i..j + 1 + |rest|]
    ensures files[i..j] + chain == files[i..j + |chain|]
  {
    assert files[i..j + 1] == files[i..j] + [chain[0]];
    assert chain == [chain[0]] + rest;
  }

  lemma LastIsLargest(files: seq<File>, i: nat, j: nat, key: InternalKey)
    requires Ascending(files) && i <= j <= |files|
    requires exists f :: f in files[i..j] && f.largest == key
    requires forall f :: f in files[i..j] ==> !Less(key, f.largest)
    ensures i < j && key == files[j - 1].largest
  {
    var f :| f in files[i..j] && f.largest == key;
    var m :| i <= m < j && files[m] == f;
    assert files[i..j][j - 1 - i] == files[j - 1];
  }

  lemma ClosedRun(files: seq<File>, before: seq<File>, after: seq<File>, key: InternalKey, chain: seq<File>)
    requires Ascending(files) && IsRun(files, before) && ClosedBy(files, before, after, key, chain)
    ensures IsRun(files, after)
  {
    hide Ascending, Chain, IsBoundary;
    var i, j :| 0 <= i <= j <= |files| && before == files[i..j];
    LastIsLargest(files, i, j, key);
    ChainContinues(files, i, j, key, chain);
  }

  /** In a level in which files do not overlap a range meets neighbours. */
  lemma MeetingIsRun(files: seq<File>, lo: UserKey, hi: UserKey)
    requires Ascending(files)
    ensures IsRun(files, Meeting(files, lo, hi))
  {
    hide Ascending, Meeting, Meets;
    var i, j := MetRange(files, lo, hi);
    MeetingUpTo(files, lo, hi, i, j, |files|);
    assert files[..|files|] == files && Meeting(files, lo, hi) == files[i..j];
  }

  lemma MetRange(files: seq<File>, lo: UserKey, hi: UserKey) returns (i: nat, j: nat)
    requires Ascending(files)
    ensures i <= j <= |files| && forall m :: 0 <= m < |files| ==> (Meets(files[m], lo, hi) <==> i <= m < j)
  {
    hide Ascending;
    i := 0;
    while i < |files| && Hi(files[i]) < lo
      invariant 0 <= i <= |files| && forall m :: 0 <= m < i ==> Hi(files[m]) < lo
    {
      i := i + 1;
    }
    j := i;
    while j < |files| && Lo(files[j]) <= hi
      invariant i <= j <= |files| && forall m :: i <= m < j ==> Lo(files[m]) <= hi
    {
      j := j + 1;
    }
    forall m | 0 <= m < |files|
      ensures Meets(files[m], lo, hi) <==> i <= m < j
    {
      if i <= m {
        NextReaches(files, i, m);
      }
      if j <= m {
        NextReaches(files, j, m);
      }
    }
  }

  lemma MeetingNothing(lo: UserKey, hi: UserKey)
    ensures Meeting([], lo, hi) == []
  {
  }

  lemma {:induction false} MeetingUpTo(files: seq<File>, lo: UserKey, hi: UserKey, i: nat, j: nat, n: nat)
    requires i <= j <= |files| && n <= |files|
    requires forall m :: 0 <= m < |files| ==> (Meets(files[m], lo, hi) <==> i <= m < j)
    ensures Meeting(files[..n], lo, hi) == if n <= i then [] else if n <= j then files[i..n] else files[i..j]
  {
    hide Meets, Meeting;
    if n == 0 {
      assert Meeting(files[..n], lo, hi) == [] by { MeetingNothing(lo, hi); }
    } else {
      MeetingUpTo(files, lo, hi, i, j, n - 1);
      MeetingNext(files, n - 1, lo, hi);
      if i < n <= j {
        assert files[i..n] == files[i..n - 1] + [files[n - 1]];
      }
    }
  }

  /** Both ends of the ranges increase along a level. */
  lemma NextReaches(files: seq<File>, i: nat, j: nat)
    requires Ascending(files) && i <= j < |files|
    ensures Lo(files[i]) <= Lo(files[j]) && Hi(files[i]) <= Hi(files[j])
  {
    assert i == j || Less(files[i].largest, files[j].smallest);
  }

  /** No file outside `fs` touches [lo, hi]. */
  ghost predicate Isolated(files: seq<File>, fs: seq<File>, lo: UserKey, hi: UserKey) {
    forall g :: g in files && g !in fs ==> !Meets(g, lo, hi)
  }

  /** `key` is the largest key of `fs`, and no file of the level continues it. */
  ghost predicate NoBoundaryLeft(files: seq<File>, fs: seq<File>, key: InternalKey) {
    && (exists g :: g in fs && g.largest == key)
    && (forall g :: g in fs ==> !Less(key, g.largest))
    && (forall f :: f in files ==> !IsBoundary(f, key))
  }

  /** Inputs that fit together: the lower level contributes exactly the files that
      meet the range of the upper inputs, together they leave no gap, and nothing
      of the upper level that belongs to them is missing.  Below level 0 the upper
      inputs are neighbours. */
  ghost predicate Fit(levels: Levels, c: Inputs) {
    && c.level + 1 < |levels|
    && (forall f :: f in c.upper ==> f in levels[c.level])
    && Hull(c.upper, c.smallest.user, c.largest.user)
    && IsMeeting(c.lower, levels[c.level + 1], c.smallest.user, c.largest.user)
    && Gapless(c.upper + c.lower, c.allStart.user, c.allLimit.user)
    && NoBoundaryLeft(levels[c.level], c.upper, c.largest)
    && (c.level == 0 ==> Isolated(levels[0], c.upper, c.smallest.user, c.largest.user))
    && (c.level > 0 ==> IsRun(levels[c.level], c.upper))
  }

  // ---------- Which files are taken ----------

  ghost predicate WithBoundary(files: seq<File>, before: seq<File>, after: seq<File>) {
    exists key, chain :: ClosedBy(files, before, after, key, chain)
  }

  /** The files that meet [lo, hi]; at level 0 those that meet the least closed range around it. */
  ghost predicate AreMet(files: seq<File>, level: nat, lo: UserKey, hi: UserKey, met: seq<File>) {
    if level > 0 then met == Meeting(files, lo, hi)
    else exists a, b :: LeastClosed(files, lo, hi, a, b) && met == Meeting(files, a, b)
  }

  /** The picked files with their boundary files, and their range; the range of these and the
      lower files; the files that meet it, the same with their boundary files, and their range. */
  datatype Growth = Growth(first: seq<File>, lo: UserKey, hi: UserKey, allLo: UserKey, allHi: UserKey,
                           met: seq<File>, expanded: seq<File>, newLo: UserKey, newHi: UserKey)

  ghost predicate GrowthIs(levels: Levels, level: nat, picked: seq<File>, lower: seq<File>, g: Growth)
    requires level + 1 < |levels|
  {
    && WithBoundary(levels[level], picked, g.first) && Hull(g.first, g.lo, g.hi)
    && lower == Meeting(levels[level + 1], g.lo, g.hi)
    && (lower != [] ==>
         && Hull(g.first + lower, g.allLo, g.allHi)
         && AreMet(levels[level], level, g.allLo, g.allHi, g.met)
         && WithBoundary(levels[level], g.met, g.expanded) && Hull(g.expanded, g.newLo, g.newHi))
  }

  /** The upper inputs grow to the expanded ones exactly when those are more, meet no further
      lower file, and all inputs together are small enough. */
  ghost predicate GrowsRight(levels: Levels, c: Inputs, maxFileSize: nat, g: Growth)
    requires c.level + 1 < |levels|
  {
    c.upper == if c.lower != [] && |g.expanded| > |g.first|
                  && TotalFileSize(c.lower) + TotalFileSize(g.expanded) < 25 * maxFileSize
                  && |Meeting(levels[c.level + 1], g.newLo, g.newHi)| == |c.lower|
               then g.expanded else g.first
  }

  /** What SetupOtherInputs promises about the inputs it completes. */
  ghost predicate Selected(levels: Levels, c: Inputs) {
    && Fit(levels, c)
    && if c.level + 2 < |levels|
       then IsMeeting(c.grandparents, levels[c.level + 2], c.allStart.user, c.allLimit.user)
       else c.grandparents == []
  }

  lemma HullUnique(fs: seq<File>, lo: UserKey, hi: UserKey, lo': UserKey, hi': UserKey)
    requires Hull(fs, lo, hi) && Hull(fs, lo', hi')
    ensures lo == lo' && hi == hi'
  {
  }

  lemma ClosureLeavesNoBoundary(files: seq<File>, before: seq<File>, after: seq<File>,
                                key: InternalKey, chain: seq<File>, largest: InternalKey)
    requires ClosedBy(files, before, after, key, chain)
    requires forall f :: f in files || f in before ==> RangeOk(f)
    requires (exists f :: f in after && f.largest == largest) && forall f :: f in after ==> !Less(largest, f.largest)
    ensures NoBoundaryLeft(files, after, largest)
    ensures forall f :: f in before ==> f in after
    ensures forall f :: f in after ==> f in before || f in files
  {
    ChainMembers(files, key, chain);
    var end := ChainEnd(key, chain);
    if chain != [] {
      assert chain[|chain| - 1] in after;
    }
  }

  /** Isolated inputs gain nothing from AddBoundaryInputs. */
  lemma IsolatedNeedsNoBoundary(files: seq<File>, before: seq<File>, after: seq<File>, key: InternalKey,
                                chain: seq<File>,
                                lo: UserKey, hi: UserKey)
    requires ClosedBy(files, before, after, key, chain)
    requires Isolated(files, before, lo, hi) && lo <= key.user <= hi
    requires forall f :: f in files || f in before ==> RangeOk(f)
    ensures after == before
  {
  }

  method SetupOtherInputs(levels: Levels, level: nat, picked: seq<File>, ghost lo: UserKey, ghost hi: UserKey,
                          maxFileSize: nat)
    returns (c: Inputs, ghost g: Growth)
    requires RangesOk(levels) && level + 1 < NUM_LEVELS
    requires forall f :: f in picked ==> f in levels[level]
    requires Gapless(picked, lo, hi)
    requires if level == 0 then Isolated(levels[0], picked, lo, hi) else IsRun(levels[level], picked)
    requires Readable(picked, level)
    ensures c.level == level && Selected(levels, c) && InOrder(c)
    ensures forall f :: f in picked ==> f in c.upper
    ensures GrowthIs(levels, level, picked, c.lower, g) && GrowsRight(levels, c, maxFileSize, g)
  {
    hide Hull, Ascending, Gapless, Isolated, NoBoundaryLeft, IsMeeting, LeastClosed, IsRun, GrowthIs, WithBoundary,
         Meeting;
    c := FirstInputs(levels, level, picked, lo, hi);
    g := Growth(c.upper, c.smallest.user, c.largest.user, c.allStart.user, c.allLimit.user, [], [], 0.0, 0.0);
    FirstGrowth(levels, picked, c, maxFileSize, g);
    if c.lower != [] {
      c, g := GrowUpper(levels, c, maxFileSize, picked);
    }
    if level + 2 < NUM_LEVELS {
      var overlaps, _, _ := GetOverlappingInputs(levels[level + 2], false, c.allStart.user, c.allLimit.user);
      c := c.(grandparents := overlaps);
    }
  }

  /** The first part of SetupOtherInputs: boundary files, then the lower level. */
  method FirstInputs(levels: Levels, level: nat, picked: seq<File>, ghost lo: UserKey, ghost hi: UserKey)
    returns (c: Inputs)
    requires RangesOk(levels) && level + 1 < NUM_LEVELS
    requires forall f :: f in picked ==> f in levels[level]
    requires Gapless(picked, lo, hi)
    requires if level == 0 then Isolated(levels[0], picked, lo, hi) else IsRun(levels[level], picked)
    requires Readable(picked, level)
    ensures c.level == level && Fit(levels, c) && c.grandparents == [] && InOrder(c)
    ensures forall f :: f in picked ==> f in c.upper
    ensures WithBoundary(levels[level], picked, c.upper)
  {
    hide Ascending, Covered, Unrepeated, NoBoundaryLeft, IsMeeting, CoveredAt, Isolated, IsRun, ClosedBy, Fit, RangeOk;
    var upper, key, chain := AddBoundaryInputs(levels[level], picked) by { PickedRanges(levels, level, picked); }
    assert picked != [] by { SomeFile(picked, lo, hi); }
    FirstUpper(levels, level, picked, lo, hi, upper, key, chain);
    var smallest, largest := GetRange(upper);
    var lower, _, _ := GetOverlappingInputs(levels[level + 1], false, smallest.user, largest.user);
    var allStart, allLimit := GetRange(upper + lower);
    c := Inputs(level, upper, lower, [], smallest, largest, allStart, allLimit);
    StartFits(levels, c, picked, lo, hi, key, chain);
    LowerAscends(levels, level + 1, lower, smallest.user, largest.user);
  }

  lemma PickedRanges(levels: Levels, level: nat, picked: seq<File>)
    requires RangesOk(levels) && level < NUM_LEVELS && forall f :: f in picked ==> f in levels[level]
    ensures forall f :: f in levels[level] || f in picked ==> RangeOk(f)
  {
  }

  lemma SomeFile(fs: seq<File>, lo: UserKey, hi: UserKey)
    requires Gapless(fs, lo, hi)
    ensures fs != []
  {
  }

  lemma LowerAscends(levels: Levels, level: nat, lower: seq<File>, lo: UserKey, hi: UserKey)
    requires RangesOk(levels) && 0 < level < NUM_LEVELS && IsMeeting(lower, levels[level], lo, hi)
    ensures Ascending(lower)
  {
    hide Ascending, Meeting, Unrepeated;
    MeetingAscends(levels[level], lo, hi);
  }

  /** The picked files with their boundary files. */
  lemma FirstUpper(levels: Levels, level: nat, picked: seq<File>, lo: UserKey, hi: UserKey, upper: seq<File>,
                   key: InternalKey, chain: seq<File>)
    requires RangesOk(levels) && level < NUM_LEVELS
    requires forall f :: f in picked ==> f in levels[level]
    requires Gapless(picked, lo, hi) && Readable(picked, level)
    requires if level == 0 then Isolated(levels[0], picked, lo, hi) else IsRun(levels[level], picked)
    requires ClosedBy(levels[level], picked, upper, key, chain)
    ensures Readable(upper, level) && (level > 0 ==> IsRun(levels[level], upper)) && upper != []
  {
    hide Ascending, Meeting, Covered, Unrepeated, CoveredAt, Isolated, IsRun, Chain, IsBoundary;
    if level > 0 {
      ChainAscends(levels[level], picked, key, chain);
      ClosedRun(levels[level], picked, upper, key, chain);
    } else {
      var f :| f in picked && f.largest == key;
      assert f in levels[level] && RangeOk(f);
      IsolatedNeedsNoBoundary(levels[0], picked, upper, key, chain, lo, hi);
    }
  }

  /** The upper files that meet the range of all inputs, closed under boundaries. */
  ghost predicate Expansion(files: seq<File>, c: Inputs, base: seq<File>, lo: UserKey, hi: UserKey,
                            expanded: seq<File>, key: InternalKey, chain: seq<File>) {
    && IsMeeting(base, files, lo, hi) && lo <= c.allStart.user && c.allLimit.user <= hi
    && (c.level == 0 ==> Closed(files, lo, hi))
    && (forall x :: lo <= x <= hi ==> c.allStart.user <= x <= c.allLimit.user || CoveredAt(base, x))
    && ClosedBy(files, base, expanded, key, chain)
  }

  lemma FirstGrowth(levels: Levels, picked: seq<File>, c: Inputs, maxFileSize: nat, g: Growth)
    requires c.level + 1 < |levels| && Fit(levels, c) && WithBoundary(levels[c.level], picked, c.upper)
    requires g.first == c.upper && g.lo == c.smallest.user && g.hi == c.largest.user
    ensures c.lower == [] ==> GrowthIs(levels, c.level, picked, c.lower, g) && GrowsRight(levels, c, maxFileSize, g)
  {
    hide Hull, Meeting, Gapless, Isolated, NoBoundaryLeft, IsRun, WithBoundary;
  }

  method Expand(levels: Levels, c: Inputs)
    returns (expanded: seq<File>, ghost base: seq<File>, ghost lo: UserKey, ghost hi: UserKey, ghost key: InternalKey,
             ghost chain: seq<File>)
    requires RangesOk(levels) && c.level + 1 < NUM_LEVELS
    requires Fit(levels, c)
    ensures Expansion(levels[c.level], c, base, lo, hi, expanded, key, chain) && expanded != []
    ensures forall f :: f in expanded ==> f in levels[c.level]
    ensures AreMet(levels[c.level], c.level, c.allStart.user, c.allLimit.user, base)
    ensures WithBoundary(levels[c.level], base, expanded)
  {
    hide Ascending, Covered, Isolated, NoBoundaryLeft, Meeting, Unrepeated, Chain, IsBoundary;
    var files := levels[c.level];
    var found, lo', hi' := GetOverlappingInputs(files, c.level == 0, c.allStart.user, c.allLimit.user);
    UpperInBase(c, found, files, lo', hi');
    expanded, key, chain := AddBoundaryInputs(files, found);
    base, lo, hi := found, lo', hi';
    ChainMembers(files, key, chain);
  }

  /** The middle part of SetupOtherInputs: take more upper files when that picks
      up no further lower file and the whole stays under the size limit. */
  method GrowUpper(levels: Levels, c: Inputs, maxFileSize: nat, ghost picked: seq<File>)
    returns (c': Inputs, ghost g: Growth)
    requires RangesOk(levels) && c.level + 1 < NUM_LEVELS
    requires Fit(levels, c) && c.grandparents == [] && InOrder(c)
    requires WithBoundary(levels[c.level], picked, c.upper) && c.lower != []
    ensures c'.level == c.level && Fit(levels, c') && c'.grandparents == [] && InOrder(c')
    ensures c'.lower == c.lower
    ensures forall f :: f in c.upper ==> f in c'.upper
    ensures GrowthIs(levels, c.level, picked, c'.lower, g) && GrowsRight(levels, c', maxFileSize, g)
  {
    hide Expansion, Fit, Readable, WithBoundary, AreMet, Hull, GrowthIs, Meeting;
    c' := c;
    var expanded, base, lo, hi, key, chain := Expand(levels, c);
    ghost var newLo, newHi := HullExists(expanded);
    g := Growth(c.upper, c.smallest.user, c.largest.user, c.allStart.user, c.allLimit.user, base, expanded,
                newLo, newHi);
    SecondGrowth(levels, picked, c, g);
    if |expanded| > |c.upper|
       && TotalFileSize(c.lower) + TotalFileSize(expanded) < ExpandedCompactionByteSizeLimit(maxFileSize) {
      c' := TryExpanded(levels, c, expanded, base, lo, hi, key, chain, newLo, newHi);
    }
  }

  /** Take the expanded inputs if they meet no more lower files than before. */
  method TryExpanded(levels: Levels, c: Inputs, expanded: seq<File>, ghost base: seq<File>, ghost lo: UserKey,
                     ghost hi: UserKey, ghost key: InternalKey, ghost chain: seq<File>, ghost newLo: UserKey,
                     ghost newHi: UserKey)
    returns (c': Inputs)
    requires RangesOk(levels) && c.level + 1 < NUM_LEVELS
    requires Fit(levels, c) && c.grandparents == [] && InOrder(c)
    requires Expansion(levels[c.level], c, base, lo, hi, expanded, key, chain) && expanded != []
    requires Hull(expanded, newLo, newHi)
    ensures c'.level == c.level && Fit(levels, c') && c'.grandparents == [] && InOrder(c')
    ensures c'.lower == c.lower && forall f :: f in c.upper ==> f in c'.upper
    ensures c'.upper == if |Meeting(levels[c.level + 1], newLo, newHi)| == |c.lower| then expanded else c.upper
  {
    hide Expansion, Fit, Readable, Meeting;
    c' := c;
    var newStart, newLimit := GetRange(expanded);
    HullUnique(expanded, newLo, newHi, newStart.user, newLimit.user);
    var expanded1, _, _ := GetOverlappingInputs(levels[c.level + 1], false, newStart.user, newLimit.user);
    if |expanded1| == |c.lower| {
      var allStart, allLimit := GetRange(expanded + expanded1);
      c' := Inputs(c.level, expanded, expanded1, [], newStart, newLimit, allStart, allLimit);
      GrownFits(levels, c, c', base, lo, hi, key, chain);
      ExpansionReadable(levels[c.level], c, lo, hi, base, expanded, key, chain);
    }
  }

  lemma SecondGrowth(levels: Levels, picked: seq<File>, c: Inputs, g: Growth)
    requires c.level + 1 < |levels| && Fit(levels, c) && WithBoundary(levels[c.level], picked, c.upper)
    requires g.first == c.upper && g.lo == c.smallest.user && g.hi == c.largest.user
    requires g.allLo == c.allStart.user && g.allHi == c.allLimit.user
    requires AreMet(levels[c.level], c.level, g.allLo, g.allHi, g.met)
    requires WithBoundary(levels[c.level], g.met, g.expanded) && Hull(g.expanded, g.newLo, g.newHi)
    ensures GrowthIs(levels, c.level, picked, c.lower, g)
  {
    hide Hull, Meeting, Isolated, NoBoundaryLeft, IsRun, WithBoundary, AreMet;
  }

  lemma UpperInBase(c: Inputs, base: seq<File>, files: seq<File>, lo: UserKey, hi: UserKey)
    requires forall f :: f in c.upper ==> f in files && RangeOk(f)
    requires Hull(c.upper + c.lower, c.allStart.user, c.allLimit.user)
    requires IsMeeting(base, files, lo, hi) && lo <= c.allStart.user && c.allLimit.user <= hi
    ensures forall f :: f in c.upper ==> f in base
    ensures c.upper != [] ==> base != []
  {
    forall f | f in c.upper
      ensures f in base
    {
      assert f in c.upper + c.lower;
    }
    if c.upper != [] {
      assert c.upper[0] in base;
    }
  }

  /** Lower-level files that meet the upper range leave no gap. */
  lemma BothCover(upper: seq<File>, lower: seq<File>, lo: UserKey, hi: UserKey, lo': UserKey, hi': UserKey)
    requires Gapless(upper, lo, hi)
    requires forall f :: f in lower ==> Meets(f, lo, hi)
    requires forall f :: f in upper ==> RangeOk(f)
    requires Hull(upper + lower, lo', hi')
    ensures Gapless(upper + lower, lo', hi')
  {
    CoverMore(upper, upper + lower, lo, hi);
    CoverExtends(upper + lower, lo, hi, lo', hi');
  }

  lemma StartFits(levels: Levels, c: Inputs, picked: seq<File>, lo: UserKey, hi: UserKey, key: InternalKey,
                  chain: seq<File>)
    requires RangesOk(levels) && c.level + 1 < NUM_LEVELS
    requires forall f :: f in picked ==> f in levels[c.level]
    requires Gapless(picked, lo, hi)
    requires c.level == 0 ==> Isolated(levels[0], picked, lo, hi)
    requires ClosedBy(levels[c.level], picked, c.upper, key, chain)
    requires c.level > 0 ==> IsRun(levels[c.level], c.upper)
    requires Hull(c.upper, c.smallest.user, c.largest.user)
    requires (exists f :: f in c.upper && f.largest == c.largest) && forall f :: f in c.upper ==>
               !Less(c.largest, f.largest)
    requires IsMeeting(c.lower, levels[c.level + 1], c.smallest.user, c.largest.user)
    requires Hull(c.upper + c.lower, c.allStart.user, c.allLimit.user)
    ensures Fit(levels, c)
    ensures forall f :: f in picked ==> f in c.upper
  {
    hide IsRun, Ascending;
    ClosureLeavesNoBoundary(levels[c.level], picked, c.upper, key, chain, c.largest);
    var hi' := ChainCovers(levels[c.level], picked, lo, hi, key, chain);
    HullUnique(c.upper, lo, hi', c.smallest.user, c.largest.user);
    BothCover(c.upper, c.lower, lo, hi', c.allStart.user, c.allLimit.user);
    if c.level == 0 {
      IsolatedNeedsNoBoundary(levels[0], picked, c.upper, key, chain, lo, hi);
      HullUnique(c.upper, lo, hi', lo, hi);
    }
  }

  lemma GrownIsRun(files: seq<File>, base: seq<File>, lo: UserKey, hi: UserKey, after: seq<File>, key: InternalKey,
                   chain: seq<File>)
    requires Ascending(files) && IsMeeting(base, files, lo, hi) && ClosedBy(files, base, after, key, chain)
    ensures IsRun(files, after)
  {
    hide Ascending, Meeting, Chain, IsBoundary;
    MeetingIsRun(files, lo, hi);
    ClosedRun(files, base, after, key, chain);
  }

  lemma GrownFits(levels: Levels, c: Inputs, d: Inputs, base: seq<File>, lo: UserKey, hi: UserKey, key: InternalKey,
                  chain: seq<File>)
    requires RangesOk(levels) && c.level + 1 < NUM_LEVELS && d.level == c.level
    requires Fit(levels, c)
    requires Expansion(levels[c.level], c, base, lo, hi, d.upper, key, chain)
    requires Hull(d.upper, d.smallest.user, d.largest.user)
    requires (exists f :: f in d.upper && f.largest == d.largest) && forall f :: f in d.upper ==>
               !Less(d.largest, f.largest)
    requires IsMeeting(d.lower, levels[c.level + 1], d.smallest.user, d.largest.user)
    requires |d.lower| == |c.lower|
    requires Hull(d.upper + d.lower, d.allStart.user, d.allLimit.user)
    ensures Fit(levels, d) && d.lower == c.lower
    ensures forall f :: f in c.upper ==> f in d.upper
  {
    hide Covered, Meeting, Isolated, Ascending, Unrepeated, Chain, IsBoundary, NoBoundaryLeft, IsRun;
    UpperInBase(c, base, levels[c.level], lo, hi);
    ClosureLeavesNoBoundary(levels[c.level], base, d.upper, key, chain, d.largest);
    SameLower(levels[c.level + 1], c, d);
    GrowthCovers(levels[c.level], c, d, base, lo, hi, key, chain);
    if c.level == 0 {
      ClosedIsolates(levels[0], base, lo, hi, d, key, chain);
    } else {
      GrownIsRun(levels[c.level], base, lo, hi, d.upper, key, chain);
    }
  }

  lemma ExpansionReadable(files: seq<File>, c: Inputs, lo: UserKey, hi: UserKey, base: seq<File>, after: seq<File>,
                          key: InternalKey, chain: seq<File>)
    requires forall f :: f in files ==> RangeOk(f)
    requires if c.level == 0 then Unrepeated(files) else Ascending(files)
    requires Expansion(files, c, base, lo, hi, after, key, chain)
    ensures Readable(after, c.level)
  {
    hide Ascending, Meeting, Chain, Unrepeated;
    if c.level == 0 {
      MeetingUnrepeated(files, lo, hi);
      assert Isolated(files, base, lo, hi);
      var f :| f in base && f.largest == key;
      IsolatedNeedsNoBoundary(files, base, after, key, chain, lo, hi);
    } else {
      MeetingAscends(files, lo, hi);
      ChainAscends(files, base, key, chain);
    }
  }

  /** Growing the upper inputs without adding to the number of lower files keeps those files. */
  lemma SameLower(files: seq<File>, c: Inputs, d: Inputs)
    requires Hull(c.upper, c.smallest.user, c.largest.user) && Hull(d.upper, d.smallest.user, d.largest.user)
    requires forall f :: f in c.upper ==> f in d.upper
    requires IsMeeting(c.lower, files, c.smallest.user, c.largest.user)
    requires IsMeeting(d.lower, files, d.smallest.user, d.largest.user)
    requires |d.lower| == |c.lower|
    ensures d.lower == c.lower
  {
    MeetingGrows(files, c.smallest.user, c.largest.user, d.smallest.user, d.largest.user);
  }

  /** Level 0: the files of a closed range are isolated in their own range. */
  lemma ClosedIsolates(files: seq<File>, base: seq<File>, lo: UserKey, hi: UserKey, d: Inputs, key: InternalKey,
                       chain: seq<File>)
    requires forall f :: f in files ==> RangeOk(f)
    requires IsMeeting(base, files, lo, hi) && Closed(files, lo, hi)
    requires ClosedBy(files, base, d.upper, key, chain)
    requires Hull(d.upper, d.smallest.user, d.largest.user)
    ensures Isolated(files, d.upper, d.smallest.user, d.largest.user)
  {
    assert Isolated(files, base, lo, hi);
    var f :| f in base && f.largest == key;
    IsolatedNeedsNoBoundary(files, base, d.upper, key, chain, lo, hi);
    assert lo <= d.smallest.user && d.largest.user <= hi;
  }

  lemma GrowthCovers(files: seq<File>, c: Inputs, d: Inputs, base: seq<File>, lo: UserKey, hi: UserKey,
                     key: InternalKey, chain: seq<File>)
    requires forall f :: f in files || f in c.upper + c.lower ==> RangeOk(f)
    requires Gapless(c.upper + c.lower, c.allStart.user, c.allLimit.user)
    requires IsMeeting(base, files, lo, hi) && lo <= c.allStart.user && c.allLimit.user <= hi
    requires forall f :: f in c.upper ==> f in base
    requires forall x :: lo <= x <= hi ==> c.allStart.user <= x <= c.allLimit.user || CoveredAt(base, x)
    requires ClosedBy(files, base, d.upper, key, chain) && d.lower == c.lower
    requires Hull(d.upper + d.lower, d.allStart.user, d.allLimit.user)
    ensures Gapless(d.upper + d.lower, d.allStart.user, d.allLimit.user)
  {
    var all := base + c.lower;
    forall x | lo <= x <= hi
      ensures CoveredAt(all, x)
    {
      if c.allStart.user <= x <= c.allLimit.user {
        assert CoveredAt(c.upper + c.lower, x);
      } else {
        assert CoveredAt(base, x);
      }
    }
    assert forall f :: f in c.lower ==> f in c.upper + c.lower;
    var lo1, hi1 := HullExists(all);
    CoverExtends(all, lo, hi, lo1, hi1);
    var f :| f in base && f.largest == key;
    assert f in all;
    var hi2 := ChainCovers(files, all, lo1, hi1, key, chain);
    GaplessSame(all + chain, d.upper + d.lower, lo1, hi2);
    HullUnique(d.upper + d.lower, lo1, hi2, d.allStart.user, d.allLimit.user);
  }

  lemma {:induction false} HullExists(fs: seq<File>) returns (lo: UserKey, hi: UserKey)
    requires fs != []
    ensures Hull(fs, lo, hi)
  {
    if |fs| == 1 {
      assert fs[0] in fs;
      lo, hi := Lo(fs[0]), Hi(fs[0]);
    } else {
      lo, hi := HullExists(fs[1..]);
      assert fs == [fs[0]] + fs[1..];
      lo := if Lo(fs[0]) <= lo then Lo(fs[0]) else lo;
      hi := if Hi(fs[0]) >= hi then Hi(fs[0]) else hi;
    }
  }

  lemma GaplessSame(fs: seq<File>, gs: seq<File>, lo: UserKey, hi: UserKey)
    requires Gapless(fs, lo, hi) && forall f :: f in fs <==> f in gs
    ensures Gapless(gs, lo, hi)
  {
    CoverMore(fs, gs, lo, hi);
  }

  // ---------- PickCompaction ----------

  predicate EndsAfter(f: File, pointer: Option<InternalKey>) {
    pointer.None? || Less(pointer.value, f.largest)
  }

  /** The file a compaction starts from: the one to seek if there is one, else the first one that
      ends after the compaction pointer, else the first file of the level. */
  ghost predicate IsStart(files: seq<File>, pointer: Option<InternalKey>, seek: Option<File>, start: File) {
    if seek.Some? then start == seek.value
    else exists i :: 0 <= i < |files| && start == files[i] && FirstAfter(files, pointer, i)
  }

  ghost predicate FirstAfter(files: seq<File>, pointer: Option<InternalKey>, i: nat)
    requires i < |files|
  {
    if exists f :: f in files && EndsAfter(f, pointer)
    then EndsAfter(files[i], pointer) && forall j :: 0 <= j < i ==> !EndsAfter(files[j], pointer)
    else i == 0
  }

  /** The inputs c are what the rules make of the file to start from. */
  ghost predicate Picks(levels: Levels, level: nat, pointer: Option<InternalKey>, seek: Option<File>, maxFileSize: nat,
                        c: Inputs)
  {
    && level + 1 < |levels| && c.level == level
    && exists start, picked, g :: PicksFrom(levels, level, pointer, seek, maxFileSize, c, start, picked, g)
  }

  ghost predicate PicksFrom(levels: Levels, level: nat, pointer: Option<InternalKey>, seek: Option<File>,
                            maxFileSize: nat, c: Inputs, start: File, picked: seq<File>, g: Growth)
    requires level + 1 < |levels| && c.level == level
  {
    && IsStart(levels[level], pointer, seek, start) && start in c.upper
    && (if level == 0 then AreMet(levels[0], 0, Lo(start), Hi(start), picked) else picked == [start])
    && GrowthIs(levels, level, picked, c.lower, g) && GrowsRight(levels, c, maxFileSize, g)
  }

  method PickStart(files: seq<File>, pointer: Option<InternalKey>, seek: Option<File>) returns (start: File)
    requires files != [] && (seek.Some? ==> seek.value in files)
    ensures IsStart(files, pointer, seek, start) && start in files
  {
    if seek.Some? {
      return seek.value;
    }
    var i := 0;
    while i < |files| && !(pointer.None? || Less(pointer.value, files[i].largest))
      invariant 0 <= i <= |files| && forall j :: 0 <= j < i ==> !EndsAfter(files[j], pointer)
    {
      i := i + 1;
    }
    start := if i < |files| then files[i] else files[0];
    if i < |files| {
      assert files[i] in files && FirstAfter(files, pointer, i);
    } else {
      assert FirstAfter(files, pointer, 0);
    }
  }

  /** Level 0: everything the starting file drags along. */
  method PickOverlapping(files: seq<File>, start: File)
    returns (picked: seq<File>, ghost lo: UserKey, ghost hi: UserKey)
    requires start in files && Unrepeated(files) && forall f :: f in files ==> RangeOk(f)
    ensures start in picked && forall f :: f in picked ==> f in files
    ensures Gapless(picked, lo, hi) && Isolated(files, picked, lo, hi) && Unrepeated(picked)
    ensures AreMet(files, 0, Lo(start), Hi(start), picked)
  {
    hide Gapless, Isolated, Meeting, Unrepeated, LeastClosed;
    var smallest, largest := GetRange([start]);
    var overlapping, lo', hi' := GetOverlappingInputs(files, true, smallest.user, largest.user);
    assert start in [start];
    lo, hi := PickedCovers(files, start, overlapping, lo', hi');
    MeetingUnrepeated(files, lo', hi');
    picked := overlapping;
  }

  method PickCompaction(levels: Levels, level: nat, pointer: Option<InternalKey>, seek: Option<File>, maxFileSize: nat)
    returns (c: Inputs)
    requires RangesOk(levels) && level + 1 < NUM_LEVELS
    requires levels[level] != [] && (seek.Some? ==> seek.value in levels[level])
    ensures c.level == level && Selected(levels, c) && InOrder(c)
    ensures Picks(levels, level, pointer, seek, maxFileSize, c)
  {
    hide Gapless, Isolated, Selected, Meeting, InOrder, IsRun, GrowthIs, GrowsRight, IsStart, AreMet;
    var files := levels[level];
    var start := PickStart(files, pointer, seek);
    assert start in levels[level] && RangeOk(start);
    var picked := [start];
    OneFile(start);
    assert IsRun(files, picked) by { OneIsRun(files, start); }
    ghost var lo, hi := Lo(start), Hi(start);
    if level == 0 {
      picked, lo, hi := PickOverlapping(files, start);
    }
    ghost var g: Growth;
    c, g := SetupOtherInputs(levels, level, picked, lo, hi, maxFileSize);
    assert PicksFrom(levels, level, pointer, seek, maxFileSize, c, start, picked, g);
  }

  lemma OneIsRun(files: seq<File>, f: File)
    requires f in files
    ensures IsRun(files, [f])
  {
    var i :| 0 <= i < |files| && files[i] == f;
    assert files[i..i + 1] == [f];
  }

  lemma OneFile(f: File)
    requires Lo(f) <= Hi(f)
    ensures Gapless([f], Lo(f), Hi(f)) && Unrepeated([f])
    ensures RangeOk(f) ==> Ascending([f])
  {
    assert f in [f];
  }

  lemma PickedCovers(files: seq<File>, start: File, picked: seq<File>, lo: UserKey, hi: UserKey)
    returns (lo': UserKey, hi': UserKey)
    requires forall f :: f in files ==> RangeOk(f)
    requires start in files && lo <= Lo(start) && Hi(start) <= hi
    requires IsMeeting(picked, files, lo, hi) && Closed(files, lo, hi)
    requires forall x :: lo <= x <= hi ==> Lo(start) <= x <= Hi(start) || CoveredAt(picked, x)
    ensures start in picked && Gapless(picked, lo', hi') && Isolated(files, picked, lo', hi')
  {
    assert start in picked;
    forall x | lo <= x <= hi
      ensures CoveredAt(picked, x)
    {
      assert Contains(start, x) || CoveredAt(picked, x);
    }
    lo', hi' := HullExists(picked);
    CoverExtends(picked, lo, hi, lo', hi');
  }
}
