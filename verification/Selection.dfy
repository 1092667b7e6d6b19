/** Choosing the input files of a compaction. */
module Selection {
  import opened InternalKeys
  import opened Options
  import opened Files

  predicate Meets(f: File, lo: UserKey, hi: UserKey) { Lo(f) <= hi && lo <= Hi(f) }

  /** The files that meet [lo, hi], in the order of the level. */
  function Meeting(files: seq<File>, lo: UserKey, hi: UserKey): (r: seq<File>)
    ensures forall f :: f in r <==> f in files && Meets(f, lo, hi)
  {
    if files == [] then [] else
      var n := |files| - 1;
      assert files == files[..n] + [files[n]];
      Meeting(files[..n], lo, hi) + if Meets(files[n], lo, hi) then [files[n]] else []
  }

  /** `r` is exactly what [lo, hi] meets. */
  predicate IsMeeting(r: seq<File>, files: seq<File>, lo: UserKey, hi: UserKey) {
    r == Meeting(files, lo, hi)
  }

  lemma MeetingNext(files: seq<File>, i: nat, lo: UserKey, hi: UserKey)
    requires i < |files|
    ensures Meeting(files[..i + 1], lo, hi)
         == Meeting(files[..i], lo, hi) + if Meets(files[i], lo, hi) then [files[i]] else []
  {
    assert files[..i + 1][..i] == files[..i];
  }

  /** A wider range that meets no more files meets the same files. */
  lemma {:induction false} MeetingGrows(files: seq<File>, lo: UserKey, hi: UserKey, lo': UserKey, hi': UserKey)
    requires lo' <= lo && hi <= hi'
    ensures |Meeting(files, lo, hi)| <= |Meeting(files, lo', hi')|
    ensures |Meeting(files, lo, hi)| == |Meeting(files, lo', hi')| ==>
              Meeting(files, lo, hi) == Meeting(files, lo', hi')
  {
    if files != [] {
      MeetingGrows(files[..|files| - 1], lo, hi, lo', hi');
    }
  }

  // ---------- Hulls and coverage ----------

  /** [lo, hi] is the smallest range holding all the files' ranges. */
  ghost predicate Hull(fs: seq<File>, lo: UserKey, hi: UserKey) {
    && (forall f :: f in fs ==> lo <= Lo(f) && Hi(f) <= hi)
    && (exists f :: f in fs && Lo(f) == lo)
    && (exists f :: f in fs && Hi(f) == hi)
  }

  ghost predicate CoveredAt(fs: seq<File>, x: UserKey) {
    exists f :: f in fs && Contains(f, x)
  }

  /** Every user key of [lo, hi] lies in the range of some file: no gap. */
  ghost predicate Covered(fs: seq<File>, lo: UserKey, hi: UserKey) {
    forall x :: lo <= x <= hi ==> CoveredAt(fs, x)
  }

  /** The files' ranges cover their own hull [lo, hi]. */
  ghost predicate Gapless(fs: seq<File>, lo: UserKey, hi: UserKey) {
    Hull(fs, lo, hi) && Covered(fs, lo, hi)
  }

  lemma CoverMore(fs: seq<File>, gs: seq<File>, lo: UserKey, hi: UserKey)
    requires Covered(fs, lo, hi)
    requires forall f :: f in fs ==> f in gs
    ensures Covered(gs, lo, hi)
  {
    forall x | lo <= x <= hi
      ensures CoveredAt(gs, x)
    {
      assert CoveredAt(fs, x);
    }
  }

  /** Files that each meet a covered range leave no gap when added to it. */
  lemma CoverExtends(gs: seq<File>, lo: UserKey, hi: UserKey, lo': UserKey, hi': UserKey)
    requires Covered(gs, lo, hi) && Hull(gs, lo', hi')
    requires forall f :: f in gs ==> Meets(f, lo, hi)
    ensures Gapless(gs, lo', hi')
  {
    forall x | lo' <= x <= hi'
      ensures CoveredAt(gs, x)
    {
      if x < lo {
        var f :| f in gs && Lo(f) == lo';
        assert Contains(f, x);
      } else if hi < x {
        var f :| f in gs && Hi(f) == hi';
        assert Contains(f, x);
      }
    }
  }

  // ---------- GetRange ----------

  method GetRange(inputs: seq<File>) returns (smallest: InternalKey, largest: InternalKey)
    requires inputs != []
    ensures exists f :: f in inputs && f.smallest == smallest
    ensures exists f :: f in inputs && f.largest == largest
    ensures forall f :: f in inputs ==> !Less(f.smallest, smallest) && !Less(largest, f.largest)
    ensures Hull(inputs, smallest.user, largest.user)
  {
    smallest, largest := inputs[0].smallest, inputs[0].largest;
    var i := 1;
    while i < |inputs|
      invariant 1 <= i <= |inputs|
      invariant exists f :: f in inputs && f.smallest == smallest
      invariant exists f :: f in inputs && f.largest == largest
      invariant forall j :: 0 <= j < i ==> !Less(inputs[j].smallest, smallest) && !Less(largest, inputs[j].largest)
    {
      var f := inputs[i];
      if Less(f.smallest, smallest) {
        smallest := f.smallest;
      }
      if Less(largest, f.largest) {
        largest := f.largest;
      }
      i := i + 1;
    }
  }

  // ---------- GetOverlappingInputs ----------

  /** No file that meets [lo, hi] reaches outside it. */
  ghost predicate Closed(files: seq<File>, lo: UserKey, hi: UserKey) {
    forall f :: f in files && Meets(f, lo, hi) ==> lo <= Lo(f) && Hi(f) <= hi
  }

  /** [lo, hi] is the least closed range around [begin, end]. */
  ghost predicate LeastClosed(files: seq<File>, begin: UserKey, end: UserKey, lo: UserKey, hi: UserKey) {
    && lo <= begin && end <= hi
    && Closed(files, lo, hi)
    && forall lo', hi' :: lo' <= begin && end <= hi' && Closed(files, lo', hi') ==> lo' <= lo && hi <= hi'
  }

  function CountBelow(files: seq<File>, b: UserKey): nat {
    if files == [] then 0 else CountBelow(files[1..], b) + if Lo(files[0]) < b then 1 else 0
  }

  function CountAbove(files: seq<File>, e: UserKey): nat {
    if files == [] then 0 else CountAbove(files[1..], e) + if Hi(files[0]) > e then 1 else 0
  }

  lemma {:induction false} CountBelowDrops(files: seq<File>, b: UserKey, b': UserKey)
    requires b' < b
    ensures CountBelow(files, b') <= CountBelow(files, b)
    ensures (exists f :: f in files && Lo(f) == b') ==> CountBelow(files, b') < CountBelow(files, b)
  {
    if files != [] {
      CountBelowDrops(files[1..], b, b');
    }
  }

  lemma {:induction false} CountAboveDrops(files: seq<File>, e: UserKey, e': UserKey)
    requires e < e'
    ensures CountAbove(files, e') <= CountAbove(files, e)
    ensures (exists f :: f in files && Hi(f) == e') ==> CountAbove(files, e') < CountAbove(files, e)
  {
    if files != [] {
      CountAboveDrops(files[1..], e, e');
    }
  }

  /** All files of a level that meet [begin, end]; at level 0, where files may
      overlap, the search restarts with a wider range until nothing sticks out. */
  method GetOverlappingInputs(files: seq<File>, level0: bool, begin: UserKey, end: UserKey)
    returns (inputs: seq<File>, ghost lo: UserKey, ghost hi: UserKey)
    ensures IsMeeting(inputs, files, lo, hi)
    ensures forall f :: f in inputs <==> f in files && Meets(f, lo, hi)
    ensures !level0 ==> lo == begin && hi == end && IsMeeting(inputs, files, begin, end)
    ensures forall f :: f in files && Meets(f, begin, end) ==> f in inputs
    ensures level0 ==> LeastClosed(files, begin, end, lo, hi)
    ensures lo <= begin && end <= hi
    ensures forall x :: lo <= x <= hi ==> begin <= x <= end || CoveredAt(inputs, x)
  {
    var userBegin, userEnd := begin, end;
    inputs := [];
    var i := 0;
    while i < |files|
      invariant 0 <= i <= |files|
      invariant inputs == Meeting(files[..i], userBegin, userEnd)
      invariant !level0 ==> userBegin == begin && userEnd == end
      invariant userBegin <= begin && end <= userEnd
      invariant level0 ==> forall f :: f in inputs ==> userBegin <= Lo(f) && Hi(f) <= userEnd
      invariant forall lo', hi' :: lo' <= begin && end <= hi' && Closed(files, lo', hi') ==>
                  lo' <= userBegin && userEnd <= hi'
      invariant forall x :: userBegin <= x <= userEnd ==>
                  begin <= x <= end || CoveredAt(Meeting(files, userBegin, userEnd), x)
      decreases CountBelow(files, userBegin) + CountAbove(files, userEnd), |files| - i
    {
      var f := files[i];
      MeetingNext(files, i, userBegin, userEnd);
      ghost var b, e := userBegin, userEnd;
      i := i + 1;
      if Hi(f) < userBegin {
      } else if Lo(f) > userEnd {
      } else {
        inputs := inputs + [f];
        if level0 {
          if Lo(f) < userBegin {
            userBegin := Lo(f);
            inputs := [];
            i := 0;
            CountBelowDrops(files, b, userBegin);
            RestartKeepsCover(files, begin, end, b, e, f, userBegin, userEnd);
          } else if Hi(f) > userEnd {
            userEnd := Hi(f);
            inputs := [];
            i := 0;
            CountAboveDrops(files, e, userEnd);
            RestartKeepsCover(files, begin, end, b, e, f, userBegin, userEnd);
          }
        }
      }
    }
    assert files[..|files|] == files;
    lo, hi := userBegin, userEnd;
  }

  /** Widening the range to the end of a file that meets it opens no gap. */
  lemma RestartKeepsCover(files: seq<File>, begin: UserKey, end: UserKey, b: UserKey, e: UserKey, f: File,
                          b': UserKey, e': UserKey)
    requires f in files && Meets(f, b, e)
    requires (b' == Lo(f) < b && e' == e) || (b' == b && e < e' == Hi(f))
    requires forall x :: b <= x <= e ==> begin <= x <= end || CoveredAt(Meeting(files, b, e), x)
    ensures forall x :: b' <= x <= e' ==> begin <= x <= end || CoveredAt(Meeting(files, b', e'), x)
  {
    forall x | b' <= x <= e'
      ensures begin <= x <= end || CoveredAt(Meeting(files, b', e'), x)
    {
      if b <= x <= e {
        if CoveredAt(Meeting(files, b, e), x) {
          var g :| g in Meeting(files, b, e) && Contains(g, x);
          assert g in Meeting(files, b', e');
        }
      } else if Lo(f) <= x <= Hi(f) {
        assert f in Meeting(files, b', e') && Contains(f, x);
      }
    }
  }

  // ---------- AddBoundaryInputs ----------

  /** f starts with the user key at which `key` ends, after it. */
  predicate IsBoundary(f: File, key: InternalKey) {
    Less(key, f.smallest) && f.smallest.user == key.user
  }

  ghost predicate IsSmallestBoundary(files: seq<File>, key: InternalKey, b: File) {
    b in files && IsBoundary(b, key) && forall f :: f in files && IsBoundary(f, key) ==> !Less(f.smallest, b.smallest)
  }

  /** Each file of the chain is the smallest boundary file of the one before. */
  ghost predicate Chain(files: seq<File>, key: InternalKey, chain: seq<File>)
    decreases |chain|
  {
    chain == [] || (IsSmallestBoundary(files, key, chain[0]) && Chain(files, chain[0].largest, chain[1..]))
  }

  function ChainEnd(key: InternalKey, chain: seq<File>): InternalKey {
    if chain == [] then key else chain[|chain| - 1].largest
  }

  lemma {:induction false} ChainAppend(files: seq<File>, key: InternalKey, chain: seq<File>, b: File)
    requires Chain(files, key, chain) && IsSmallestBoundary(files, ChainEnd(key, chain), b)
    ensures Chain(files, key, chain + [b])
    decreases |chain|
  {
    if chain != [] {
      ChainAppend(files, chain[0].largest, chain[1..], b);
      assert (chain + [b])[1..] == chain[1..] + [b];
    }
  }

  lemma {:induction false} ChainMembers(files: seq<File>, key: InternalKey, chain: seq<File>)
    requires Chain(files, key, chain)
    requires forall f :: f in files ==> RangeOk(f)
    ensures forall f :: f in chain ==> f in files && Less(key, f.smallest) && !Less(ChainEnd(key, chain), f.largest)
    ensures !Less(ChainEnd(key, chain), key)
    decreases |chain|
  {
    if chain != [] {
      ChainMembers(files, chain[0].largest, chain[1..]);
      assert ChainEnd(key, chain) == ChainEnd(chain[0].largest, chain[1..]);
    }
  }

  /** A file that starts inside a covered range extends it. */
  lemma BoundaryCovers(fs: seq<File>, lo: UserKey, hi: UserKey, b: File) returns (hi': UserKey)
    requires Gapless(fs, lo, hi) && lo <= Lo(b) <= hi && Lo(b) <= Hi(b)
    requires forall f :: f in fs ==> Lo(f) <= Hi(f)
    ensures hi <= hi' && Hi(b) <= hi' && Gapless(fs + [b], lo, hi')
  {
    hi' := if hi < Hi(b) then Hi(b) else hi;
    var gs := fs + [b];
    CoverMore(fs, gs, lo, hi);
    var f :| f in fs && Lo(f) == lo;
    var g :| g in fs && Hi(g) == hi;
    assert f in gs && g in gs && b in gs;
    CoverExtends(gs, lo, hi, lo, hi');
  }

  /** A chain hangs on to the range it starts from. */
  lemma {:induction false} ChainCovers(files: seq<File>, fs: seq<File>, lo: UserKey, hi: UserKey,
                                       key: InternalKey, chain: seq<File>) returns (hi': UserKey)
    requires Gapless(fs, lo, hi) && lo <= key.user <= hi
    requires Chain(files, key, chain)
    requires forall f :: f in files || f in fs ==> RangeOk(f)
    ensures hi <= hi' && Gapless(fs + chain, lo, hi')
    decreases |chain|
  {
    if chain == [] {
      assert fs + chain == fs;
      hi' := hi;
    } else {
      var b, rest := chain[0], chain[1..];
      var hi1 := BoundaryCovers(fs, lo, hi, b);
      hi' := ChainCovers(files, fs + [b], lo, hi1, b.largest, rest);
      assert fs + [b] + rest == fs + chain;
    }
  }

  function CountAfter(files: seq<File>, key: InternalKey): nat {
    if files == [] then 0 else CountAfter(files[1..], key) + if Less(key, files[0].smallest) then 1 else 0
  }

  lemma {:induction false} CountAfterDrops(files: seq<File>, key: InternalKey, b: File)
    requires Less(key, b.smallest) && !Less(b.largest, b.smallest)
    ensures CountAfter(files, b.largest) <= CountAfter(files, key)
    ensures b in files ==> CountAfter(files, b.largest) < CountAfter(files, key)
  {
    if files != [] {
      CountAfterDrops(files[1..], key, b);
    }
  }

  method FindLargestKey(files: seq<File>) returns (found: bool, key: InternalKey)
    ensures found <==> files != []
    ensures found ==> exists f :: f in files && f.largest == key
    ensures found ==> forall f :: f in files ==> !Less(key, f.largest)
  {
    if files == [] {
      return false, LookupKey(0.0, 0);
    }
    found, key := true, files[0].largest;
    var i := 1;
    while i < |files|
      invariant 1 <= i <= |files|
      invariant exists f :: f in files && f.largest == key
      invariant forall j :: 0 <= j < i ==> !Less(key, files[j].largest)
    {
      if Less(key, files[i].largest) {
        key := files[i].largest;
      }
      i := i + 1;
    }
  }

  method FindSmallestBoundaryFile(files: seq<File>, key: InternalKey) returns (b: Option<File>)
    ensures b.Some? ==> IsSmallestBoundary(files, key, b.value)
    ensures b.None? ==> forall f :: f in files ==> !IsBoundary(f, key)
  {
    b := None;
    var i := 0;
    while i < |files|
      invariant 0 <= i <= |files|
      invariant b.None? ==> forall j :: 0 <= j < i ==> !IsBoundary(files[j], key)
      invariant b.Some? ==> b.value in files && IsBoundary(b.value, key)
      invariant b.Some? ==> forall j :: 0 <= j < i && IsBoundary(files[j], key) ==>
                  !Less(files[j].smallest, b.value.smallest)
    {
      var f := files[i];
      if Less(key, f.smallest) && f.smallest.user == key.user {
        if b.None? || Less(f.smallest, b.value.smallest) {
          b := Some(f);
        }
      }
      i := i + 1;
    }
  }

  /** What AddBoundaryInputs must leave behind: the old inputs followed by the
      whole chain of boundary files, with none left over. */
  ghost predicate ClosedBy(files: seq<File>, before: seq<File>, after: seq<File>, key: InternalKey, chain: seq<File>) {
    && after == before + chain
    && (exists f :: f in before && f.largest == key)
    && (forall f :: f in before ==> !Less(key, f.largest))
    && Chain(files, key, chain)
    && (forall f :: f in files ==> !IsBoundary(f, ChainEnd(key, chain)))
  }

  method AddBoundaryInputs(files: seq<File>, compactionFiles: seq<File>)
    returns (extended: seq<File>, ghost key: InternalKey, ghost chain: seq<File>)
    requires forall f :: f in files || f in compactionFiles ==> RangeOk(f)
    ensures compactionFiles == [] <==> extended == []
    ensures compactionFiles != [] ==> ClosedBy(files, compactionFiles, extended, key, chain)
  {
    extended := compactionFiles;
    var found, largestKey := FindLargestKey(compactionFiles);
    key, chain := largestKey, [];
    if !found {
      return;
    }
    var searching := true;
    while searching
      invariant extended == compactionFiles + chain
      invariant Chain(files, key, chain) && largestKey == ChainEnd(key, chain)
      invariant !searching ==> forall f :: f in files ==> !IsBoundary(f, largestKey)
      decreases searching, CountAfter(files, largestKey)
    {
      var b := FindSmallestBoundaryFile(files, largestKey);
      if b.Some? {
        ChainAppend(files, key, chain, b.value);
        CountAfterDrops(files, largestKey, b.value);
        chain := chain + [b.value];
        extended := extended + [b.value];
        largestKey := b.value.largest;
      } else {
        searching := false;
      }
    }
  }
}
