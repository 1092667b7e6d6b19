/** Table files, levels, and the two fast searches over a sorted level. */
module Files {
  import opened InternalKeys
  import opened Options

  /** Metadata of a table file together with the entries the table holds. */
  datatype File = File(number: nat, size: nat, smallest: InternalKey, largest: InternalKey, entries: seq<Entry>)

  function Lo(f: File): UserKey { f.smallest.user }

  function Hi(f: File): UserKey { f.largest.user }

  ghost predicate FileOk(f: File) {
    && f.entries != []
    && Sorted(f.entries)
    && f.smallest == f.entries[0].key
    && f.largest == f.entries[|f.entries| - 1].key
    && forall e :: e in f.entries ==> e.key.sequence <= MAX_SEQUENCE
  }

  lemma EntryInRange(f: File, e: Entry)
    requires FileOk(f) && e in f.entries
    ensures Lo(f) <= e.key.user <= Hi(f)
    ensures !Less(e.key, f.smallest) && !Less(f.largest, e.key)
  {
    var i :| 0 <= i < |f.entries| && f.entries[i] == e;
    assert i == 0 || Less(f.entries[0].key, f.entries[i].key);
    assert i == |f.entries| - 1 || Less(f.entries[i].key, f.entries[|f.entries| - 1].key);
  }

  lemma RangeOrdered(f: File)
    requires FileOk(f)
    ensures Lo(f) <= Hi(f) && !Less(f.largest, f.smallest)
    ensures f.largest.sequence <= MAX_SEQUENCE && f.smallest.sequence <= MAX_SEQUENCE
  {
    EntryInRange(f, f.entries[0]);
    assert f.entries[|f.entries| - 1] in f.entries;
  }

  /** Ranges in well-formed metadata: nothing is said about the table's contents. */
  predicate RangeOk(f: File) {
    !Less(f.largest, f.smallest) && f.largest.sequence <= MAX_SEQUENCE && f.smallest.sequence <= MAX_SEQUENCE
  }

  /** Files in increasing order whose internal-key ranges do not meet.  Two
      neighbours may still share a user key. */
  predicate Ascending(files: seq<File>) {
    && (forall i :: 0 <= i < |files| ==> RangeOk(files[i]))
    && (forall i, j :: 0 <= i < j < |files| ==> Less(files[i].largest, files[j].smallest))
  }

  predicate Contains(f: File, k: UserKey) { Lo(f) <= k <= Hi(f) }

  /** Does f meet [lo, hi]?  A missing bound is infinite. */
  predicate Overlaps(f: File, lo: Option<UserKey>, hi: Option<UserKey>) {
    !(lo.Some? && lo.value > Hi(f)) && !(hi.Some? && hi.value < Lo(f))
  }

  method FindFile(files: seq<File>, key: InternalKey) returns (index: nat)
    requires Ascending(files)
    ensures index <= |files|
    ensures forall i :: 0 <= i < index ==> Less(files[i].largest, key)
    ensures forall i :: index <= i < |files| ==> !Less(files[i].largest, key)
  {
    var left, right := 0, |files|;
    while left < right
      invariant 0 <= left <= right <= |files|
      invariant forall i :: 0 <= i < left ==> Less(files[i].largest, key)
      invariant forall i :: right <= i < |files| ==> !Less(files[i].largest, key)
    {
      var mid := (left + right) / 2;
      if Less(files[mid].largest, key) {
        forall i | 0 <= i < mid
          ensures Less(files[i].largest, key)
        {
          assert Less(files[i].largest, files[mid].smallest);
        }
        left := mid + 1;
      } else {
        forall i | mid < i < |files|
          ensures !Less(files[i].largest, key)
        {
          assert Less(files[mid].largest, files[i].smallest);
        }
        right := mid;
      }
    }
    index := right;
  }

  /** The scan and the binary search give the same answer: some file meets the range. */
  method SomeFileOverlapsRange(disjointSortedFiles: bool, files: seq<File>,
                               lo: Option<UserKey>, hi: Option<UserKey>) returns (found: bool)
    requires disjointSortedFiles ==> Ascending(files)
    ensures found <==> exists f :: f in files && Overlaps(f, lo, hi)
  {
    if !disjointSortedFiles {
      var i := 0;
      while i < |files|
        invariant 0 <= i <= |files|
        invariant forall j :: 0 <= j < i ==> !Overlaps(files[j], lo, hi)
      {
        if Overlaps(files[i], lo, hi) {
          return true;
        }
        i := i + 1;
      }
      return false;
    }
    var index := 0;
    if lo.Some? {
      index := FindFile(files, LookupKey(lo.value, MAX_SEQUENCE));
    }
    if index >= |files| {
      assert forall i :: 0 <= i < |files| ==> !Overlaps(files[i], lo, hi);
      return false;
    }
    found := !(hi.Some? && hi.value < Lo(files[index]));
    if found {
      assert Overlaps(files[index], lo, hi);
    } else {
      forall i | 0 <= i < |files|
        ensures !Overlaps(files[i], lo, hi)
      {
        assert index < i ==> Less(files[index].largest, files[i].smallest);
      }
    }
  }
}
