/** The user-facing iterator: a cursor over the live keys at one sequence number, made
    from an internal iterator that shows every entry. */
module DbIterator {
  import opened InternalKeys
  import opened Options
  import opened Merger

  predicate Seen(e: Entry, s: nat) { e.key.sequence <= s }

  /** x is the newest visible entry of its user key. */
  ghost predicate NewestHere(E: set<Entry>, s: nat, x: Entry) {
    x in E && Seen(x, s) && forall e :: e in E && e.key.user == x.key.user && Less(e.key, x.key) ==> !Seen(e, s)
  }

  lemma NewestReads(E: set<Entry>, s: nat, x: Entry)
    requires Distinct(E) && NewestHere(E, s, x)
    ensures Read(E, x.key.user, s) == ValueOf(x)
  {
    forall e | e in E && Visible(e, x.key.user, s)
      ensures e.key.sequence <= x.key.sequence
    {
      assert e.key.sequence > x.key.sequence ==> Less(e.key, x.key);
    }
    assert IsNewest(E, x.key.user, s, x);
    ReadIs(E, x.key.user, s, x);
  }

  /** Where a forward search starts: above a key, from a key on, or anywhere. */
  datatype Floor = Anywhere | From(key: UserKey) | Above(key: UserKey)

  predicate Allows(floor: Floor, u: UserKey) {
    match floor
    case Anywhere => true
    case From(k) => k <= u
    case Above(k) => k < u
  }

  predicate Hidden(skip: Option<UserKey>, u: UserKey) {
    skip.Some? && u <= skip.value
  }

  /** No key that the floor allows is live below `u`. */
  ghost predicate DeadBelow(E: set<Entry>, s: nat, floor: Floor, u: UserKey) {
    forall v :: Allows(floor, v) && v < u ==> Read(E, v, s) == None
  }

  ghost predicate DeadAll(E: set<Entry>, s: nat, floor: Floor) {
    forall v :: Allows(floor, v) ==> Read(E, v, s) == None
  }

  /** The key to skip agrees with the floor: it hides what the floor excludes, and
      apart from that nothing that is still to come. */
  predicate SkipFits(floor: Floor, skip: Option<UserKey>, u: UserKey) {
    && (floor.From? ==> floor.key <= u)
    && (floor.Above? ==> skip.Some? && floor.key <= skip.value)
    && (skip.Some? ==> skip.value <= u || (floor.Above? && skip.value == floor.key))
  }

  /** State of a forward search that stands on entry x. */
  ghost predicate Searching(E: set<Entry>, s: nat, floor: Floor, skip: Option<UserKey>, x: Entry) {
    var u := x.key.user;
    && x in E
    && SkipFits(floor, skip, u)
    && DeadBelow(E, s, floor, u)
    && (!Hidden(skip, u) ==> forall e :: e in E && e.key.user == u && Less(e.key, x.key) ==> !Seen(e, s))
    && (Hidden(skip, u) && Allows(floor, u) ==> Read(E, u, s) == None)
    && (floor.Above? ==> forall e :: e in E && Seen(e, s) && !Less(e.key, x.key) ==> floor.key <= e.key.user)
  }

  /** What the search does about the entry it stands on, unless it yields it. */
  function SkipAfter(skip: Option<UserKey>, x: Entry, s: nat): Option<UserKey> {
    if Seen(x, s) && x.key.kind.Deletion? then Some(x.key.user) else skip
  }

  /** The internal iterator moved on from x; at most invisible entries were passed over. */
  ghost predicate MovedOn(E: set<Entry>, s: nat, x: Entry, next: Option<Entry>) {
    && (next.Some? ==> next.value in E && Less(x.key, next.value.key))
    && forall e :: e in E && Less(x.key, e.key) && (next.Some? ==> Less(e.key, next.value.key)) ==> !Seen(e, s)
  }

  /** An entry that is not yielded leaves its user key dead, or undecided. */
  lemma PassedKey(E: set<Entry>, s: nat, floor: Floor, skip: Option<UserKey>, x: Entry)
    requires Distinct(E) && Searching(E, s, floor, skip, x)
    requires !(Seen(x, s) && x.key.kind.Value? && !Hidden(skip, x.key.user))
    ensures Allows(floor, x.key.user) && (Seen(x, s) || Hidden(skip, x.key.user)) ==> Read(E, x.key.user, s) == None
  {
    if !Hidden(skip, x.key.user) && Seen(x, s) {
      assert NewestHere(E, s, x);
      NewestReads(E, s, x);
    }
  }

  /** Nothing visible of key u exists when nothing visible lies around it. */
  lemma NothingVisible(E: set<Entry>, s: nat, u: UserKey)
    requires forall e :: e in E && e.key.user == u ==> !Seen(e, s)
    ensures Read(E, u, s) == None
  {
    ReadNothing(E, u, s);
  }

  lemma DeadUpTo(E: set<Entry>, s: nat, floor: Floor, skip: Option<UserKey>, x: Entry, next: Option<Entry>, v: UserKey)
    requires Distinct(E) && Searching(E, s, floor, skip, x) && MovedOn(E, s, x, next)
    requires !(Seen(x, s) && x.key.kind.Value? && !Hidden(skip, x.key.user))
    requires Allows(floor, v) && (next.Some? ==> v < next.value.key.user)
    ensures Read(E, v, s) == None
  {
    PassedKey(E, s, floor, skip, x);
    var u := x.key.user;
    if v > u || (v == u && !Seen(x, s) && !Hidden(skip, u)) {
      forall e | e in E && e.key.user == v
        ensures !Seen(e, s)
      {
        if v == u && !Less(x.key, e.key) && !Less(e.key, x.key) {
          assert e == x;
        }
      }
      NothingVisible(E, s, v);
    }
  }

  lemma SearchStep(E: set<Entry>, s: nat, floor: Floor, skip: Option<UserKey>, x: Entry, next: Entry)
    requires Distinct(E) && Searching(E, s, floor, skip, x) && MovedOn(E, s, x, Some(next))
    requires !(Seen(x, s) && x.key.kind.Value? && !Hidden(skip, x.key.user))
    ensures Searching(E, s, floor, SkipAfter(skip, x, s), next)
  {
    hide Read;
    forall v | Allows(floor, v) && v < next.key.user
      ensures Read(E, v, s) == None
    {
      DeadUpTo(E, s, floor, skip, x, Some(next), v);
    }
    PassedKey(E, s, floor, skip, x);
    SearchStepHere(E, s, floor, skip, x, next);
  }

  lemma SearchStepHere(E: set<Entry>, s: nat, floor: Floor, skip: Option<UserKey>, x: Entry, next: Entry)
    requires Distinct(E) && Searching(E, s, floor, skip, x) && MovedOn(E, s, x, Some(next))
    requires !(Seen(x, s) && x.key.kind.Value? && !Hidden(skip, x.key.user))
    ensures var skip', u' := SkipAfter(skip, x, s), next.key.user;
            && SkipFits(floor, skip', u')
            && (!Hidden(skip', u') ==> forall e :: e in E && e.key.user == u' && Less(e.key, next.key) ==> !Seen(e, s))
  {
    hide Read;
    var skip', u' := SkipAfter(skip, x, s), next.key.user;
    if !Hidden(skip', u') {
      forall e | e in E && e.key.user == u' && Less(e.key, next.key)
        ensures !Seen(e, s)
      {
        if u' == x.key.user && !Less(x.key, e.key) && !Less(e.key, x.key) {
          assert e == x;
        }
      }
    }
  }

  /** A yielded entry is live, and the search skipped no live key. */
  lemma SearchYields(E: set<Entry>, s: nat, floor: Floor, skip: Option<UserKey>, x: Entry)
    requires Distinct(E) && Searching(E, s, floor, skip, x)
    requires Seen(x, s) && x.key.kind.Value? && !Hidden(skip, x.key.user)
    ensures NewestHere(E, s, x) && Read(E, x.key.user, s) == Some(x.value)
    ensures Allows(floor, x.key.user) && DeadBelow(E, s, floor, x.key.user)
  {
    NewestReads(E, s, x);
  }

  lemma SearchEnds(E: set<Entry>, s: nat, floor: Floor, skip: Option<UserKey>, x: Entry)
    requires Distinct(E) && Searching(E, s, floor, skip, x) && MovedOn(E, s, x, None)
    requires !(Seen(x, s) && x.key.kind.Value? && !Hidden(skip, x.key.user))
    ensures DeadAll(E, s, floor)
  {
    hide Read;
    forall v | Allows(floor, v)
      ensures Read(E, v, s) == None
    {
      DeadUpTo(E, s, floor, skip, x, None, v);
    }
  }

  // ---------- Searching backwards ----------

  predicate Under(ceiling: Option<UserKey>, u: UserKey) {
    ceiling.None? || u < ceiling.value
  }

  /** No key above `u` and under the ceiling is live. */
  ghost predicate DeadAbove(E: set<Entry>, s: nat, u: UserKey, ceiling: Option<UserKey>) {
    forall v :: u < v && Under(ceiling, v) ==> Read(E, v, s) == None
  }

  ghost predicate DeadUnder(E: set<Entry>, s: nat, ceiling: Option<UserKey>) {
    forall v :: Under(ceiling, v) ==> Read(E, v, s) == None
  }

  /** `last` is the visible entry a backward search looked at last. */
  ghost predicate LastSeen(E: set<Entry>, s: nat, ceiling: Option<UserKey>, last: Option<Entry>) {
    last.Some? ==> last.value in E && Seen(last.value, s) && Under(ceiling, last.value.key.user)
                   && DeadAbove(E, s, last.value.key.user, ceiling)
  }

  /** Between position `at` (None: before everything) and the last seen entry nothing is visible. */
  ghost predicate Receded(E: set<Entry>, s: nat, ceiling: Option<UserKey>, last: Option<Entry>, at: Option<Entry>) {
    && LastSeen(E, s, ceiling, last)
    && (at.Some? ==> at.value in E && Under(ceiling, at.value.key.user))
    && (at.Some? && last.Some? ==> Less(at.value.key, last.value.key))
    && forall e :: e in E && Seen(e, s) && (at.Some? ==> Less(at.value.key, e.key)) && Under(ceiling, e.key.user) ==>
         last.Some? && !Less(e.key, last.value.key)
  }

  function LastAfter(last: Option<Entry>, x: Entry, s: nat): Option<Entry> {
    if Seen(x, s) then Some(x) else last
  }

  /** Does the search stop at x, with the value it has collected? */
  predicate StopsAt(last: Option<Entry>, x: Entry, s: nat) {
    Seen(x, s) && last.Some? && last.value.key.kind.Value? && x.key.user < last.value.key.user
  }

  ghost predicate MovedBack(E: set<Entry>, s: nat, x: Entry, next: Option<Entry>) {
    && (next.Some? ==> next.value in E && Less(next.value.key, x.key))
    && forall e :: e in E && Less(e.key, x.key) && (next.Some? ==> Less(next.value.key, e.key)) ==> !Seen(e, s)
  }

  lemma LastIsNewest(E: set<Entry>, s: nat, ceiling: Option<UserKey>, last: Entry, at: Option<Entry>)
    requires Distinct(E) && Receded(E, s, ceiling, Some(last), at)
    requires at.Some? ==> at.value.key.user < last.key.user
    ensures NewestHere(E, s, last) && Read(E, last.key.user, s) == ValueOf(last)
  {
    NewestReads(E, s, last);
  }

  lemma RecedeStep(E: set<Entry>, s: nat, ceiling: Option<UserKey>, last: Option<Entry>, x: Entry, next: Option<Entry>)
    requires Distinct(E) && Receded(E, s, ceiling, last, Some(x)) && MovedBack(E, s, x, next)
    requires !StopsAt(last, x, s)
    ensures Receded(E, s, ceiling, LastAfter(last, x, s), next)
  {
    hide Read;
    if Seen(x, s) {
      forall v | x.key.user < v && Under(ceiling, v)
        ensures Read(E, v, s) == None
      {
        DeadPassed(E, s, ceiling, last, x, v);
      }
    }
    forall e | e in E && !Less(x.key, e.key) && !Less(e.key, x.key)
      ensures e == x
    {
    }
  }

  lemma DeadPassed(E: set<Entry>, s: nat, ceiling: Option<UserKey>, last: Option<Entry>, x: Entry, v: UserKey)
    requires Distinct(E) && Receded(E, s, ceiling, last, Some(x)) && Seen(x, s) && !StopsAt(last, x, s)
    requires x.key.user < v && Under(ceiling, v)
    ensures Read(E, v, s) == None
  {
    if last.Some? && v == last.value.key.user {
      LastIsNewest(E, s, ceiling, last.value, Some(x));
    } else if last.None? || v < last.value.key.user {
      NothingVisible(E, s, v);
    }
  }

  lemma RecedeEnds(E: set<Entry>, s: nat, ceiling: Option<UserKey>, last: Option<Entry>)
    requires Distinct(E) && Receded(E, s, ceiling, last, None)
    requires last.Some? ==> last.value.key.kind.Deletion?
    ensures DeadUnder(E, s, ceiling)
  {
    forall v | Under(ceiling, v)
      ensures Read(E, v, s) == None
    {
      if last.Some? && v == last.value.key.user {
        LastIsNewest(E, s, ceiling, last.value, None);
      } else if last.None? || v < last.value.key.user {
        NothingVisible(E, s, v);
      }
    }
  }

  /** Where the internal iterator stands while the user goes backwards: just before the
      entries of the current key, as far as visible entries go. */
  ghost predicate JustBefore(E: set<Entry>, s: nat, k: UserKey, at: Option<Entry>) {
    && (at.Some? ==> at.value.key.user < k)
    && forall e :: e in E && Seen(e, s) && (at.Some? ==> Less(at.value.key, e.key)) ==> k <= e.key.user
  }

  // ---------- The iterator ----------

  class DBIter {
    const iter: MergingIterator
    const sequence: nat
    var direction: Direction
    var valid: bool
    var savedKey: Option<UserKey>
    var savedValue: string

    ghost function E(): set<Entry>
      reads this, iter, iter.children
    {
      iter.All()
    }

    ghost predicate IterOk()
      reads this, iter, iter.children
    {
      iter.Inv() && iter.bound == sequence && Distinct(E())
    }

    ghost function IterAt(): Option<Entry>
      reads this, iter, iter.children
      requires IterOk()
    {
      if iter.Valid() then Some(iter.Cur()) else None
    }

    lemma AtIsStored()
      requires IterOk()
      ensures IterAt().Some? ==> IterAt().value in E()
    {
      if iter.Valid() {
        assert iter.children[..][iter.current].Ok();
      }
    }

    ghost predicate Inv()
      reads this, iter, iter.children
    {
      && IterOk()
      && (valid && direction.Forward? ==>
            iter.Valid() && NewestHere(E(), sequence, iter.Cur()) && iter.Key().kind.Value?)
      && (valid && direction.Reverse? ==>
            savedKey.Some? && Read(E(), savedKey.value, sequence) == Some(savedValue)
            && JustBefore(E(), sequence, savedKey.value, IterAt()))
    }

    predicate Valid()
      reads this
    {
      valid
    }

    function Key(): UserKey
      reads this, iter, iter.children
      requires Inv() && Valid()
    {
      if direction.Forward? then iter.Key().user else savedKey.value
    }

    function Value(): string
      reads this, iter, iter.children
      requires Inv() && Valid()
    {
      if direction.Forward? then iter.Cur().value else savedValue
    }

    constructor (iter: MergingIterator, sequence: nat)
      requires iter.Inv() && iter.bound == sequence && Distinct(iter.All())
      ensures Inv() && !Valid() && this.iter == iter && this.sequence == sequence
    {
      this.iter, this.sequence := iter, sequence;
      direction, valid, savedKey, savedValue := Forward, false, None, "";
    }

    /** The iterator shows a live key with its value. */
    lemma Shows()
      requires Inv() && Valid()
      ensures Read(E(), Key(), sequence) == Some(Value())
    {
      if direction.Forward? {
        NewestReads(E(), sequence, iter.Cur());
      }
    }

    method IterNext()
      requires IterOk() && iter.Valid()
      modifies iter, iter.children
      ensures IterOk() && E() == old(E())
      ensures MovedOn(E(), sequence, old(iter.Cur()), IterAt())
      ensures IterAt().Some? ==> EntriesAfter(E(), IterAt().value.key) < old(EntriesAfter(E(), iter.Key()))
    {
      hide CursorsOk, Ahead, Behind, Union, Less, Distinct;
      ghost var x := iter.Cur();
      iter.Next();
      if iter.Valid() {
        FewerAfter(E(), x, iter.Cur());
      }
    }

    method IterPrev()
      requires IterOk() && iter.Valid()
      modifies iter, iter.children
      ensures IterOk() && E() == old(E())
      ensures MovedBack(E(), sequence, old(iter.Cur()), IterAt())
      ensures IterAt().Some? ==> EntriesBefore(E(), IterAt().value.key) < old(EntriesBefore(E(), iter.Key()))
    {
      hide CursorsOk, Ahead, Behind, Union, Less, Distinct;
      ghost var x := iter.Cur();
      iter.Prev();
      if iter.Valid() {
        FewerBefore(E(), x, iter.Cur());
      }
    }

    /** Find the first live key the floor allows, from the current internal entry on. */
    method FindNextUserEntry(skipping: bool, ghost floor: Floor)
      requires IterOk() && iter.Valid() && direction.Forward?
      requires Searching(E(), sequence, floor, if skipping then savedKey else None, iter.Cur())
      modifies this, iter, iter.children
      ensures Inv() && E() == old(E()) && direction.Forward?
      ensures valid ==> Allows(floor, Key()) && DeadBelow(E(), sequence, floor, Key())
      ensures !valid ==> DeadAll(E(), sequence, floor)
    {
      hide Read, Less, Searching, DeadBelow, DeadAll, NewestHere, Distinct, CursorsOk, Ahead, Behind, Union, MovedOn,
           EntriesAfter, JustBefore;
      ghost var all, s := E(), sequence;
      var skips := skipping;
      while true
        invariant IterOk() && iter.Valid() && direction.Forward? && E() == all
        invariant Searching(all, s, floor, if skips then savedKey else None, iter.Cur())
        decreases EntriesAfter(all, iter.Key())
      {
        ghost var x, skip := iter.Cur(), if skips then savedKey else None;
        var ikey := iter.Key();
        if ikey.sequence <= sequence {
          if ikey.kind.Deletion? {
            savedKey := Some(ikey.user);
            skips := true;
          } else if skips && savedKey.Some? && ikey.user <= savedKey.value {
          } else {
            SearchYields(all, s, floor, skip, x);
            valid := true;
            savedKey := None;
            return;
          }
        }
        IterNext();
        if !iter.Valid() {
          SearchEnds(all, s, floor, skip, x);
          break;
        }
        SearchStep(all, s, floor, skip, x, iter.Cur());
      }
      savedKey := None;
      valid := false;
    }

    /** Find the last live key under the ceiling, from the current internal entry back. */
    method FindPrevUserEntry(ghost ceiling: Option<UserKey>)
      requires IterOk() && direction.Reverse?
      requires Receded(E(), sequence, ceiling, None, IterAt())
      modifies this, iter, iter.children
      ensures Inv() && E() == old(E())
      ensures valid ==> direction.Reverse? && Under(ceiling, Key()) && DeadAbove(E(), sequence, Key(), ceiling)
      ensures !valid ==> direction.Forward? && DeadUnder(E(), sequence, ceiling)
    {
      hide Read, Less, Receded, LastSeen, DeadAbove, DeadUnder, Distinct, CursorsOk, Ahead, Behind, Union, MovedBack,
           EntriesBefore, JustBefore, NewestHere;
      ghost var all, s, last := E(), sequence, None;
      var valueType := Deletion;
      while iter.Valid()
        invariant IterOk() && direction.Reverse? && E() == all
        invariant Receded(all, s, ceiling, last, IterAt())
        invariant valueType == if last.Some? then last.value.key.kind else Deletion
        invariant valueType.Value? ==> savedKey == Some(last.value.key.user) && savedValue == last.value.value
        decreases if iter.Valid() then EntriesBefore(all, iter.Key()) + {iter.Cur()} else {}
      {
        ghost var x := iter.Cur();
        var ikey := iter.Key();
        if ikey.sequence <= sequence {
          if !valueType.Deletion? && savedKey.Some? && ikey.user < savedKey.value {
            break;
          }
          valueType := ikey.kind;
          if valueType.Deletion? {
            savedKey, savedValue := None, "";
          } else {
            savedKey, savedValue := Some(ikey.user), iter.Cur().value;
          }
        }
        IterPrev();
        RecedeStep(all, s, ceiling, last, x, IterAt());
        last := LastAfter(last, x, s);
        assert iter.Valid() ==> EntriesBefore(all, iter.Key()) + {iter.Cur()} <= EntriesBefore(all, x.key) by {
          PassedBack(all, s, x, IterAt());
        }
        assert x !in EntriesBefore(all, x.key) by { NotBeforeItself(all, x); }
      }
      if valueType.Deletion? {
        RecedeDone(all, s, ceiling, last, IterAt());
        valid, savedKey, savedValue, direction := false, None, "", Forward;
      } else {
        RecedeFound(all, s, ceiling, last.value, IterAt());
        valid := true;
      }
    }

    /** The next live key. */
    method Next()
      requires Inv() && Valid()
      modifies this, iter, iter.children
      ensures Inv() && E() == old(E())
      ensures valid ==> old(Key()) < Key() && DeadBelow(E(), sequence, Above(old(Key())), Key())
      ensures !valid ==> DeadAll(E(), sequence, Above(old(Key())))
    {
      hide Read, Less, Searching, Distinct, CursorsOk, Ahead, Behind, Union, MovedOn, EntriesAfter, JustBefore,
           DeadBelow, DeadAll, NewestHere;
      ghost var all, s, k := E(), sequence, Key();
      if direction.Reverse? {
        direction := Forward;
        ghost var at := IterAt();
        if !iter.Valid() {
          iter.SeekToFirst();
        } else {
          IterNext();
        }
        if !iter.Valid() {
          NothingAhead(all, s, k, at);
          valid, savedKey := false, None;
          return;
        }
        AtIsStored();
        TurnedSearch(all, s, k, at, iter.Cur());
      } else {
        ghost var x := iter.Cur();
        savedKey := Some(iter.Key().user);
        IterNext();
        if !iter.Valid() {
          NothingAfter(all, s, x);
          valid, savedKey := false, None;
          return;
        }
        SearchAfter(all, s, x, iter.Cur());
      }
      FindNextUserEntry(true, Above(k));
    }

    /** The live key before. */
    method Prev()
      requires Inv() && Valid()
      modifies this, iter, iter.children
      ensures Inv() && E() == old(E())
      ensures valid ==> Key() < old(Key()) && DeadAbove(E(), sequence, Key(), Some(old(Key())))
      ensures !valid ==> DeadUnder(E(), sequence, Some(old(Key())))
    {
      hide Read, Less, Receded, Distinct, CursorsOk, Ahead, Behind, Union, MovedBack, EntriesBefore, JustBefore,
           DeadAbove, DeadUnder, NewestHere;
      ghost var all, s, k := E(), sequence, Key();
      if direction.Forward? {
        savedKey := Some(iter.Key().user);
        StartsBack(all, iter.Cur());
        while true
          invariant IterOk() && iter.Valid() && E() == all && direction.Forward? && savedKey == Some(k)
          invariant iter.Key().user >= k
          invariant NoneSeenBelow(all, s, k, Some(iter.Cur()))
          decreases EntriesBefore(all, iter.Key())
        {
          ghost var x := iter.Cur();
          IterPrev();
          BackedOff(all, s, k, x, IterAt());
          if !iter.Valid() {
            NothingBelow(all, s, k);
            valid, savedKey, savedValue := false, None, "";
            return;
          }
          if iter.Key().user < savedKey.value {
            break;
          }
        }
        direction := Reverse;
      } else {
        BeforeMeansNoneSeen(all, s, k, IterAt());
      }
      AtIsStored();
      RecedeStarts(all, s, k, IterAt());
      FindPrevUserEntry(Some(k));
    }

    /** The first live key at or after the target. */
    method Seek(target: UserKey)
      requires Inv()
      modifies this, iter, iter.children
      ensures Inv() && E() == old(E())
      ensures valid ==> target <= Key() && DeadBelow(E(), sequence, From(target), Key())
      ensures !valid ==> DeadAll(E(), sequence, From(target))
    {
      hide Read, Less, Searching, Distinct, CursorsOk, Ahead, Behind, Union, DeadBelow, DeadAll, NewestHere, JustBefore;
      direction, savedKey, savedValue := Forward, None, "";
      iter.Seek(LookupKey(target, sequence));
      if iter.Valid() {
        SearchFrom(E(), sequence, target, iter.Cur());
        FindNextUserEntry(false, From(target));
      } else {
        NothingFrom(E(), sequence, target);
        valid := false;
      }
    }

    method SeekToFirst()
      requires Inv()
      modifies this, iter, iter.children
      ensures Inv() && E() == old(E())
      ensures valid ==> DeadBelow(E(), sequence, Anywhere, Key())
      ensures !valid ==> DeadAll(E(), sequence, Anywhere)
    {
      hide Read, Less, Searching, Distinct, CursorsOk, Ahead, Behind, Union, DeadBelow, DeadAll, NewestHere, JustBefore;
      direction, savedValue := Forward, "";
      iter.SeekToFirst();
      if iter.Valid() {
        SearchAnywhere(E(), sequence, iter.Cur());
        FindNextUserEntry(false, Anywhere);
      } else {
        NothingAnywhere(E(), sequence);
        valid := false;
      }
    }

    method SeekToLast()
      requires Inv()
      modifies this, iter, iter.children
      ensures Inv() && E() == old(E())
      ensures valid ==> DeadAbove(E(), sequence, Key(), None)
      ensures !valid ==> DeadUnder(E(), sequence, None)
    {
      hide Read, Less, Distinct, CursorsOk, Ahead, Behind, Union, DeadAbove, DeadUnder, NewestHere, JustBefore;
      direction, savedValue := Reverse, "";
      iter.SeekToLast();
      FindPrevUserEntry(None);
    }

    /** Entries written after this iterator was made change neither where it stands
        nor any read it will ever make. */
    method InsertUnderneath(child: nat, e: Entry)
      requires Inv() && child < iter.children.Length
      requires e.key.sequence > sequence
      requires forall d :: d in E() ==> d.key.user != e.key.user || d.key.sequence != e.key.sequence
      modifies iter.children
      ensures Inv() && E() == old(E()) + {e}
      ensures Valid() ==> Key() == old(Key()) && Value() == old(Value())
      ensures forall u :: Read(E(), u, sequence) == Read(old(E()), u, sequence)
    {
      hide CursorsOk, Ahead, Behind, Union, Read, Less;
      ghost var all := E();
      iter.InsertUnderneath(child, e);
      forall u
        ensures Read(all + {e}, u, sequence) == Read(all, u, sequence)
      {
        LateReads(all, e, u, sequence);
      }
      if valid {
        if direction.Forward? {
        } else {
        }
      }
    }
  }

  // ---------- Where each search starts ----------

  lemma NothingAhead(E: set<Entry>, s: nat, k: UserKey, at: Option<Entry>)
    requires JustBefore(E, s, k, at)
    requires if at.Some? then MovedOn(E, s, at.value, None) else E == {}
    ensures DeadAll(E, s, Above(k))
  {
    forall v | v > k
      ensures Read(E, v, s) == None
    {
      NothingVisible(E, s, v);
    }
  }

  lemma TurnedSearch(E: set<Entry>, s: nat, k: UserKey, at: Option<Entry>, x: Entry)
    requires JustBefore(E, s, k, at) && x in E
    requires if at.Some? then MovedOn(E, s, at.value, Some(x)) else forall e :: e in E ==> !Less(e.key, x.key)
    ensures Searching(E, s, Above(k), Some(k), x)
  {
    forall v | v > k && v < x.key.user
      ensures Read(E, v, s) == None
    {
      NothingVisible(E, s, v);
    }
  }

  lemma NothingAfter(E: set<Entry>, s: nat, x: Entry)
    requires MovedOn(E, s, x, None)
    ensures DeadAll(E, s, Above(x.key.user))
  {
    forall v | v > x.key.user
      ensures Read(E, v, s) == None
    {
      NothingVisible(E, s, v);
    }
  }

  lemma SearchAfter(E: set<Entry>, s: nat, x: Entry, next: Entry)
    requires MovedOn(E, s, x, Some(next))
    ensures Searching(E, s, Above(x.key.user), Some(x.key.user), next)
  {
    var k := x.key.user;
    forall v | v > k && v < next.key.user
      ensures Read(E, v, s) == None
    {
      NothingVisible(E, s, v);
    }
    if next.key.user == k {
      assert Hidden(Some(k), k);
    }
  }

  lemma SearchFrom(E: set<Entry>, s: nat, target: UserKey, x: Entry)
    requires x in E && !Less(x.key, LookupKey(target, s))
    requires forall e :: e in E && !Less(e.key, LookupKey(target, s)) ==> !Less(e.key, x.key)
    ensures Searching(E, s, From(target), None, x)
  {
    forall v | v >= target && v < x.key.user
      ensures Read(E, v, s) == None
    {
      NothingVisible(E, s, v);
    }
  }

  lemma NothingFrom(E: set<Entry>, s: nat, target: UserKey)
    requires forall e :: e in E ==> Less(e.key, LookupKey(target, s))
    ensures DeadAll(E, s, From(target))
  {
    forall v | v >= target
      ensures Read(E, v, s) == None
    {
      NothingVisible(E, s, v);
    }
  }

  lemma SearchAnywhere(E: set<Entry>, s: nat, x: Entry)
    requires x in E && forall e :: e in E ==> !Less(e.key, x.key)
    ensures Searching(E, s, Anywhere, None, x)
  {
    forall v | v < x.key.user
      ensures Read(E, v, s) == None
    {
      NothingVisible(E, s, v);
    }
  }

  lemma NothingAnywhere(E: set<Entry>, s: nat)
    requires E == {}
    ensures DeadAll(E, s, Anywhere)
  {
    forall v
      ensures Read(E, v, s) == None
    {
      NothingVisible(E, s, v);
    }
  }

  /** No visible entry of a key below k lies after the position. */
  ghost predicate NoneSeenBelow(E: set<Entry>, s: nat, k: UserKey, at: Option<Entry>) {
    forall e :: e in E && Seen(e, s) && (at.Some? ==> Less(at.value.key, e.key)) ==> k <= e.key.user
  }

  lemma StartsBack(E: set<Entry>, x: Entry)
    ensures forall s :: NoneSeenBelow(E, s, x.key.user, Some(x))
  {
  }

  lemma BackedOff(E: set<Entry>, s: nat, k: UserKey, x: Entry, at: Option<Entry>)
    requires NoneSeenBelow(E, s, k, Some(x)) && MovedBack(E, s, x, at) && x.key.user >= k
    ensures NoneSeenBelow(E, s, k, at)
  {
  }

  lemma NothingBelow(E: set<Entry>, s: nat, k: UserKey)
    requires NoneSeenBelow(E, s, k, None)
    ensures DeadUnder(E, s, Some(k))
  {
    forall v | v < k
      ensures Read(E, v, s) == None
    {
      NothingVisible(E, s, v);
    }
  }

  lemma BeforeMeansNoneSeen(E: set<Entry>, s: nat, k: UserKey, at: Option<Entry>)
    requires JustBefore(E, s, k, at)
    ensures NoneSeenBelow(E, s, k, at) && (at.Some? ==> at.value.key.user < k)
  {
  }

  lemma RecedeStarts(E: set<Entry>, s: nat, k: UserKey, at: Option<Entry>)
    requires NoneSeenBelow(E, s, k, at) && (at.Some? ==> at.value in E && at.value.key.user < k)
    ensures Receded(E, s, Some(k), None, at)
  {
  }

  // ---------- Late entries ----------

  lemma LateReads(E: set<Entry>, e: Entry, u: UserKey, s: nat)
    requires Distinct(E) && Distinct(E + {e}) && !Seen(e, s)
    ensures Read(E + {e}, u, s) == Read(E, u, s)
  {
    NewestExists(E, u, s);
    if n :| IsNewest(E, u, s, n) {
      assert IsNewest(E + {e}, u, s, n);
      ReadIs(E, u, s, n);
      ReadIs(E + {e}, u, s, n);
    }
  }

  lemma NotBeforeItself(E: set<Entry>, x: Entry)
    ensures x !in EntriesBefore(E, x.key)
  {
  }

  lemma PassedBack(E: set<Entry>, s: nat, x: Entry, at: Option<Entry>)
    requires MovedBack(E, s, x, at)
    ensures at.Some? ==> EntriesBefore(E, at.value.key) + {at.value} <= EntriesBefore(E, x.key)
  {
  }

  lemma RecedeFound(E: set<Entry>, s: nat, ceiling: Option<UserKey>, last: Entry, at: Option<Entry>)
    requires Distinct(E) && Receded(E, s, ceiling, Some(last), at) && last.key.kind.Value?
    requires at.Some? ==> StopsAt(Some(last), at.value, s)
    ensures Read(E, last.key.user, s) == Some(last.value)
    ensures Under(ceiling, last.key.user) && DeadAbove(E, s, last.key.user, ceiling)
    ensures JustBefore(E, s, last.key.user, at)
  {
    LastIsNewest(E, s, ceiling, last, at);
  }

  lemma RecedeDone(E: set<Entry>, s: nat, ceiling: Option<UserKey>, last: Option<Entry>, at: Option<Entry>)
    requires Distinct(E) && Receded(E, s, ceiling, last, at) && at.None?
    requires last.Some? ==> last.value.key.kind.Deletion?
    ensures DeadUnder(E, s, ceiling)
  {
    RecedeEnds(E, s, ceiling, last);
  }

  ghost function EntriesAfter(E: set<Entry>, k: InternalKey): set<Entry> {
    set e | e in E && Less(k, e.key)
  }

  ghost function EntriesBefore(E: set<Entry>, k: InternalKey): set<Entry> {
    set e | e in E && Less(e.key, k)
  }

  lemma FewerAfter(E: set<Entry>, x: Entry, y: Entry)
    requires y in E && Less(x.key, y.key)
    ensures EntriesAfter(E, y.key) < EntriesAfter(E, x.key)
  {
    assert y in EntriesAfter(E, x.key);
  }

  lemma FewerBefore(E: set<Entry>, x: Entry, y: Entry)
    requires y in E && Less(y.key, x.key)
    ensures EntriesBefore(E, y.key) < EntriesBefore(E, x.key)
  {
    assert y in EntriesBefore(E, x.key);
  }
}
