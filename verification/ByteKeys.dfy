/** Keys as bytes: the bytewise order, internal keys with their eight-byte tag, and the short
    keys that separate the blocks of a table. */
module ByteKeys {
  import opened Coding
  import opened Varints

  // ---------- The bytewise order ----------

  predicate LexLess(a: Bytes, b: Bytes) {
    if b == [] then false
    else if a == [] then true
    else if a[0] != b[0] then a[0] < b[0]
    else LexLess(a[1..], b[1..])
  }

  lemma LexIrreflexive(a: Bytes)
    ensures !LexLess(a, a)
  {
  }

  lemma {:induction false} LexTransitive(a: Bytes, b: Bytes, c: Bytes)
    requires LexLess(a, b) && LexLess(b, c)
    ensures LexLess(a, c)
  {
    if a != [] && a[0] == b[0] && b[0] == c[0] {
      LexTransitive(a[1..], b[1..], c[1..]);
    }
  }

  lemma {:induction false} LexTotal(a: Bytes, b: Bytes)
    ensures a == b || LexLess(a, b) || LexLess(b, a)
  {
    if a != [] && b != [] && a[0] == b[0] {
      LexTotal(a[1..], b[1..]);
      assert a == [a[0]] + a[1..] && b == [b[0]] + b[1..];
    }
  }

  /** Two strings are ordered like the bytes where they first differ. */
  lemma {:induction false} FirstDifference(a: Bytes, b: Bytes, d: nat)
    requires d < |a| && d < |b| && a[..d] == b[..d] && a[d] < b[d]
    ensures LexLess(a, b)
  {
    if d > 0 {
      assert a[0] == a[..d][0] == b[..d][0] == b[0];
      assert a[1..][..d - 1] == a[..d][1..] && b[1..][..d - 1] == b[..d][1..];
      FirstDifference(a[1..], b[1..], d - 1);
    }
  }

  /** What the shortened separator is: the common start, and the next byte raised by one. */
  ghost predicate RaisedAt(start: Bytes, r: Bytes, d: nat) {
    d < |start| && start[d] != 0xff && r == start[..d] + [start[d] + 1]
  }

  ghost predicate SameUpTo(a: Bytes, b: Bytes, d: nat) {
    d <= |a| && d <= |b| && a[..d] == b[..d]
  }

  lemma RaisedIsAbove(start: Bytes, r: Bytes, d: nat)
    requires RaisedAt(start, r, d)
    ensures LexLess(start, r) && |r| <= |start|
  {
    assert r[..d] == start[..d];
    FirstDifference(start, r, d);
  }

  lemma RaisedIsBelow(start: Bytes, limit: Bytes, r: Bytes, d: nat)
    requires RaisedAt(start, r, d) && d < |limit| && start[..d] == limit[..d] && start[d] + 1 < limit[d]
    ensures LexLess(r, limit)
  {
    assert r[..d] == start[..d] && r[d] == start[d] + 1;
    FirstDifference(r, limit, d);
  }

  /** How many bytes two strings have in common at their start. */
  function CommonLength(a: Bytes, b: Bytes): (d: nat)
    ensures d <= |a| && d <= |b|
  {
    if a == [] || b == [] || a[0] != b[0] then 0 else 1 + CommonLength(a[1..], b[1..])
  }

  lemma {:induction false} CommonIs(a: Bytes, b: Bytes, d: nat)
    requires SameUpTo(a, b, d) && (d < |a| && d < |b| ==> a[d] != b[d])
    ensures CommonLength(a, b) == d
  {
    if d > 0 {
      assert a[0] == a[..d][0] == b[..d][0] == b[0];
      assert a[1..][..d - 1] == a[..d][1..] && b[1..][..d - 1] == b[..d][1..];
      CommonIs(a[1..], b[1..], d - 1);
    }
  }

  /** Where the strings first differ, the byte of the first can be raised and stays below. */
  predicate HasRoom(start: Bytes, limit: Bytes) {
    var d := CommonLength(start, limit);
    d < |start| && d < |limit| && start[d] < 0xff && start[d] + 1 < limit[d]
  }

  /** BytewiseComparator's FindShortestSeparator: a shorter string between start and limit,
      when the byte where they first differ leaves room for one. */
  method FindShortestSeparator(start: Bytes, limit: Bytes) returns (r: Bytes)
    ensures if HasRoom(start, limit)
            then LexLess(start, r) && LexLess(r, limit) && RaisedAt(start, r, CommonLength(start, limit))
            else r == start
  {
    hide LexLess, SameUpTo, CommonLength;
    NothingSame(start, limit);
    var minLength := if |start| < |limit| then |start| else |limit|;
    var diffIndex := 0;
    while diffIndex < minLength && start[diffIndex] == limit[diffIndex]
      invariant diffIndex <= minLength && SameUpTo(start, limit, diffIndex)
    {
      OneMoreSame(start, limit, diffIndex);
      diffIndex := diffIndex + 1;
    }
    CommonIs(start, limit, diffIndex);
    if diffIndex >= minLength {
      return start;
    }
    var diffByte := start[diffIndex];
    if diffByte < 0xff && diffByte + 1 < limit[diffIndex] {
      r := start[diffIndex := diffByte + 1];
      r := r[..diffIndex + 1];
      RaisedIsAbove(start, r, diffIndex);
      SameParts(start, limit, diffIndex);
      RaisedIsBelow(start, limit, r, diffIndex);
    } else {
      return start;
    }
  }

  lemma NothingSame(a: Bytes, b: Bytes)
    ensures SameUpTo(a, b, 0)
  {
  }

  lemma OneMoreSame(a: Bytes, b: Bytes, d: nat)
    requires SameUpTo(a, b, d) && d < |a| && d < |b| && a[d] == b[d]
    ensures SameUpTo(a, b, d + 1)
  {
  }

  lemma SameParts(a: Bytes, b: Bytes, d: nat)
    requires SameUpTo(a, b, d)
    ensures d <= |a| && d <= |b| && a[..d] == b[..d]
  {
  }

  /** The first byte that can be raised is byte d. */
  ghost predicate FirstBelow(key: Bytes, d: nat) {
    d < |key| && key[d] != 0xff && forall i :: 0 <= i < d ==> key[i] == 0xff
  }

  /** FindShortSuccessor: the first byte that can be raised is raised, and ends the string. */
  method FindShortSuccessor(key: Bytes) returns (r: Bytes)
    ensures r == key || (LexLess(key, r) && |r| <= |key|)
    ensures (exists d: nat :: RaisedAt(key, r, d) && forall i :: 0 <= i < d ==> key[i] == 0xff) ||
            (r == key && forall i :: 0 <= i < |key| ==> key[i] == 0xff)
  {
    hide LexLess;
    var i := 0;
    while i < |key|
      invariant i <= |key| && forall j :: 0 <= j < i ==> key[j] == 0xff
    {
      var byte := key[i];
      if byte != 0xff {
        r := key[i := byte + 1];
        r := r[..i + 1];
        assert RaisedAt(key, r, i);
        RaisedIsAbove(key, r, i);
        return r;
      }
      i := i + 1;
    }
    return key;
  }

  // ---------- Internal keys ----------

  const MAX_SEQUENCE: nat := 0xff_ffff_ffff_ffff
  const TYPE_FOR_SEEK: nat := 1

  function PackTag(sequence: nat, kind: nat): (tag: nat)
    requires sequence <= MAX_SEQUENCE && kind <= TYPE_FOR_SEEK
    ensures tag < WIDTH64
  {
    256 * sequence + kind
  }

  /** AppendInternalKey. */
  function InternalKeyBytes(user: Bytes, tag: nat): Bytes {
    user + FixedOf(tag, 8)
  }

  function UserOf(k: Bytes): Bytes {
    if |k| >= 8 then k[..|k| - 8] else []
  }

  function TagOf(k: Bytes): nat {
    if |k| >= 8 then NumberAt(k, |k| - 8, 8) else 0
  }

  lemma PackedKey(user: Bytes, tag: nat)
    requires tag < WIDTH64
    ensures UserOf(InternalKeyBytes(user, tag)) == user && TagOf(InternalKeyBytes(user, tag)) == tag
    ensures |InternalKeyBytes(user, tag)| == |user| + 8
  {
    hide NumberAt, FixedOf;
    var k := InternalKeyBytes(user, tag);
    assert k[|user|..|user| + 8] == FixedOf(tag, 8);
    assert k[..|user|] == user;
    Fixed64At(k, |user|, tag);
  }

  /** InternalKeyComparator: user keys upwards, and tags downwards. */
  predicate KeyLess(a: Bytes, b: Bytes) {
    if UserOf(a) == UserOf(b) then TagOf(a) > TagOf(b) else LexLess(UserOf(a), UserOf(b))
  }

  lemma KeyTransitive(a: Bytes, b: Bytes, c: Bytes)
    requires KeyLess(a, b) && KeyLess(b, c)
    ensures KeyLess(a, c)
  {
    hide LexLess, UserOf, TagOf;
    var x, y, z := UserOf(a), UserOf(b), UserOf(c);
    if x != y && y != z {
      LexTransitive(x, y, z);
      if x == z {
        LexIrreflexive(x);
      }
    }
  }

  /** A key at or behind the one, before the next, and with no key of the next one's user key
      in between. */
  ghost predicate Separates(sep: Bytes, last: Bytes, first: Bytes) {
    && !KeyLess(sep, last) && KeyLess(sep, first)
    && forall k :: KeyLess(last, k) && !KeyLess(sep, k) ==> UserOf(k) != UserOf(first)
  }

  lemma LastSeparates(last: Bytes, first: Bytes)
    requires KeyLess(last, first)
    ensures Separates(last, last, first)
  {
    LexIrreflexive(UserOf(last));
  }

  lemma ShorterSeparates(last: Bytes, first: Bytes, user: Bytes, tag: nat)
    requires LexLess(UserOf(last), user) && LexLess(user, UserOf(first)) && tag < WIDTH64
    ensures Separates(InternalKeyBytes(user, tag), last, first)
    ensures KeyLess(last, InternalKeyBytes(user, tag))
  {
    hide LexLess, UserOf, TagOf, InternalKeyBytes;
    var sep := InternalKeyBytes(user, tag);
    PackedKey(user, tag);
    LexIrreflexive(user);
    if LexLess(user, UserOf(last)) {
      LexTransitive(user, UserOf(last), user);
    }
    forall k | !KeyLess(sep, k)
      ensures UserOf(k) != UserOf(first)
    {
      assert UserOf(k) == UserOf(first) ==> KeyLess(sep, k);
    }
  }

  /** The user key is cut behind the byte where it first differs from the next one's, and that byte
      raised, when there is room and this is shorter; the tag is then the first one of its user key. */
  ghost predicate IsShortestKey(r: Bytes, start: Bytes, limit: Bytes) {
    var user, d := UserOf(start), CommonLength(UserOf(start), UserOf(limit));
    if HasRoom(user, UserOf(limit)) && d + 1 < |user|
    then RaisedAt(user, UserOf(r), d) && TagOf(r) == 256 * MAX_SEQUENCE + 1 && |r| == d + 9
    else r == start
  }

  /** The same with the first byte that can be raised at all. */
  ghost predicate IsShortKey(r: Bytes, key: Bytes) {
    if d: nat :| FirstBelow(UserOf(key), d) then
      if d + 1 < |UserOf(key)|
      then RaisedAt(UserOf(key), UserOf(r), d) && TagOf(r) == 256 * MAX_SEQUENCE + 1 && |r| == d + 9
      else r == key
    else r == key
  }

  /** InternalKeyComparator::FindShortestSeparator. */
  method FindShortestKey(start: Bytes, limit: Bytes) returns (r: Bytes)
    requires KeyLess(start, limit) && |start| >= 8
    ensures Separates(r, start, limit) && 8 <= |r| <= |start|
    ensures IsShortestKey(r, start, limit)
  {
    hide LexLess, TagOf, InternalKeyBytes, Separates, KeyLess, CommonLength;
    var userStart := UserOf(start);
    var tmp := FindShortestSeparator(userStart, UserOf(limit));
    LastSeparates(start, limit);
    if |tmp| < |userStart| && LexLess(userStart, tmp) {
      LexIrreflexive(userStart);
      PackedKey(tmp, PackTag(MAX_SEQUENCE, TYPE_FOR_SEEK));
      ShorterSeparates(start, limit, tmp, PackTag(MAX_SEQUENCE, TYPE_FOR_SEEK));
      return InternalKeyBytes(tmp, PackTag(MAX_SEQUENCE, TYPE_FOR_SEEK));
    }
    return start;
  }

  /** InternalKeyComparator::FindShortSuccessor. */
  method FindShortKey(key: Bytes) returns (r: Bytes)
    requires |key| >= 8
    ensures (r == key || KeyLess(key, r)) && 8 <= |r| <= |key|
    ensures IsShortKey(r, key)
  {
    hide LexLess, TagOf, InternalKeyBytes;
    var userKey := UserOf(key);
    var tmp := FindShortSuccessor(userKey);
    if |tmp| < |userKey| && LexLess(userKey, tmp) {
      PackedKey(tmp, PackTag(MAX_SEQUENCE, TYPE_FOR_SEEK));
      ghost var d: nat :| RaisedAt(userKey, tmp, d) && forall i :: 0 <= i < d ==> userKey[i] == 0xff;
      assert FirstBelow(userKey, d);
      return InternalKeyBytes(tmp, PackTag(MAX_SEQUENCE, TYPE_FOR_SEEK));
    }
    return key;
  }
}
