/** The point lookup in a file of bytes, seen from the tree: it answers like the lookup in the
    entries that the file holds. */
module TableLookups {
  import opened Options
  import opened Coding
  import opened ByteKeys
  import opened Blocks
  import opened BlockIterators
  import opened Tables
  import opened TableBuilders
  import K = InternalKeys
  import Files
  import V = Versions

  // ---------- Byte strings as places in the order of the reals ----------

  /** One more than each byte as a digit behind the point, to the base of 257. */
  function Rank(s: Bytes): (r: real)
    ensures 0.0 <= r < 1.0
  {
    if s == [] then 0.0 else (NatOf(s[0]) as real + 1.0 + Rank(s[1..])) / 257.0
  }

  /** The bits of a byte, highest first, decide the order. */
  lemma ByteOrderByBits(a: Byte, b: Byte)
    ensures a < b <==>
            LessBits(Has(a, 128), Has(b, 128), LessBits(Has(a, 64), Has(b, 64), LessBits(Has(a, 32), Has(b, 32),
              LessBits(Has(a, 16), Has(b, 16), LessBits(Has(a, 8), Has(b, 8), LessBits(Has(a, 4), Has(b, 4),
              LessBits(Has(a, 2), Has(b, 2), LessBits(Has(a, 1), Has(b, 1), false))))))))
  {
  }

  predicate LessBits(a: bool, b: bool, rest: bool) { (!a && b) || (a == b && rest) }

  lemma BytesByNumber(a: Byte, b: Byte)
    ensures a < b <==> NatOf(a) < NatOf(b)
  {
    hide Has;
    ByteOrderByBits(a, b);
  }

  lemma {:induction false} RankOrders(a: Bytes, b: Bytes)
    ensures LexLess(a, b) <==> Rank(a) < Rank(b)
    ensures a == b <==> Rank(a) == Rank(b)
  {
    hide NatOf;
    if a != [] && b != [] {
      BytesByNumber(a[0], b[0]);
      BytesByNumber(b[0], a[0]);
      RankOrders(a[1..], b[1..]);
      assert a == [a[0]] + a[1..] && b == [b[0]] + b[1..];
    }
  }

  // ---------- Records as entries ----------

  /** The key is an internal key: a user key, and a tag that is a sequence number and a type. */
  predicate Typed(r: Record) {
    |r.key| >= 8 && TagOf(r.key) % 256 <= 1 && TagOf(r.key) / 256 <= K.MAX_SEQUENCE
  }

  predicate AllTyped(rs: seq<Record>) {
    forall i :: 0 <= i < |rs| ==> Typed(rs[i])
  }

  function Text(s: Bytes): string {
    seq(|s|, i requires 0 <= i < |s| => NatOf(s[i]) as char)
  }

  function EntryOf(r: Record): K.Entry {
    var kind := if TagOf(r.key) % 256 == 1 then K.Value else K.Deletion;
    K.Entry(K.InternalKey(Rank(UserOf(r.key)), TagOf(r.key) / 256, kind), Text(r.value))
  }

  function EntriesOf(rs: seq<Record>): seq<K.Entry> {
    seq(|rs|, i requires 0 <= i < |rs| => EntryOf(rs[i]))
  }

  lemma SameTag(r: Record)
    requires Typed(r)
    ensures K.Tag(EntryOf(r).key) == TagOf(r.key)
  {
    hide Rank, UserOf;
  }

  lemma SameOrder(a: Record, b: Record)
    requires Typed(a) && Typed(b)
    ensures K.Less(EntryOf(a).key, EntryOf(b).key) <==> KeyLess(a.key, b.key)
  {
    hide Rank, UserOf, TagOf, LexLess, K.Tag;
    SameTag(a);
    SameTag(b);
    RankOrders(UserOf(a.key), UserOf(b.key));
  }

  /** The lookup key for user key and snapshot, as LookupKey packs it. */
  function TargetOf(user: Bytes, snapshot: nat): Bytes
    requires snapshot <= MAX_SEQUENCE
  {
    InternalKeyBytes(user, PackTag(snapshot, TYPE_FOR_SEEK))
  }

  lemma SameTarget(r: Record, user: Bytes, snapshot: nat)
    requires Typed(r) && snapshot <= MAX_SEQUENCE
    ensures K.Less(EntryOf(r).key, K.LookupKey(Rank(user), snapshot)) <==> KeyLess(r.key, TargetOf(user, snapshot))
    ensures UserOf(TargetOf(user, snapshot)) == user
  {
    hide Rank, UserOf, TagOf, LexLess, InternalKeyBytes;
    PackedKey(user, PackTag(snapshot, TYPE_FOR_SEEK));
    SameTag(r);
    RankOrders(UserOf(r.key), user);
  }

  // ---------- The lookup ----------

  /** What Version::Get takes from the record delivered: nothing, if it has another user key. */
  function Taken(r: Option<Record>, user: Bytes): Option<K.Entry> {
    if r.Some? && UserOf(r.value.key) == user then Some(EntryOf(r.value)) else None
  }

  lemma EntriesSorted(rs: seq<Record>)
    requires Ordered(rs, KeyLess) && AllTyped(rs)
    ensures K.Sorted(EntriesOf(rs))
  {
    hide KeyLess, EntryOf, Typed;
    var es := EntriesOf(rs);
    forall i, j | 0 <= i < j < |es|
      ensures K.Less(es[i].key, es[j].key)
    {
      SameOrder(rs[i], rs[j]);
    }
  }

  /** The position to which the lookup in the entries goes. */
  lemma SamePosition(rs: seq<Record>, user: Bytes, snapshot: nat, i: nat)
    requires AllTyped(rs) && snapshot <= MAX_SEQUENCE
    requires FirstFrom(rs, KeyLess, TargetOf(user, snapshot), i)
    ensures var es, target := EntriesOf(rs), K.LookupKey(Rank(user), snapshot);
            && (forall j :: 0 <= j < i ==> K.Less(es[j].key, target))
            && (i < |rs| ==> !K.Less(es[i].key, target))
  {
    hide KeyLess, EntryOf, Typed, Rank, K.Less, TargetOf;
    forall j | 0 <= j < |rs|
      ensures K.Less(EntryOf(rs[j]).key, K.LookupKey(Rank(user), snapshot)) <==>
              KeyLess(rs[j].key, TargetOf(user, snapshot))
    {
      SameTarget(rs[j], user, snapshot);
    }
  }

  /** The first entry from the lookup key decides. */
  lemma FirstDecides(es: seq<K.Entry>, k: K.UserKey, snapshot: nat, i: nat)
    requires K.Sorted(es) && i <= |es|
    requires forall j :: 0 <= j < i ==> K.Less(es[j].key, K.LookupKey(k, snapshot))
    requires i < |es| ==> !K.Less(es[i].key, K.LookupKey(k, snapshot))
    ensures V.AnswersIn(es, k, snapshot, if i < |es| && es[i].key.user == k then Some(es[i]) else None)
  {
    forall e | e in es && K.Visible(e, k, snapshot)
      ensures i < |es| && es[i].key.user == k && e.key.sequence <= es[i].key.sequence
    {
      var j :| 0 <= j < |es| && es[j] == e;
      assert i <= j && (i == j || K.Less(es[i].key, es[j].key));
    }
  }

  /** Whatever the file's lookup delivers, Version::Get takes the newest visible entry of the user key. */
  lemma DeliveredIsAnswer(rs: seq<Record>, user: Bytes, snapshot: nat, r: Option<Record>)
    requires Ordered(rs, KeyLess) && AllTyped(rs) && snapshot <= MAX_SEQUENCE
    requires Delivers(rs, TargetOf(user, snapshot), r)
    ensures V.AnswersIn(EntriesOf(rs), Rank(user), snapshot, Taken(r, user))
  {
    hide KeyLess, Rank, UserOf, V.AnswersIn, K.Less, K.Sorted, TargetOf, Text;
    var i: nat :| FirstFrom(rs, KeyLess, TargetOf(user, snapshot), i) &&
      if i < |rs| && UserOf(rs[i].key) == UserOf(TargetOf(user, snapshot)) then r == Some(rs[i])
      else r.Some? ==> UserOf(r.value.key) != UserOf(TargetOf(user, snapshot));
    EntriesSorted(rs);
    SamePosition(rs, user, snapshot, i);
    FirstDecides(EntriesOf(rs), Rank(user), snapshot, i);
    TargetUser(user, snapshot);
    if i < |rs| {
      RankOrders(UserOf(rs[i].key), user);
    }
  }

  lemma TargetUser(user: Bytes, snapshot: nat)
    requires snapshot <= MAX_SEQUENCE
    ensures UserOf(TargetOf(user, snapshot)) == user
  {
    PackedKey(user, PackTag(snapshot, TYPE_FOR_SEEK));
  }

  /** Finish a table and look a user key up in its bytes: the answer is that of the lookup in the
      entries that were added. */
  method FinishAndGet(builder: TableBuilder, user: Bytes, snapshot: nat, policyKey: Option<Bytes>,
                      hashOf: Bytes -> nat, paranoidChecks: bool, verifyChecksums: bool)
    returns (ok: bool, r: Option<Record>)
    requires builder.Valid() && !builder.closed && builder.Limits()
    requires AllTyped(builder.entries) && snapshot <= MAX_SEQUENCE && ByUserKey(hashOf)
    requires builder.filterBlock != null ==> builder.filterBlock.hashOf == hashOf
    modifies builder, builder.dataBlock, builder.indexBlock, builder.filterBlock
    ensures ok && K.Sorted(EntriesOf(old(builder.entries)))
    ensures V.AnswersIn(EntriesOf(old(builder.entries)), Rank(user), snapshot, Taken(r, user))
  {
    hide KeyLess, AllTyped, FileOk, ByUserKey, Delivers, V.AnswersIn, K.Sorted, Taken, TargetOf, Ordered, AllRecords;
    ghost var rs := builder.entries;
    var s, g := builder.Finish();
    ok, r := Get(builder.file, policyKey, hashOf, TargetOf(user, snapshot), paranoidChecks, verifyChecksums, s, g);
    EntriesSorted(rs);
    DeliveredIsAnswer(rs, user, snapshot, r);
  }

  /** The file of the tree that such a table stands for. */
  function FileOf(number: nat, size: nat, rs: seq<Record>): Files.File
    requires rs != []
  {
    Files.File(number, size, EntryOf(rs[0]).key, EntryOf(rs[|rs| - 1]).key, EntriesOf(rs))
  }

  lemma FileIsOk(number: nat, size: nat, rs: seq<Record>)
    requires rs != [] && Ordered(rs, KeyLess) && AllTyped(rs)
    ensures Files.FileOk(FileOf(number, size, rs))
  {
    hide KeyLess, Rank, UserOf, TagOf, Text;
    EntriesSorted(rs);
    forall e | e in EntriesOf(rs)
      ensures e.key.sequence <= K.MAX_SEQUENCE
    {
      var i :| 0 <= i < |rs| && EntriesOf(rs)[i] == e;
      assert Typed(rs[i]);
    }
  }
}
