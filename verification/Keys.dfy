/** Internal keys, entries, and what a read of a set of entries means.

    A user key stands for its position in the user comparator's order.  Every
    countable total order embeds in the rationals, so a `real` loses nothing:
    only the order of keys is ever used. */
module InternalKeys {
  import opened Options

  type UserKey = real

  /** Largest sequence number: 56 bits, the low 8 bits of a tag hold the type. */
  const MAX_SEQUENCE: nat := 0xFF_FFFF_FFFF_FFFF

  datatype ValueType = Deletion | Value

  datatype InternalKey = InternalKey(user: UserKey, sequence: nat, kind: ValueType)

  datatype Entry = Entry(key: InternalKey, value: string)

  /** The 64-bit number stored after the user key: (sequence << 8) | type. */
  function Tag(k: InternalKey): nat {
    k.sequence * 256 + if k.kind.Value? then 1 else 0
  }

  /** Increasing user key, then decreasing sequence number, then decreasing type. */
  predicate Less(a: InternalKey, b: InternalKey) {
    a.user < b.user || (a.user == b.user && Tag(a) > Tag(b))
  }

  /** The key that sorts first among those of `user` visible at `s`. */
  function LookupKey(user: UserKey, s: nat): InternalKey {
    InternalKey(user, s, Value)
  }

  predicate Sorted(es: seq<Entry>) {
    forall i, j :: 0 <= i < j < |es| ==> Less(es[i].key, es[j].key)
  }

  /** Position of the first entry at or after `target`; |es| when there is none. */
  function SeekIndex(es: seq<Entry>, target: InternalKey): (i: nat)
    requires Sorted(es)
    ensures i <= |es|
    ensures forall j :: 0 <= j < i ==> Less(es[j].key, target)
    ensures forall j :: i <= j < |es| ==> !Less(es[j].key, target)
  {
    if es == [] || !Less(es[0].key, target) then 0 else 1 + SeekIndex(es[1..], target)
  }

  /** Sorted insertion, as into a memtable. */
  function InsertEntry(mem: seq<Entry>, e: Entry): seq<Entry>
    requires Sorted(mem)
  {
    var i := SeekIndex(mem, e.key);
    mem[..i] + [e] + mem[i..]
  }

  lemma InsertEntryKeepsOrder(mem: seq<Entry>, e: Entry)
    requires Sorted(mem)
    requires forall d :: d in mem ==> d.key != e.key
    ensures Sorted(InsertEntry(mem, e))
    ensures forall d :: d in InsertEntry(mem, e) <==> d in mem || d == e
  {
    var i := SeekIndex(mem, e.key);
    assert forall j :: i <= j < |mem| ==> mem[j] in mem && Less(e.key, mem[j].key);
    InsertAtKeepsOrder(mem, i, e);
  }

  lemma InsertAtKeepsOrder(mem: seq<Entry>, i: nat, e: Entry)
    requires Sorted(mem) && i <= |mem|
    requires forall j :: 0 <= j < i ==> Less(mem[j].key, e.key)
    requires forall j :: i <= j < |mem| ==> Less(e.key, mem[j].key)
    ensures Sorted(mem[..i] + [e] + mem[i..])
    ensures forall d :: d in mem[..i] + [e] + mem[i..] <==> d in mem || d == e
  {
    hide Less;
    assert mem == mem[..i] + mem[i..];
  }

  // ---------- What a read means ----------

  ghost predicate Visible(e: Entry, k: UserKey, s: nat) {
    e.key.user == k && e.key.sequence <= s
  }

  ghost predicate IsNewest(E: set<Entry>, k: UserKey, s: nat, e: Entry) {
    e in E && Visible(e, k, s) && forall d :: d in E && Visible(d, k, s) ==> d.key.sequence <= e.key.sequence
  }

  /** No two entries of E carry the same user key and sequence number. */
  ghost predicate Distinct(E: set<Entry>) {
    forall d, e :: d in E && e in E && d.key.user == e.key.user && d.key.sequence == e.key.sequence ==> d == e
  }

  function ValueOf(e: Entry): Option<string> {
    if e.key.kind.Value? then Some(e.value) else None
  }

  /** What a reader at sequence number s must see for k when E is all there is:
      the value of the newest visible entry, nothing if that is a tombstone. */
  ghost function Read(E: set<Entry>, k: UserKey, s: nat): Option<string> {
    if e :| IsNewest(E, k, s, e) then ValueOf(e) else None
  }

  lemma ReadIs(E: set<Entry>, k: UserKey, s: nat, e: Entry)
    requires Distinct(E) && IsNewest(E, k, s, e)
    ensures Read(E, k, s) == ValueOf(e)
  {
    forall d | IsNewest(E, k, s, d)
      ensures d == e
    {
      assert Visible(d, k, s) && Visible(e, k, s);
    }
  }

  lemma ReadNothing(E: set<Entry>, k: UserKey, s: nat)
    requires forall e :: e in E ==> !Visible(e, k, s)
    ensures Read(E, k, s) == None
  {
  }

  lemma {:induction false} NewestExists(E: set<Entry>, k: UserKey, s: nat)
    ensures (exists e :: IsNewest(E, k, s, e)) || (forall e :: e in E ==> !Visible(e, k, s))
  {
    if e :| e in E && Visible(e, k, s) {
      var E' := E - {e};
      NewestExists(E', k, s);
      if m :| IsNewest(E', k, s, m) {
        var n := if m.key.sequence < e.key.sequence then e else m;
        assert IsNewest(E, k, s, n);
      } else {
        assert IsNewest(E, k, s, e);
      }
    }
  }
}
