/** Version edits as manifest records: tagged fields, written and read back. */
module EditCoding {
  import opened Coding
  import opened Varints
  import opened Options

  const LEVELS: nat := 7

  // ---------- The fields of an edit ----------

  datatype NewFile = NewFile(level: nat, number: nat, size: nat, smallest: Bytes, largest: Bytes)

  /** What an edit says. */
  datatype EditValue = EditValue(comparator: Option<Bytes>, logNumber: Option<nat>, prevLogNumber: Option<nat>,
                                 nextFile: Option<nat>, lastSequence: Option<nat>, pointers: seq<(nat, Bytes)>,
                                 deleted: set<(nat, nat)>, added: seq<NewFile>)

  datatype Field =
    | Comparator(name: Bytes)
    | LogNumber(number: nat)
    | PrevLogNumber(number: nat)
    | NextFile(number: nat)
    | LastSequence(number: nat)
    | Pointer(level: nat, key: Bytes)
    | Deleted(level: nat, number: nat)
    | Added(file: NewFile)

  function Tag(f: Field): nat {
    match f
    case Comparator(_) => 1
    case LogNumber(_) => 2
    case NextFile(_) => 3
    case LastSequence(_) => 4
    case Pointer(_, _) => 5
    case Deleted(_, _) => 6
    case Added(_) => 7
    case PrevLogNumber(_) => 9
  }

  predicate KeyOk(k: Bytes) { 0 < |k| < WIDTH32 }

  predicate FieldOk(f: Field) {
    match f
    case Comparator(name) => |name| < WIDTH32
    case Pointer(level, key) => level < LEVELS && KeyOk(key)
    case Deleted(level, number) => level < LEVELS && number < WIDTH64
    case Added(n) => n.level < LEVELS && n.number < WIDTH64 && n.size < WIDTH64 && KeyOk(n.smallest) && KeyOk(n.largest)
    case _ => f.number < WIDTH64
  }

  /** What a field that was read looks like: a level there is, and no empty key. */
  predicate Sound(f: Field) {
    match f
    case Pointer(level, key) => level < 7 && key != []
    case Deleted(level, _) => level < 7
    case Added(n) => n.level < 7 && n.smallest != [] && n.largest != []
    case _ => true
  }

  /** What reading a field does to an edit. */
  function Apply(e: EditValue, f: Field): EditValue {
    match f
    case Comparator(name) => e.(comparator := Some(name))
    case LogNumber(n) => e.(logNumber := Some(n))
    case PrevLogNumber(n) => e.(prevLogNumber := Some(n))
    case NextFile(n) => e.(nextFile := Some(n))
    case LastSequence(n) => e.(lastSequence := Some(n))
    case Pointer(level, key) => e.(pointers := e.pointers + [(level, key)])
    case Deleted(level, n) => e.(deleted := e.deleted + {(level, n)})
    case Added(n) => e.(added := e.added + [n])
  }

  function ApplyAll(e: EditValue, fs: seq<Field>): EditValue {
    if fs == [] then e else Apply(ApplyAll(e, fs[..|fs| - 1]), fs[|fs| - 1])
  }

  // ---------- Writing ----------

  /** PutLengthPrefixedSlice. */
  function SliceBytes(s: Bytes): Bytes { EncodeVarint(|s|) + s }

  function FieldBytes(f: Field): Bytes {
    match f
    case Comparator(name) => SliceBytes(name)
    case Pointer(level, key) => EncodeVarint(level) + SliceBytes(key)
    case Deleted(level, n) => EncodeVarint(level) + EncodeVarint(n)
    case Added(n) =>
      EncodeVarint(n.level) +
      (EncodeVarint(n.number) + (EncodeVarint(n.size) + (SliceBytes(n.smallest) + SliceBytes(n.largest))))
    case _ => EncodeVarint(f.number)
  }

  function RecordBytes(fs: seq<Field>): Bytes {
    if fs == [] then []
    else RecordBytes(fs[..|fs| - 1]) + (EncodeVarint(Tag(fs[|fs| - 1])) + FieldBytes(fs[|fs| - 1]))
  }

  // ---------- Reading ----------

  /** GetLengthPrefixedSlice. */
  function SliceAt(s: Bytes, p: nat): (r: Option<(Bytes, nat)>)
    ensures r.Some? ==> p < r.value.1 <= |s|
  {
    match Varint32At(s, p, |s|)
    case None => None
    case Some((n, q)) => if q + n <= |s| then Some((s[q..q + n], q + n)) else None
  }

  /** GetInternalKey: an empty key is refused. */
  function KeyAt(s: Bytes, p: nat): (r: Option<(Bytes, nat)>)
    ensures r.Some? ==> p < r.value.1 <= |s|
  {
    var r := SliceAt(s, p);
    if r.Some? && r.value.0 != [] then r else None
  }

  /** GetLevel. */
  function LevelAt(s: Bytes, p: nat): (r: Option<(nat, nat)>)
    ensures r.Some? ==> p < r.value.1 <= |s|
  {
    var r := Varint32At(s, p, |s|);
    if r.Some? && r.value.0 < LEVELS then r else None
  }

  function AddedAt(s: Bytes, p: nat): (r: Option<(Field, nat)>)
    ensures r.Some? ==> p < r.value.1 <= |s|
  {
    match LevelAt(s, p)
    case None => None
    case Some((level, p1)) =>
      match Varint64At(s, p1, |s|)
      case None => None
      case Some((number, p2)) =>
        match Varint64At(s, p2, |s|)
        case None => None
        case Some((size, p3)) =>
          match KeyAt(s, p3)
          case None => None
          case Some((smallest, p4)) =>
            match KeyAt(s, p4)
            case None => None
            case Some((largest, p5)) => Some((Added(NewFile(level, number, size, smallest, largest)), p5))
  }

  /** The field with the given tag at p, and the place behind it. */
  function FieldAt(s: Bytes, p: nat, tag: nat): (r: Option<(Field, nat)>)
    ensures r.Some? ==> p < r.value.1 <= |s| && Tag(r.value.0) == tag && Sound(r.value.0)
  {
    if tag == 1 then
      var r := SliceAt(s, p);
      if r.Some? then Some((Comparator(r.value.0), r.value.1)) else None
    else if tag == 2 || tag == 3 || tag == 4 || tag == 9 then
      var r := Varint64At(s, p, |s|);
      if r.None? then None
      else
        var (n, q) := r.value;
        Some((if tag == 2 then LogNumber(n) else if tag == 3 then NextFile(n) else if tag == 4 then LastSequence(n)
              else PrevLogNumber(n), q))
    else if tag == 5 then
      match LevelAt(s, p)
      case None => None
      case Some((level, q)) =>
        var r := KeyAt(s, q);
        if r.Some? then Some((Pointer(level, r.value.0), r.value.1)) else None
    else if tag == 6 then
      match LevelAt(s, p)
      case None => None
      case Some((level, q)) =>
        var r := Varint64At(s, q, |s|);
        if r.Some? then Some((Deleted(level, r.value.0), r.value.1)) else None
    else if tag == 7 then AddedAt(s, p)
    else None
  }

  /** Field after field, to the end of the record; None when the record is malformed. */
  function ReadFrom(s: Bytes, p: nat, e: EditValue): Option<EditValue>
    decreases |s| - p
  {
    match Varint32At(s, p, |s|)
    case None => if p >= |s| then Some(e) else None
    case Some((tag, q)) =>
      match FieldAt(s, q, tag)
      case None => None
      case Some((f, r)) => ReadFrom(s, r, Apply(e, f))
  }

  // ---------- What was written is read ----------

  lemma Cut(s: Bytes, p: nat, a: Bytes, b: Bytes)
    requires p + |a + b| <= |s| && s[p..p + |a + b|] == a + b
    ensures s[p..p + |a|] == a && s[p + |a|..p + |a| + |b|] == b
  {
    var t := s[p..p + |a + b|];
    assert s[p..p + |a|] == t[..|a|];
    assert s[p + |a|..p + |a| + |b|] == t[|a|..];
  }

  lemma SliceRoundTrip(s: Bytes, p: nat, x: Bytes)
    requires |x| < WIDTH32 && p + |SliceBytes(x)| <= |s| && s[p..p + |SliceBytes(x)|] == SliceBytes(x)
    ensures SliceAt(s, p) == Some((x, p + |SliceBytes(x)|))
  {
    hide EncodeVarint, Varint32At;
    Cut(s, p, EncodeVarint(|x|), x);
    Decode32At(s, p, |s|, |x|);
  }

  lemma LevelRoundTrip(s: Bytes, p: nat, level: nat)
    requires level < LEVELS && p + |EncodeVarint(level)| <= |s|
             && s[p..p + |EncodeVarint(level)|] == EncodeVarint(level)
    ensures LevelAt(s, p) == Some((level, p + |EncodeVarint(level)|))
  {
    hide EncodeVarint, Varint32At;
    Decode32At(s, p, |s|, level);
  }

  lemma AddedRoundTrip(s: Bytes, p: nat, n: NewFile)
    requires FieldOk(Added(n)) && p + |FieldBytes(Added(n))| <= |s|
             && s[p..p + |FieldBytes(Added(n))|] == FieldBytes(Added(n))
    ensures AddedAt(s, p) == Some((Added(n), p + |FieldBytes(Added(n))|))
  {
    hide EncodeVarint, Varint64At, SliceBytes, SliceAt, LevelAt;
    var a, b, c, d, e := EncodeVarint(n.level), EncodeVarint(n.number), EncodeVarint(n.size), SliceBytes(n.smallest),
      SliceBytes(n.largest);
    Cut(s, p, a, b + (c + (d + e)));
    var p1 := p + |a|;
    Cut(s, p1, b, c + (d + e));
    var p2 := p1 + |b|;
    Cut(s, p2, c, d + e);
    var p3 := p2 + |c|;
    Cut(s, p3, d, e);
    LevelRoundTrip(s, p, n.level);
    Decode64At(s, p1, |s|, n.number);
    Decode64At(s, p2, |s|, n.size);
    SliceRoundTrip(s, p3, n.smallest);
    SliceRoundTrip(s, p3 + |d|, n.largest);
  }

  lemma FieldRoundTrip(s: Bytes, p: nat, f: Field)
    requires FieldOk(f) && p + |FieldBytes(f)| <= |s| && s[p..p + |FieldBytes(f)|] == FieldBytes(f)
    ensures FieldAt(s, p, Tag(f)) == Some((f, p + |FieldBytes(f)|))
  {
    hide EncodeVarint, Varint64At, SliceBytes, SliceAt, LevelAt, AddedAt;
    match f
    case Comparator(name) => SliceRoundTrip(s, p, name);
    case Pointer(level, key) =>
      Cut(s, p, EncodeVarint(level), SliceBytes(key));
      LevelRoundTrip(s, p, level);
      SliceRoundTrip(s, p + |EncodeVarint(level)|, key);
    case Deleted(level, n) =>
      Cut(s, p, EncodeVarint(level), EncodeVarint(n));
      LevelRoundTrip(s, p, level);
      Decode64At(s, p + |EncodeVarint(level)|, |s|, n);
    case Added(n) => AddedRoundTrip(s, p, n);
    case _ => Decode64At(s, p, |s|, f.number);
  }

  lemma ReadOneMore(s: Bytes, p: nat, f: Field, e: EditValue)
    requires FieldOk(f)
    requires var more := EncodeVarint(Tag(f)) + FieldBytes(f); p + |more| <= |s| && s[p..p + |more|] == more
    ensures ReadFrom(s, p, e) == ReadFrom(s, p + |EncodeVarint(Tag(f)) + FieldBytes(f)|, Apply(e, f))
  {
    hide EncodeVarint, Varint32At, FieldAt, Apply, FieldBytes, FieldOk;
    var a, b := EncodeVarint(Tag(f)), FieldBytes(f);
    Cut(s, p, a, b);
    Decode32At(s, p, |s|, Tag(f));
    FieldRoundTrip(s, p + |a|, f);
  }

  /** After the first k fields the reader stands behind them, with what they say. */
  lemma {:induction false} FieldsRead(fs: seq<Field>, k: nat, e: EditValue)
    requires k <= |fs| && forall f :: f in fs ==> FieldOk(f)
    ensures var s := RecordBytes(fs); var p := |RecordBytes(fs[..k])|;
            p <= |s| && ReadFrom(s, 0, e) == ReadFrom(s, p, ApplyAll(e, fs[..k]))
  {
    hide EncodeVarint, FieldAt, Apply, FieldBytes, ReadFrom, FieldOk, Tag;
    var s := RecordBytes(fs);
    PrefixOfRecord(fs, k);
    if k > 0 {
      FieldsRead(fs, k - 1, e);
      PrefixOfRecord(fs, k - 1);
      assert fs[..k][..k - 1] == fs[..k - 1];
      var f, p := fs[k - 1], |RecordBytes(fs[..k - 1])|;
      var more := EncodeVarint(Tag(f)) + FieldBytes(f);
      assert RecordBytes(fs[..k]) == RecordBytes(fs[..k - 1]) + more;
      assert s[p..p + |more|] == s[..p + |more|][p..] == more;
      ReadOneMore(s, p, f, ApplyAll(e, fs[..k - 1]));
    }
  }

  lemma {:induction false} PrefixOfRecord(fs: seq<Field>, k: nat)
    requires k <= |fs|
    ensures |RecordBytes(fs[..k])| <= |RecordBytes(fs)| && RecordBytes(fs)[..|RecordBytes(fs[..k])|] ==
            RecordBytes(fs[..k])
  {
    hide EncodeVarint, FieldBytes;
    var n := |fs| - 1;
    if k == |fs| {
      assert fs[..k] == fs;
    } else {
      PrefixOfRecord(fs[..n], k);
      assert fs[..n][..k] == fs[..k];
    }
  }

  /** A record is read as what its fields say, one after the other. */
  lemma RecordRoundTrip(fs: seq<Field>, e: EditValue)
    requires forall f :: f in fs ==> FieldOk(f)
    ensures ReadFrom(RecordBytes(fs), 0, e) == Some(ApplyAll(e, fs))
  {
    hide RecordBytes, FieldAt, Apply;
    FieldsRead(fs, |fs|, e);
    assert fs[..|fs|] == fs;
  }

  // ---------- An edit as a list of fields ----------

  const EMPTY: EditValue := EditValue(None, None, None, None, None, [], {}, [])

  function PointerFields(ps: seq<(nat, Bytes)>): (r: seq<Field>)
    ensures |r| == |ps| && forall i :: 0 <= i < |ps| ==> r[i] == Pointer(ps[i].0, ps[i].1)
  {
    seq(|ps|, i requires 0 <= i < |ps| => Pointer(ps[i].0, ps[i].1))
  }

  function DeletedFields(ds: seq<(nat, nat)>): (r: seq<Field>)
    ensures |r| == |ds| && forall i :: 0 <= i < |ds| ==> r[i] == Deleted(ds[i].0, ds[i].1)
  {
    seq(|ds|, i requires 0 <= i < |ds| => Deleted(ds[i].0, ds[i].1))
  }

  function AddedFields(ns: seq<NewFile>): (r: seq<Field>)
    ensures |r| == |ns| && forall i :: 0 <= i < |ns| ==> r[i] == Added(ns[i])
  {
    seq(|ns|, i requires 0 <= i < |ns| => Added(ns[i]))
  }

  function Single(b: bool, f: Field): seq<Field> { if b then [f] else [] }

  function NumberFields(e: EditValue): seq<Field> {
    Single(e.comparator.Some?, Comparator(if e.comparator.Some? then e.comparator.value else []))
    + Single(e.logNumber.Some?, LogNumber(if e.logNumber.Some? then e.logNumber.value else 0))
    + Single(e.prevLogNumber.Some?, PrevLogNumber(if e.prevLogNumber.Some? then e.prevLogNumber.value else 0))
    + Single(e.nextFile.Some?, NextFile(if e.nextFile.Some? then e.nextFile.value else 0))
    + Single(e.lastSequence.Some?, LastSequence(if e.lastSequence.Some? then e.lastSequence.value else 0))
  }

  /** The fields in the order they are written; `ds` lists the deleted files. */
  function FieldsOf(e: EditValue, ds: seq<(nat, nat)>): seq<Field> {
    NumberFields(e) + PointerFields(e.pointers) + DeletedFields(ds) + AddedFields(e.added)
  }

  ghost predicate EditFits(e: EditValue) {
    && (e.comparator.Some? ==> |e.comparator.value| < WIDTH32)
    && (e.logNumber.Some? ==> e.logNumber.value < WIDTH64) && (e.prevLogNumber.Some? ==>
         e.prevLogNumber.value < WIDTH64)
    && (e.nextFile.Some? ==> e.nextFile.value < WIDTH64) && (e.lastSequence.Some? ==> e.lastSequence.value < WIDTH64)
    && (forall i :: 0 <= i < |e.pointers| ==> FieldOk(Pointer(e.pointers[i].0, e.pointers[i].1)))
    && (forall d :: d in e.deleted ==> FieldOk(Deleted(d.0, d.1)))
    && (forall i :: 0 <= i < |e.added| ==> FieldOk(Added(e.added[i])))
  }

  /** `ds` lists the set in the order of std::set: by level, then by number. */
  ghost predicate Lists(ds: seq<(nat, nat)>, deleted: set<(nat, nat)>) {
    && (forall i, j :: 0 <= i < j < |ds| ==> Before(ds[i], ds[j]))
    && forall d :: d in ds <==> d in deleted
  }

  predicate Before(a: (nat, nat), b: (nat, nat)) {
    a.0 < b.0 || (a.0 == b.0 && a.1 < b.1)
  }

  lemma {:induction false} ApplyJoin(e: EditValue, a: seq<Field>, b: seq<Field>)
    ensures ApplyAll(e, a + b) == ApplyAll(ApplyAll(e, a), b)
  {
    hide Apply;
    if b == [] {
      assert a + b == a;
    } else {
      var n := |b| - 1;
      ApplyJoin(e, a, b[..n]);
      assert (a + b)[..|a + b| - 1] == a + b[..n];
    }
  }

  lemma {:induction false} ApplyPointers(e: EditValue, ps: seq<(nat, Bytes)>)
    ensures ApplyAll(e, PointerFields(ps)) == e.(pointers := e.pointers + ps)
  {
    if ps != [] {
      var n := |ps| - 1;
      ApplyPointers(e, ps[..n]);
      assert PointerFields(ps)[..n] == PointerFields(ps[..n]);
      assert e.pointers + ps == e.pointers + ps[..n] + [ps[n]];
    }
  }

  lemma {:induction false} ApplyDeleted(e: EditValue, ds: seq<(nat, nat)>)
    ensures ApplyAll(e, DeletedFields(ds)) == e.(deleted := e.deleted + set d | d in ds)
  {
    if ds != [] {
      var n := |ds| - 1;
      ApplyDeleted(e, ds[..n]);
      assert DeletedFields(ds)[..n] == DeletedFields(ds[..n]);
      ElementsNext(e.deleted, ds);
    } else {
      assert e.deleted + {} == e.deleted;
    }
  }

  lemma ElementsNext(deleted: set<(nat, nat)>, ds: seq<(nat, nat)>)
    requires ds != []
    ensures var n := |ds| - 1;
            deleted + (set d | d in ds) == deleted + (set d | d in ds[..n]) + {(ds[n].0, ds[n].1)}
  {
    var n := |ds| - 1;
    assert ds == ds[..n] + [ds[n]];
    assert (ds[n].0, ds[n].1) == ds[n];
  }

  lemma {:induction false} ApplyAdded(e: EditValue, ns: seq<NewFile>)
    ensures ApplyAll(e, AddedFields(ns)) == e.(added := e.added + ns)
  {
    if ns != [] {
      var n := |ns| - 1;
      ApplyAdded(e, ns[..n]);
      assert AddedFields(ns)[..n] == AddedFields(ns[..n]);
      assert e.added + ns == e.added + ns[..n] + [ns[n]];
    }
  }

  lemma ApplySingle(e: EditValue, b: bool, f: Field)
    ensures ApplyAll(e, Single(b, f)) == if b then Apply(e, f) else e
  {
    hide Apply;
    assert b ==> Single(b, f)[..0] == [];
  }

  /** The scalar fields overwrite what was there; those that are absent leave it. */
  lemma ApplyNumbers(e: EditValue, at: EditValue)
    requires at.comparator == None && None == at.logNumber == at.prevLogNumber == at.nextFile == at.lastSequence
    ensures ApplyAll(at, NumberFields(e)) ==
            at.(comparator := e.comparator, logNumber := e.logNumber, prevLogNumber := e.prevLogNumber,
              nextFile := e.nextFile,
                lastSequence := e.lastSequence)
  {
    hide ApplyAll, Single;
    var a := Single(e.comparator.Some?, Comparator(if e.comparator.Some? then e.comparator.value else []));
    var b := Single(e.logNumber.Some?, LogNumber(if e.logNumber.Some? then e.logNumber.value else 0));
    var c := Single(e.prevLogNumber.Some?, PrevLogNumber(if e.prevLogNumber.Some? then e.prevLogNumber.value else 0));
    var d := Single(e.nextFile.Some?, NextFile(if e.nextFile.Some? then e.nextFile.value else 0));
    var f := Single(e.lastSequence.Some?, LastSequence(if e.lastSequence.Some? then e.lastSequence.value else 0));
    ApplyJoin(at, a + b + c + d, f);
    ApplyJoin(at, a + b + c, d);
    ApplyJoin(at, a + b, c);
    ApplyJoin(at, a, b);
    var x := at;
    ApplySingle(x, e.comparator.Some?, Comparator(if e.comparator.Some? then e.comparator.value else []));
    x := ApplyAll(x, a);
    ApplySingle(x, e.logNumber.Some?, LogNumber(if e.logNumber.Some? then e.logNumber.value else 0));
    x := ApplyAll(x, b);
    ApplySingle(x, e.prevLogNumber.Some?, PrevLogNumber(if e.prevLogNumber.Some? then e.prevLogNumber.value else 0));
    x := ApplyAll(x, c);
    ApplySingle(x, e.nextFile.Some?, NextFile(if e.nextFile.Some? then e.nextFile.value else 0));
    x := ApplyAll(x, d);
    ApplySingle(x, e.lastSequence.Some?, LastSequence(if e.lastSequence.Some? then e.lastSequence.value else 0));
  }

  /** Reading the fields of e into a cleared edit gives e, behind whatever compaction pointers
      the edit still had: Clear leaves those alone. */
  lemma FieldsGiveEdit(e: EditValue, ds: seq<(nat, nat)>, left: seq<(nat, Bytes)>)
    requires Lists(ds, e.deleted)
    ensures ApplyAll(EMPTY.(pointers := left), FieldsOf(e, ds)) == e.(pointers := left + e.pointers)
  {
    hide ApplyAll, NumberFields;
    var at := EMPTY.(pointers := left);
    ApplyJoin(at, NumberFields(e) + PointerFields(e.pointers) + DeletedFields(ds), AddedFields(e.added));
    ApplyJoin(at, NumberFields(e) + PointerFields(e.pointers), DeletedFields(ds));
    ApplyJoin(at, NumberFields(e), PointerFields(e.pointers));
    ApplyNumbers(e, at);
    var x := ApplyAll(at, NumberFields(e));
    ApplyPointers(x, e.pointers);
    x := ApplyAll(x, PointerFields(e.pointers));
    ApplyDeleted(x, ds);
    x := ApplyAll(x, DeletedFields(ds));
    ApplyAdded(x, e.added);
    assert {} + (set d | d in ds) == e.deleted;
    assert [] + e.added == e.added;
  }

  lemma FieldsFit(e: EditValue, ds: seq<(nat, nat)>)
    requires EditFits(e) && Lists(ds, e.deleted)
    ensures forall f :: f in FieldsOf(e, ds) ==> FieldOk(f)
  {
    forall f | f in DeletedFields(ds)
      ensures FieldOk(f)
    {
      var i :| 0 <= i < |ds| && f == Deleted(ds[i].0, ds[i].1);
      assert ds[i] in e.deleted;
    }
  }

  /** Decoding an encoded edit gives the edit. */
  lemma EditRoundTrip(e: EditValue, ds: seq<(nat, nat)>, left: seq<(nat, Bytes)>)
    requires EditFits(e) && Lists(ds, e.deleted)
    ensures ReadFrom(RecordBytes(FieldsOf(e, ds)), 0, EMPTY.(pointers := left)) ==
            Some(e.(pointers := left + e.pointers))
  {
    hide RecordBytes, ReadFrom, ApplyAll, FieldsOf, EditFits, FieldOk;
    FieldsFit(e, ds);
    RecordRoundTrip(FieldsOf(e, ds), EMPTY.(pointers := left));
    FieldsGiveEdit(e, ds, left);
  }

  // ---------- The class ----------

  predicate IsLeast(d: (nat, nat), rest: set<(nat, nat)>) {
    d in rest && forall x :: x in rest ==> x == d || Before(d, x)
  }

  lemma {:induction false} LeastExists(rest: set<(nat, nat)>)
    requires rest != {}
    ensures exists d :: IsLeast(d, rest)
    decreases |rest|
  {
    var a :| a in rest;
    var others := rest - {a};
    if others == {} {
      assert rest == {a};
      assert IsLeast(a, rest);
    } else {
      LeastExists(others);
      var d :| IsLeast(d, others);
      assert a.0 == d.0 && a.1 == d.1 ==> a == d;
      var least := if Before(a, d) then a else d;
      forall x | x in rest
        ensures x == least || Before(least, x)
      {
        assert x == a || x in others;
      }
      assert IsLeast(least, rest);
    }
  }

  lemma RecordNext(fs: seq<Field>, f: Field)
    ensures RecordBytes(fs + [f]) == RecordBytes(fs) + (EncodeVarint(Tag(f)) + FieldBytes(f))
  {
    hide EncodeVarint, FieldBytes, Tag;
    assert (fs + [f])[..|fs|] == fs;
  }

  method PutSlice(s: Bytes) returns (r: Bytes)
    requires |s| < WIDTH32
    ensures r == SliceBytes(s)
  {
    hide EncodeVarint;
    r := EncodeVarint32(|s|);
    r := r + s;
  }

  /** One field: its tag and its content. */
  method PutField(dst: Bytes, f: Field, ghost fs: seq<Field>, ghost start: Bytes) returns (r: Bytes)
    requires FieldOk(f) && dst == start + RecordBytes(fs)
    ensures r == start + RecordBytes(fs + [f])
  {
    hide EncodeVarint, RecordBytes, FieldBytes, FieldOk;
    RecordNext(fs, f);
    var tag := EncodeVarint32(Tag(f));
    var content := PutContent(f);
    r := dst + (tag + content);
  }

  method PutContent(f: Field) returns (r: Bytes)
    requires FieldOk(f)
    ensures r == FieldBytes(f)
  {
    hide EncodeVarint, SliceBytes;
    match f
    case Comparator(name) =>
      r := PutSlice(name);
    case Pointer(level, key) =>
      var a := EncodeVarint32(level);
      var b := PutSlice(key);
      r := a + b;
    case Deleted(level, n) =>
      var a := EncodeVarint32(level);
      var b := EncodeVarint64(n);
      r := a + b;
    case Added(n) =>
      var a := EncodeVarint32(n.level);
      var b := EncodeVarint64(n.number);
      var c := EncodeVarint64(n.size);
      var d := PutSlice(n.smallest);
      var e := PutSlice(n.largest);
      r := a + (b + (c + (d + e)));
    case _ =>
      r := EncodeVarint64(f.number);
  }

  method PutIf(dst: Bytes, present: bool, f: Field, ghost fs: seq<Field>, ghost start: Bytes) returns (r: Bytes)
    requires (present ==> FieldOk(f)) && dst == start + RecordBytes(fs)
    ensures r == start + RecordBytes(fs + Single(present, f))
  {
    hide RecordBytes, FieldOk;
    r := dst;
    assert fs + [] == fs;
    if present {
      r := PutField(dst, f, fs, start);
    }
  }

  lemma NoFields(dst: Bytes)
    ensures dst == dst + RecordBytes([])
  {
  }

  class VersionEdit {
    var comparator: Option<Bytes>
    var logNumber: Option<nat>
    var prevLogNumber: Option<nat>
    var nextFile: Option<nat>
    var lastSequence: Option<nat>
    var pointers: seq<(nat, Bytes)>
    var deleted: set<(nat, nat)>
    var added: seq<NewFile>

    function Value(): EditValue
      reads this
    {
      EditValue(comparator, logNumber, prevLogNumber, nextFile, lastSequence, pointers, deleted, added)
    }

    constructor ()
      ensures Value() == EMPTY
    {
      comparator, logNumber, prevLogNumber, nextFile, lastSequence := None, None, None, None, None;
      pointers, deleted, added := [], {}, [];
    }

    /** Clear: everything but the compaction pointers. */
    method Clear()
      modifies this
      ensures Value() == EMPTY.(pointers := old(pointers))
    {
      comparator, logNumber, prevLogNumber, nextFile, lastSequence := None, None, None, None, None;
      deleted, added := {}, [];
    }

    /** EncodeTo: append the fields. */
    method EncodeTo(dst: Bytes) returns (r: Bytes, ghost ds: seq<(nat, nat)>)
      requires EditFits(Value())
      ensures Lists(ds, deleted) && r == dst + RecordBytes(FieldsOf(Value(), ds))
    {
      hide RecordBytes, NumberFields;
      ghost var fs := NumberFields(Value());
      r := PutNumbers(dst);
      r := PutPointers(r, fs, dst);
      fs := fs + PointerFields(pointers);
      r, ds := PutDeleted(r, fs, dst);
      fs := fs + DeletedFields(ds);
      r := PutAdded(r, fs, dst);
    }

    method PutNumbers(dst: Bytes) returns (r: Bytes)
      requires EditFits(Value())
      ensures r == dst + RecordBytes(NumberFields(Value()))
    {
      hide Single, RecordBytes;
      NoFields(dst);
      ghost var fs: seq<Field> := [];
      var f := Comparator(if comparator.Some? then comparator.value else []);
      r := PutIf(dst, comparator.Some?, f, fs, dst);
      fs := fs + Single(comparator.Some?, f);
      f := LogNumber(if logNumber.Some? then logNumber.value else 0);
      r := PutIf(r, logNumber.Some?, f, fs, dst);
      fs := fs + Single(logNumber.Some?, f);
      f := PrevLogNumber(if prevLogNumber.Some? then prevLogNumber.value else 0);
      r := PutIf(r, prevLogNumber.Some?, f, fs, dst);
      fs := fs + Single(prevLogNumber.Some?, f);
      f := NextFile(if nextFile.Some? then nextFile.value else 0);
      r := PutIf(r, nextFile.Some?, f, fs, dst);
      fs := fs + Single(nextFile.Some?, f);
      f := LastSequence(if lastSequence.Some? then lastSequence.value else 0);
      r := PutIf(r, lastSequence.Some?, f, fs, dst);
      assert [] + Single(comparator.Some?, Comparator(if comparator.Some? then comparator.value else [])) ==
             Single(comparator.Some?, Comparator(if comparator.Some? then comparator.value else []));
    }

    method PutPointers(dst: Bytes, ghost fs: seq<Field>, ghost start: Bytes) returns (r: Bytes)
      requires EditFits(Value()) && dst == start + RecordBytes(fs)
      ensures r == start + RecordBytes(fs + PointerFields(pointers))
    {
      hide RecordBytes;
      r := dst;
      var i := 0;
      assert fs + PointerFields(pointers[..0]) == fs;
      while i < |pointers|
        invariant 0 <= i <= |pointers| && r == start + RecordBytes(fs + PointerFields(pointers[..i]))
      {
        r := PutField(r, Pointer(pointers[i].0, pointers[i].1), fs + PointerFields(pointers[..i]), start);
        assert fs + PointerFields(pointers[..i + 1]) ==
          fs + PointerFields(pointers[..i]) + [Pointer(pointers[i].0, pointers[i].1)];
        i := i + 1;
      }
      assert pointers[..i] == pointers;
    }

    method PutDeleted(dst: Bytes, ghost fs: seq<Field>, ghost start: Bytes)
      returns (r: Bytes, ghost ds: seq<(nat, nat)>)
      requires EditFits(Value()) && dst == start + RecordBytes(fs)
      ensures Lists(ds, deleted) && r == start + RecordBytes(fs + DeletedFields(ds))
    {
      hide RecordBytes;
      r := dst;
      ds := [];
      var rest := deleted;
      assert fs + DeletedFields(ds) == fs;
      while rest != {}
        invariant rest <= deleted && Lists(ds, deleted - rest) && r == start + RecordBytes(fs + DeletedFields(ds))
        invariant forall a, b :: a in ds && b in rest ==> Before(a, b)
        decreases |rest|
      {
        LeastExists(rest);
        var d :| IsLeast(d, rest);
        r := PutField(r, Deleted(d.0, d.1), fs + DeletedFields(ds), start);
        assert fs + DeletedFields(ds + [d]) == fs + DeletedFields(ds) + [Deleted(d.0, d.1)];
        ds := ds + [d];
        rest := rest - {d};
      }
      assert deleted - rest == deleted;
    }

    method PutAdded(dst: Bytes, ghost fs: seq<Field>, ghost start: Bytes) returns (r: Bytes)
      requires EditFits(Value()) && dst == start + RecordBytes(fs)
      ensures r == start + RecordBytes(fs + AddedFields(added))
    {
      hide RecordBytes;
      r := dst;
      var i := 0;
      assert fs + AddedFields(added[..0]) == fs;
      while i < |added|
        invariant 0 <= i <= |added| && r == start + RecordBytes(fs + AddedFields(added[..i]))
      {
        r := PutField(r, Added(added[i]), fs + AddedFields(added[..i]), start);
        assert fs + AddedFields(added[..i + 1]) == fs + AddedFields(added[..i]) + [Added(added[i])];
        i := i + 1;
      }
      assert added[..i] == added;
    }

    /** DecodeFrom: field after field. */
    method DecodeFrom(src: Bytes) returns (ok: bool)
      modifies this
      ensures var r := ReadFrom(src, 0, EMPTY.(pointers := old(pointers))); ok == r.Some? && (ok ==> Value() == r.value)
    {
      hide Varint32At, FieldAt;
      Clear();
      var p := 0;
      ghost var whole := ReadFrom(src, 0, Value());
      var tag := GetVarint32(src, p, |src|);
      while tag.Some?
        invariant tag == Varint32At(src, p, |src|) && ReadFrom(src, p, Value()) == whole
        decreases |src| - p
      {
        var field := FieldAt(src, tag.value.1, tag.value.0);
        if field.None? {
          return false;
        }
        TakeField(field.value.0);
        p := field.value.1;
        tag := GetVarint32(src, p, |src|);
      }
      ok := p >= |src|;
    }

    method TakeField(f: Field)
      modifies this
      ensures Value() == Apply(old(Value()), f)
    {
      match f
      case Comparator(name) => comparator := Some(name);
      case LogNumber(n) => logNumber := Some(n);
      case PrevLogNumber(n) => prevLogNumber := Some(n);
      case NextFile(n) => nextFile := Some(n);
      case LastSequence(n) => lastSequence := Some(n);
      case Pointer(level, key) => pointers := pointers + [(level, key)];
      case Deleted(level, n) => deleted := deleted + {(level, n)};
      case Added(n) => added := added + [n];
    }
  }

  /** An edit written out and read into another one, which says nothing yet. */
  method WriteAndRead(e: VersionEdit) returns (ok: bool, e': VersionEdit)
    requires EditFits(e.Value())
    ensures ok && fresh(e') && e'.Value() == e.Value()
  {
    hide RecordBytes, FieldsOf, EditFits, Lists, ReadFrom;
    var record, ds := e.EncodeTo([]);
    e' := new VersionEdit();
    EditRoundTrip(e.Value(), ds, []);
    ok := e'.DecodeFrom(record);
    assert [] + RecordBytes(FieldsOf(e.Value(), ds)) == RecordBytes(FieldsOf(e.Value(), ds));
    assert [] + e.pointers == e.pointers;
  }
}
