/** The write-ahead log: fragmenting records into blocks and putting them together
    again from any prefix of what was written. */
module Log {
  import opened Coding
  import opened Crc32c
  import opened Options

  const BLOCK_SIZE: nat := 32768
  const HEADER_SIZE: nat := 7

  /** Codes of the physical record types; the reader adds two of its own. */
  const ZERO: nat := 0
  const FULL: nat := 1
  const FIRST: nat := 2
  const MIDDLE: nat := 3
  const LAST: nat := 4
  const EOF: nat := 5
  const BAD_RECORD: nat := 6

  // ---------- What a log consists of ----------

  /** A log file is a row of pieces: zeros that fill the end of a block, and fragments. */
  datatype Piece = Trailer(length: nat) | Fragment(kind: nat, payload: Bytes)

  predicate PieceOk(p: Piece) {
    match p
    case Trailer(n) => 0 < n < HEADER_SIZE
    case Fragment(kind, payload) => FULL <= kind <= LAST && |payload| < 0x1_0000
  }

  function Zeros(n: nat): (r: Bytes)
    ensures |r| == n && forall i :: 0 <= i < n ==> r[i] == 0
  {
    seq(n, _ => 0)
  }

  function Header(kind: nat, payload: Bytes): (r: Bytes)
    requires kind <= LAST && |payload| < 0x1_0000
    ensures |r| == HEADER_SIZE
  {
    EncodeFixed32(Mask(Value([ByteOf(kind)] + payload)))
      + [ByteOf(|payload| % 256), ByteOf(|payload| / 256), ByteOf(kind)]
  }

  function PieceBytes(p: Piece): (r: Bytes)
    requires PieceOk(p)
    ensures |r| == PieceSize(p)
  {
    match p
    case Trailer(n) => Zeros(n)
    case Fragment(kind, payload) => Header(kind, payload) + payload
  }

  function PieceSize(p: Piece): nat {
    match p
    case Trailer(n) => n
    case Fragment(_, payload) => HEADER_SIZE + |payload|
  }

  /** A piece may stand at offset o of a block: trailers end the block, fragments stay inside it. */
  predicate Fits(o: nat, p: Piece) {
    PieceOk(p) && if p.Trailer? then o + PieceSize(p) == BLOCK_SIZE else o + PieceSize(p) <= BLOCK_SIZE
  }

  function Size(ps: seq<Piece>): nat {
    if ps == [] then 0 else Size(ps[..|ps| - 1]) + PieceSize(ps[|ps| - 1])
  }

  predicate Placed(ps: seq<Piece>) {
    ps == [] || (Placed(ps[..|ps| - 1]) && Fits(Size(ps[..|ps| - 1]) % BLOCK_SIZE, ps[|ps| - 1]))
  }

  function Layout(ps: seq<Piece>): (r: Bytes)
    requires Placed(ps)
    ensures |r| == Size(ps)
  {
    if ps == [] then [] else Layout(ps[..|ps| - 1]) + PieceBytes(ps[|ps| - 1])
  }

  /** Any prefix of the pieces is placed and laid out as a prefix of the bytes. */
  lemma {:induction false} PrefixPlaced(ps: seq<Piece>, i: nat)
    requires Placed(ps) && i <= |ps|
    ensures Placed(ps[..i]) && Size(ps[..i]) <= Size(ps) && Layout(ps)[..Size(ps[..i])] == Layout(ps[..i])
  {
    hide PieceBytes, Fits, PieceSize;
    var n := |ps|;
    if i == n {
      assert ps[..i] == ps;
    } else {
      PrefixPlaced(ps[..n - 1], i);
      assert ps[..n - 1][..i] == ps[..i];
    }
  }

  /** The next piece follows. */
  lemma NextPlaced(ps: seq<Piece>, i: nat)
    requires Placed(ps) && i < |ps|
    ensures Placed(ps[..i]) && Fits(Size(ps[..i]) % BLOCK_SIZE, ps[i])
    ensures Size(ps[..i + 1]) == Size(ps[..i]) + PieceSize(ps[i]) <= Size(ps)
    ensures Layout(ps)[Size(ps[..i])..Size(ps[..i + 1])] == PieceBytes(ps[i])
  {
    hide PieceBytes, Fits, PieceSize, Layout, Placed, Size;
    PrefixPlaced(ps, i + 1);
    var q := ps[..i + 1];
    assert q[..|q| - 1] == ps[..i] && q[|q| - 1] == ps[i];
    LastPlaced(q);
    var a, b := Size(ps[..i]), Size(q);
    var front := Layout(ps)[..b];
    assert Layout(ps)[a..b] == front[a..];
  }

  lemma LastPlaced(q: seq<Piece>)
    requires Placed(q) && q != []
    ensures var p, front := q[|q| - 1], q[..|q| - 1];
            && Placed(front) && Fits(Size(front) % BLOCK_SIZE, p) && Size(q) == Size(front) + PieceSize(p)
            && Layout(q)[Size(front)..] == PieceBytes(p)
  {
  }

  // ---------- Putting fragments together ----------

  /** The records complete so far, and what has arrived of the next one. */
  datatype Assembly = Assembly(records: seq<Bytes>, partial: Option<Bytes>)

  function Add(a: Assembly, p: Piece): Assembly {
    match p
    case Trailer(_) => a
    case Fragment(kind, payload) =>
      if kind == FULL then Assembly(a.records + [payload], None)
      else if kind == FIRST then Assembly(a.records, Some(payload))
      else if a.partial.None? then a
      else if kind == MIDDLE then Assembly(a.records, Some(a.partial.value + payload))
      else Assembly(a.records + [a.partial.value + payload], None)
  }

  function Assemble(ps: seq<Piece>): Assembly {
    if ps == [] then Assembly([], None) else Add(Assemble(ps[..|ps| - 1]), ps[|ps| - 1])
  }

  /** Fragments come in the order in which a writer emits them. */
  predicate Orderly(ps: seq<Piece>) {
    ps == [] || (Orderly(ps[..|ps| - 1]) && InOrder(Assemble(ps[..|ps| - 1]).partial, ps[|ps| - 1]))
  }

  predicate InOrder(partial: Option<Bytes>, p: Piece) {
    p.Fragment? ==> FULL <= p.kind <= LAST && (p.kind <= FIRST <==> partial.None?)
  }

  lemma {:induction false} OrderlyAt(ps: seq<Piece>, i: nat)
    requires Orderly(ps) && i < |ps|
    ensures InOrder(Assemble(ps[..i]).partial, ps[i])
  {
    hide Assemble, InOrder;
    if i < |ps| - 1 {
      OrderlyAt(ps[..|ps| - 1], i);
      assert ps[..|ps| - 1][..i] == ps[..i];
    }
  }

  lemma AssembleNext(ps: seq<Piece>, i: nat)
    requires i < |ps|
    ensures Assemble(ps[..i + 1]) == Add(Assemble(ps[..i]), ps[i])
  {
    assert ps[..i + 1][..i] == ps[..i];
  }

  lemma {:induction false} RecordsGrow(ps: seq<Piece>, i: nat, j: nat)
    requires i <= j <= |ps|
    ensures Assemble(ps[..i]).records <= Assemble(ps[..j]).records
    decreases j
  {
    if i < j {
      RecordsGrow(ps, i, j - 1);
      AssembleNext(ps, j - 1);
    }
  }

  // ---------- The writer ----------

  class Writer {
    var dest: Bytes
    var blockOffset: nat
    ghost var pieces: seq<Piece>
    ghost var records: seq<Bytes>
    /** Where each record ends, in pieces. */
    ghost var ends: seq<nat>

    ghost predicate Valid()
      reads this
    {
      && Placed(pieces) && dest == Layout(pieces)
      && blockOffset <= BLOCK_SIZE && blockOffset % BLOCK_SIZE == |dest| % BLOCK_SIZE
      && Assemble(pieces) == Assembly(records, None) && Orderly(pieces)
      && Ended(pieces, records, ends)
    }

    constructor ()
      ensures Valid() && dest == [] && records == [] && ends == []
    {
      dest, blockOffset, pieces, records, ends := [], 0, [], [], [];
    }

    /** The ghost side of appending one piece. */
    ghost method Append(p: Piece)
      requires Placed(pieces) && Fits(Size(pieces) % BLOCK_SIZE, p)
      modifies this`pieces
      ensures Placed(pieces) && pieces == old(pieces) + [p]
      ensures Layout(pieces) == Layout(old(pieces)) + PieceBytes(p)
      ensures Assemble(pieces) == Add(Assemble(old(pieces)), p)
      ensures Orderly(pieces) <==> Orderly(old(pieces)) && InOrder(Assemble(old(pieces)).partial, p)
    {
      pieces := pieces + [p];
      assert pieces[..|pieces| - 1] == old(pieces);
    }

    /** State of AddRecord's loop: everything written fits, the fragments so far hold `done`. */
    ghost predicate Emitting(begin: bool, done: Bytes)
      reads this
    {
      && Placed(pieces) && dest == Layout(pieces)
      && blockOffset <= BLOCK_SIZE && blockOffset % BLOCK_SIZE == |dest| % BLOCK_SIZE
      && Assemble(pieces) == Assembly(records, if begin then None else Some(done)) && Orderly(pieces)
      && Ended(pieces, records, ends)
    }

    /** Cut the record into fragments that fit what is left of each block. */
    method AddRecord(record: Bytes)
      requires Valid()
      modifies this
      ensures Valid() && records == old(records) + [record]
      ensures old(dest) <= dest && old(pieces) <= pieces
      ensures ends == old(ends) + [|pieces|]
    {
      hide Ended, Assemble, Layout, Placed, Size, PieceBytes, Orderly;
      var ptr := 0;
      var begin := true;
      while true
        invariant 0 <= ptr <= |record| && (begin ==> ptr == 0)
        invariant !begin ==> ptr < |record| && blockOffset == BLOCK_SIZE
        invariant Emitting(begin, record[..ptr])
        invariant records == old(records) && ends == old(ends)
        invariant old(dest) <= dest && old(pieces) <= pieces
        decreases |record| - ptr + if begin then 1 else 0
      {
        SwitchBlock(begin, record[..ptr]);
        var left := |record| - ptr;
        var avail := BLOCK_SIZE - blockOffset - HEADER_SIZE;
        var length := if left < avail then left else avail;
        var end := left == length;
        var kind := if begin && end then FULL else if begin then FIRST else if end then LAST else MIDDLE;
        ghost var before := pieces;
        EmitPhysicalRecord(kind, record[ptr..ptr + length]);
        assert record[..ptr] + record[ptr..ptr + length] == record[..ptr + length];
        ptr := ptr + length;
        if end {
          assert record[..ptr] == record;
          EndedComplete(before, records, ends, pieces[|pieces| - 1], record);
          records, ends := records + [record], ends + [|pieces|];
          return;
        }
        EndedKeeps(before, records, ends, pieces[|pieces| - 1]);
        begin := false;
      }
    }

    /** Fill the rest of a block that has no room for a header. */
    method SwitchBlock(ghost begin: bool, ghost done: Bytes)
      requires Emitting(begin, done)
      modifies this
      ensures Emitting(begin, done) && blockOffset + HEADER_SIZE <= BLOCK_SIZE
      ensures records == old(records) && ends == old(ends) && old(dest) <= dest && old(pieces) <= pieces
      ensures old(blockOffset) == BLOCK_SIZE ==> blockOffset == 0
    {
      hide Ended, Assemble, Layout, Placed, Size, PieceBytes, Orderly;
      var leftover := BLOCK_SIZE - blockOffset;
      if leftover < HEADER_SIZE {
        if leftover > 0 {
          EndedKeeps(pieces, records, ends, Trailer(leftover));
          dest := dest + Zeros(leftover);
          Append(Trailer(leftover));
          assert PieceBytes(Trailer(leftover)) == Zeros(leftover) by { TrailerBytes(leftover); }
        }
        blockOffset := 0;
      }
    }

    /** Write the header and the payload of one fragment. */
    method EmitPhysicalRecord(kind: nat, payload: Bytes)
      requires FULL <= kind <= LAST && blockOffset + HEADER_SIZE + |payload| <= BLOCK_SIZE
      requires Placed(pieces) && dest == Layout(pieces) && blockOffset % BLOCK_SIZE == |dest| % BLOCK_SIZE
      modifies this
      ensures pieces == old(pieces) + [Fragment(kind, payload)] && Placed(pieces) && dest == Layout(pieces)
      ensures Assemble(pieces) == Add(Assemble(old(pieces)), Fragment(kind, payload))
      ensures Orderly(pieces) <==>
                Orderly(old(pieces)) && InOrder(Assemble(old(pieces)).partial, Fragment(kind, payload))
      ensures blockOffset == old(blockOffset) + HEADER_SIZE + |payload|
              && blockOffset % BLOCK_SIZE == |dest| % BLOCK_SIZE
      ensures records == old(records) && ends == old(ends) && old(dest) <= dest
    {
      hide Assemble, Layout, Placed, Size, Orderly, Header;
      var header := MakeHeader(kind, payload);
      dest := dest + header;
      dest := dest + payload;
      blockOffset := blockOffset + HEADER_SIZE + |payload|;
      Append(Fragment(kind, payload));
    }
  }

  method MakeHeader(kind: nat, payload: Bytes) returns (header: Bytes)
    requires kind <= LAST && |payload| < 0x1_0000
    ensures header == Header(kind, payload)
  {
    hide Crc, Mask, EncodeFixed32, ByteOf;
    var typeCrc := Extend(0, [ByteOf(kind)], 0);
    var crc := Extend(typeCrc, payload, 0);
    CrcAppend(0, [ByteOf(kind)], payload);
    header := EncodeFixed32(Mask(crc)) + [ByteOf(|payload| % 256), ByteOf(|payload| / 256), ByteOf(kind)];
  }

  lemma TrailerBytes(n: nat)
    requires 0 < n < HEADER_SIZE
    ensures PieceBytes(Trailer(n)) == Zeros(n)
  {
  }

  lemma EndsAtKeeps(ps: seq<Piece>, k: nat, end: nat, p: Piece)
    requires EndsAt(ps, k, end)
    ensures EndsAt(ps + [p], k, end)
  {
    hide Assemble;
    assert (ps + [p])[..end] == ps[..end] && (ps + [p])[..end - 1] == ps[..end - 1];
  }

  lemma EndedKeeps(ps: seq<Piece>, records: seq<Bytes>, ends: seq<nat>, p: Piece)
    requires Ended(ps, records, ends)
    ensures Ended(ps + [p], records, ends)
  {
    hide EndsAt;
    forall k | 0 <= k < |ends|
      ensures EndsAt(ps + [p], k, ends[k])
    {
      EndsAtKeeps(ps, k, ends[k], p);
    }
  }

  lemma EndsHere(ps: seq<Piece>, k: nat, p: Piece)
    requires |Assemble(ps).records| == k && |Add(Assemble(ps), p).records| == k + 1
    ensures EndsAt(ps + [p], k, |ps| + 1)
  {
    hide Assemble, Add;
    var all := ps + [p];
    AssembleNext(all, |ps|);
    assert all[..|ps|] == ps && all[..|ps| + 1] == all;
  }

  /** The piece that completes a record. */
  lemma EndedComplete(ps: seq<Piece>, records: seq<Bytes>, ends: seq<nat>, p: Piece, r: Bytes)
    requires Ended(ps, records, ends) && Assemble(ps).records == records
    requires |Add(Assemble(ps), p).records| == |records| + 1
    ensures Ended(ps + [p], records + [r], ends + [|ps| + 1])
  {
    hide Assemble, Add, EndsAt;
    EndedKeeps(ps, records, ends, p);
    EndsHere(ps, |records|, p);
  }

  /** Record number k is complete with piece number end - 1, and not before. */
  ghost predicate EndsAt(ps: seq<Piece>, k: nat, end: nat) {
    0 < end <= |ps| && |Assemble(ps[..end]).records| == k + 1 && |Assemble(ps[..end - 1]).records| == k
  }

  ghost predicate Ended(pieces: seq<Piece>, records: seq<Bytes>, ends: seq<nat>) {
    |ends| == |records| && forall k :: 0 <= k < |ends| ==> EndsAt(pieces, k, ends[k])
  }

  // ---------- The reader ----------

  /** The file is a prefix of what was written. */
  ghost predicate IsPrefix(file: Bytes, ps: seq<Piece>) {
    Placed(ps) && |file| <= Size(ps) && file == Layout(ps)[..|file|]
  }

  /** Number of the next fragment, past a trailer. */
  function NextFragment(ps: seq<Piece>, i: nat): nat {
    if i < |ps| && ps[i].Trailer? then i + 1 else i
  }

  /** Is piece i there, and whole? */
  predicate Whole(ps: seq<Piece>, i: nat, n: nat) {
    i < |ps| && ps[i].Fragment? && Size(ps[..i + 1]) <= n
  }

  /** Whatever the bytes are: a physical record of kind `kind` stands at byte p of the file, within
      one block and with the right checksum. */
  ghost predicate RecordAt(file: Bytes, p: nat, kind: nat, payload: Bytes) {
    var q := p + 7 + |payload|;
    && q <= |file| && p % 32768 + 7 + |payload| <= 32768
    && |payload| == NatOf(file[p + 4]) + 256 * NatOf(file[p + 5]) && kind == NatOf(file[p + 6])
    && Unmask(DecodeFixed32(file[p..q])) == Value(file[p + 6..q]) && payload == file[p + 7..q]
  }

  /** Where the next physical record may stand: not in the last bytes of a block. */
  function NextStart(p: nat): nat {
    if BLOCK_SIZE - p % BLOCK_SIZE < HEADER_SIZE then p - p % BLOCK_SIZE + BLOCK_SIZE else p
  }

  function Joined(parts: seq<Bytes>): Bytes {
    if parts == [] then [] else Joined(parts[..|parts| - 1]) + parts[|parts| - 1]
  }

  /** Whatever the bytes are: the parts stand one after the other in the file as the fragments of
      one record, the whole record or its beginning. */
  ghost predicate Stands(file: Bytes, offsets: seq<nat>, parts: seq<Bytes>, whole: bool) {
    && |offsets| == |parts| > 0
    && (forall i :: 0 <= i < |parts| ==>
         RecordAt(file, offsets[i], if whole && |parts| == 1 then FULL else if i == 0 then FIRST
                                    else if whole && i == |parts| - 1 then LAST else MIDDLE, parts[i]))
    && forall i, j :: 0 <= i && j == i + 1 < |parts| ==> offsets[j] == NextStart(offsets[i] + HEADER_SIZE + |parts[i]|)
  }

  lemma StandsMore(file: Bytes, offsets: seq<nat>, parts: seq<Bytes>, p: nat, part: Bytes, whole: bool)
    requires Stands(file, offsets, parts, false) && RecordAt(file, p, if whole then LAST else MIDDLE, part)
    requires p == NextStart(offsets[|parts| - 1] + HEADER_SIZE + |parts[|parts| - 1]|)
    ensures Stands(file, offsets + [p], parts + [part], whole) && Joined(parts + [part]) == Joined(parts) + part
  {
    hide RecordAt, NextStart;
    assert (parts + [part])[..|parts|] == parts;
  }

  lemma StandsAlone(file: Bytes, p: nat, part: Bytes, whole: bool)
    requires RecordAt(file, p, if whole then FULL else FIRST, part)
    ensures Stands(file, [p], [part], whole) && Joined([part]) == part
  {
    hide RecordAt;
    assert [part][..0] == [];
  }

  /** Between two places of the file stands a record, after whatever else. */
  ghost predicate Recorded(file: Bytes, from: int, to: int, record: Bytes) {
    exists offsets, parts ::
      && Stands(file, offsets, parts, true) && record == Joined(parts) && from <= offsets[0]
      && to == offsets[|parts| - 1] + HEADER_SIZE + |parts[|parts| - 1]|
  }

  function BlockEnd(p: nat): nat { p - p % BLOCK_SIZE + BLOCK_SIZE }

  /** The bytes from p to the end of its block, as far as there are any. */
  function RestOfBlock(file: Bytes, p: nat): (r: Bytes)
    requires p <= |file|
  {
    file[p..if |file| < BlockEnd(p) then |file| else BlockEnd(p)]
  }

  /** What is made of a buffer that begins with a header: the kind and payload and the rest of the
      buffer, or nothing of the buffer, with or without a corruption being reported. */
  ghost predicate HeaderSays(buffer: Bytes, eof: bool, t: nat, fragment: Bytes, rest: Bytes, drops: int)
    requires |buffer| >= HEADER_SIZE
  {
    var length, kind := NatOf(buffer[4]) + 256 * NatOf(buffer[5]), NatOf(buffer[6]);
    if HEADER_SIZE + length > |buffer| then
      rest == [] && (if eof then t == EOF && drops == 0 else t == BAD_RECORD && drops == 1)
    else if kind == ZERO && length == 0 then
      rest == [] && t == BAD_RECORD && drops == 0
    else if Value(buffer[6..HEADER_SIZE + length]) != Unmask(DecodeFixed32(buffer)) then
      rest == [] && t == BAD_RECORD && drops == 1
    else
      && t == kind && fragment == buffer[HEADER_SIZE..HEADER_SIZE + length]
      && rest == buffer[HEADER_SIZE + length..] && drops == 0
  }

  method CheckHeader(buffer: Bytes, eof: bool) returns (t: nat, fragment: Bytes, rest: Bytes, dropped: nat)
    requires |buffer| >= HEADER_SIZE
    ensures HeaderSays(buffer, eof, t, fragment, rest, dropped)
  {
    hide Crc, NatOf, Unmask, DecodeFixed32;
    var length := NatOf(buffer[4]) + 256 * NatOf(buffer[5]);
    var kind := NatOf(buffer[6]);
    if HEADER_SIZE + length > |buffer| {
      if !eof {
        return BAD_RECORD, [], [], 1;
      }
      return EOF, [], [], 0;
    }
    if kind == ZERO && length == 0 {
      return BAD_RECORD, [], [], 0;
    }
    var expected := Unmask(DecodeFixed32(buffer));
    var actual := Extend(0, buffer[6..HEADER_SIZE + length], 6);
    if actual != expected {
      return BAD_RECORD, [], [], 1;
    }
    return kind, buffer[HEADER_SIZE..HEADER_SIZE + length], buffer[HEADER_SIZE + length..], 0;
  }

  /** Something of the buffer is used up, and what is left is its end. */
  lemma HeaderRest(buffer: Bytes, eof: bool, t: nat, fragment: Bytes, rest: Bytes, dropped: nat)
    requires |buffer| >= HEADER_SIZE && HeaderSays(buffer, eof, t, fragment, rest, dropped)
    ensures |rest| < |buffer| && rest == buffer[|buffer| - |rest|..]
    ensures t < EOF ==> |buffer| - |rest| == HEADER_SIZE + |fragment|
    ensures dropped <= 1 && (t < EOF ==> dropped == 0)
  {
    hide NatOf, Crc, Unmask, DecodeFixed32;
  }

  lemma HeaderStands(buffer: Bytes, eof: bool, t: nat, fragment: Bytes, rest: Bytes, dropped: nat)
    requires |buffer| >= HEADER_SIZE && HeaderSays(buffer, eof, t, fragment, rest, dropped) && t < EOF
    ensures |fragment| == NatOf(buffer[4]) + 256 * NatOf(buffer[5]) && t == NatOf(buffer[6])
    ensures HEADER_SIZE + |fragment| <= |buffer| && fragment == buffer[HEADER_SIZE..HEADER_SIZE + |fragment|]
    ensures Value(buffer[6..HEADER_SIZE + |fragment|]) == Unmask(DecodeFixed32(buffer))
  {
    hide NatOf, Crc, Unmask, DecodeFixed32;
  }

  /** A header that was written for a payload that is in the buffer says so. */
  lemma HeaderWritten(buffer: Bytes, eof: bool, t: nat, fragment: Bytes, rest: Bytes, dropped: nat, kind: nat,
                      payload: Bytes)
    requires |buffer| >= HEADER_SIZE && HeaderSays(buffer, eof, t, fragment, rest, dropped)
    requires FULL <= kind <= LAST && NatOf(buffer[6]) == kind
    requires NatOf(buffer[4]) + 256 * NatOf(buffer[5]) == |payload|
    requires Unmask(DecodeFixed32(buffer)) == Value([buffer[6]] + payload)
    requires HEADER_SIZE + |payload| <= |buffer| ==> buffer[HEADER_SIZE..HEADER_SIZE + |payload|] == payload
    requires HEADER_SIZE + |payload| > |buffer| ==> eof
    ensures dropped == 0
    ensures if HEADER_SIZE + |payload| <= |buffer|
            then t == kind && fragment == payload && |buffer| - |rest| == HEADER_SIZE + |payload|
            else t == EOF
  {
    hide NatOf, Crc, Unmask, DecodeFixed32;
    if HEADER_SIZE + |payload| <= |buffer| {
      assert buffer[6..HEADER_SIZE + |payload|] == [buffer[6]] + buffer[HEADER_SIZE..HEADER_SIZE + |payload|];
    }
  }

  lemma TailOf(s: Bytes, p: int, q: int, k: nat)
    requires 0 <= p <= p + k <= q <= |s|
    ensures s[p..q][k..] == s[p + k..q]
  {
  }

  class Reader {
    const file: Bytes
    var filePos: nat
    var buffer: Bytes
    var eof: bool
    /** Corruptions reported. */
    var drops: nat
    ghost var blockStart: nat

    ghost function Pos(): int
      reads this
    {
      filePos - |buffer|
    }

    ghost predicate Valid()
      reads this
    {
      && |buffer| <= filePos <= |file| && buffer == file[filePos - |buffer|..filePos]
      && blockStart % BLOCK_SIZE == 0 && blockStart <= Pos()
      && (eof ==> filePos == |file| && filePos < blockStart + BLOCK_SIZE)
      && (!eof ==> filePos == blockStart + BLOCK_SIZE || (filePos == 0 && blockStart == 0))
    }

    /** The reader stands where piece i begins. */
    ghost predicate At(ps: seq<Piece>, i: nat)
      reads this
    {
      IsPrefix(file, ps) && i <= |ps| && Pos() == Size(ps[..i])
    }

    constructor (file: Bytes)
      ensures Valid() && Pos() == 0 && drops == 0 && this.file == file
    {
      this.file := file;
      filePos, buffer, eof, drops, blockStart := 0, [], false, 0, 0;
    }

    /** Read the next block of the file. */
    method Refill()
      requires Valid() && !eof && |buffer| < HEADER_SIZE
      modifies this
      ensures Valid() && drops == old(drops)
      ensures Pos() == old(filePos) && (|file| - filePos < old(|file| - filePos) || eof)
      ensures |buffer| < HEADER_SIZE ==> eof
    {
      blockStart := filePos;
      buffer := file[filePos..if |file| - filePos < BLOCK_SIZE then |file| else filePos + BLOCK_SIZE];
      filePos := filePos + |buffer|;
      if |buffer| < BLOCK_SIZE {
        eof := true;
      }
    }

    /** What is left in the buffer when a new block must be read is a trailer, or nothing. */
    lemma TrailerLeft(ps: seq<Piece>, i: nat)
      requires Valid() && !eof && |buffer| < HEADER_SIZE && At(ps, i)
      ensures var i' := if |buffer| > 0 then i + 1 else i;
              i' <= |ps| && filePos == Size(ps[..i']) && NextFragment(ps, i') == NextFragment(ps, i)
    {
      hide Layout, Placed, Size;
      if |buffer| > 0 {
        NotAtEnd(ps, i);
        NextIsTrailer(ps, i);
      }
    }

    lemma NextIsTrailer(ps: seq<Piece>, i: nat)
      requires Placed(ps) && i < |ps| && Size(ps[..i]) % BLOCK_SIZE > BLOCK_SIZE - HEADER_SIZE
      ensures ps[i].Trailer? && Size(ps[..i + 1]) == Size(ps[..i]) + BLOCK_SIZE - Size(ps[..i]) % BLOCK_SIZE
      ensures NextFragment(ps, i + 1) == i + 1
    {
      hide Layout, Placed, Size;
      NextPlaced(ps, i);
      if i + 1 < |ps| {
        NextPlaced(ps, i + 1);
      }
    }

    lemma NotAtEnd(ps: seq<Piece>, i: nat)
      requires Valid() && At(ps, i) && |buffer| > 0
      ensures i < |ps|
    {
      assert ps[..|ps|] == ps;
    }

    /** At the end of the file no whole fragment is left. */
    lemma NothingWhole(ps: seq<Piece>, i: nat)
      requires Valid() && eof && |buffer| < HEADER_SIZE && At(ps, i)
      ensures !Whole(ps, NextFragment(ps, i), |file|)
    {
      hide Layout, Placed, Size;
      if i < |ps| {
        NextPlaced(ps, i);
        if ps[i].Trailer? && i + 1 < |ps| {
          NextPlaced(ps, i + 1);
        }
      }
    }

    /** With a header in the buffer the reader stands at a fragment, and the header says so. */
    lemma AtFragment(ps: seq<Piece>, i: nat)
      requires Valid() && |buffer| >= HEADER_SIZE && At(ps, i)
      ensures i < |ps| && ps[i].Fragment? && NextFragment(ps, i) == i && PieceOk(ps[i])
      ensures buffer[..HEADER_SIZE] == Header(ps[i].kind, ps[i].payload)
      ensures Size(ps[..i + 1]) == Pos() + HEADER_SIZE + |ps[i].payload|
      ensures HEADER_SIZE + |ps[i].payload| <= |buffer| ==>
                buffer[HEADER_SIZE..HEADER_SIZE + |ps[i].payload|] == ps[i].payload
      ensures HEADER_SIZE + |ps[i].payload| > |buffer| ==> eof && !Whole(ps, i, |file|)
    {
      hide Layout, Placed, Size, Header;
      NotAtEnd(ps, i);
      NextPlaced(ps, i);
      BytesSeen(ps, i);
    }

    lemma BytesSeen(ps: seq<Piece>, i: nat)
      requires Valid() && |buffer| >= HEADER_SIZE && At(ps, i) && i < |ps| && ps[i].Fragment? && PieceOk(ps[i])
      requires Pos() + PieceSize(ps[i]) == Size(ps[..i + 1]) <= Size(ps)
      requires Layout(ps)[Pos()..Size(ps[..i + 1])] == PieceBytes(ps[i])
      ensures buffer[..HEADER_SIZE] == Header(ps[i].kind, ps[i].payload)
      ensures PieceSize(ps[i]) <= |buffer| ==> buffer[HEADER_SIZE..PieceSize(ps[i])] == ps[i].payload
    {
      hide Layout, Placed, Size, Header;
      var bytes, all := PieceBytes(ps[i]), Layout(ps);
      var n := if PieceSize(ps[i]) <= |buffer| then PieceSize(ps[i]) else |buffer|;
      assert forall k :: 0 <= k < n ==> buffer[k] == file[Pos() + k] == all[Pos() + k] == bytes[k];
      assert buffer[..HEADER_SIZE] == bytes[..HEADER_SIZE];
      if PieceSize(ps[i]) <= |buffer| {
        assert buffer[..n] == bytes;
        assert buffer[HEADER_SIZE..n] == bytes[HEADER_SIZE..];
      }
    }

    /** The outcome of reading on from piece i: what the next whole fragment holds, or the end. */
    ghost predicate Got(ps: seq<Piece>, i: nat, t: nat, fragment: Bytes)
      reads this
    {
      var next := NextFragment(ps, i);
      if Whole(ps, next, |file|)
      then t == ps[next].kind && fragment == ps[next].payload && At(ps, next + 1)
      else t == EOF
    }

    method Clear()
      requires Valid() && eof
      modifies this`buffer
      ensures Valid() && buffer == []
    {
      buffer := [];
    }

    /** Where the reader stands, and where the next physical record may. */
    lemma Bounds()
      requires Valid()
      ensures 0 <= Pos() <= filePos <= |file|
      ensures |buffer| >= HEADER_SIZE ==> NextStart(Pos()) == Pos()
      ensures |buffer| < HEADER_SIZE && !eof ==> NextStart(Pos()) == filePos
      ensures |buffer| < HEADER_SIZE && eof ==> |file| < Pos() + HEADER_SIZE && Pos() <= NextStart(Pos())
      ensures |buffer| >= HEADER_SIZE ==>
                && |file| >= Pos() + HEADER_SIZE && buffer == RestOfBlock(file, Pos())
                && (eof <==> |file| < BlockEnd(Pos()))
    {
      var p := Pos();
      if |buffer| >= HEADER_SIZE {
        assert BlockEnd(p) == blockStart + BLOCK_SIZE;
      }
    }

    method ReadPhysicalRecord(ghost ps: seq<Piece>, ghost i: nat) returns (t: nat, fragment: Bytes)
      requires Valid()
      modifies this
      ensures Valid() && (t != EOF ==> Pos() > old(Pos())) && drops <= old(drops) + 1
      ensures t < EOF ==>
                && old(Pos()) >= 0 && RecordAt(file, NextStart(old(Pos())), t, fragment) && drops == old(drops)
                && Pos() == NextStart(old(Pos())) + HEADER_SIZE + |fragment|
      ensures old(Pos()) >= 0 && var p := NextStart(old(Pos()));
                if |file| < p + HEADER_SIZE then t == EOF && drops == old(drops)
                else HeaderSays(RestOfBlock(file, p), |file| < BlockEnd(p), t, fragment, buffer, drops - old(drops))
      ensures old(At(ps, i)) ==> drops == old(drops) && Got(ps, i, t, fragment)
    {
      hide Layout, Placed, Size, IsPrefix, NextFragment, Whole, RecordAt, HeaderSays, Valid, NextStart,
           RestOfBlock, BlockEnd;
      ghost var next := i;
      Bounds();
      while |buffer| < HEADER_SIZE
        invariant Valid() && drops == old(drops) && Pos() >= old(Pos()) >= 0
        invariant |buffer| < HEADER_SIZE && !eof ==> Pos() == old(Pos())
        invariant |buffer| >= HEADER_SIZE ==> Pos() == NextStart(old(Pos()))
        invariant |buffer| < HEADER_SIZE && eof ==> |file| < NextStart(old(Pos())) + HEADER_SIZE
        invariant old(At(ps, i)) ==> At(ps, next) && NextFragment(ps, next) == NextFragment(ps, i)
        decreases |file| - filePos, if eof then 0 else 1
      {
        if eof {
          if old(At(ps, i)) {
            NothingWhole(ps, next);
          }
          Clear();
          return EOF, [];
        }
        if old(At(ps, i)) {
          TrailerLeft(ps, next);
          next := if |buffer| > 0 then next + 1 else next;
        }
        Bounds();
        Refill();
        Bounds();
      }
      Bounds();
      t, fragment := ParseHeader(ps, next);
    }

    /** A header is in the buffer: check it and deliver its payload. */
    method ParseHeader(ghost ps: seq<Piece>, ghost i: nat) returns (t: nat, fragment: Bytes)
      requires Valid() && |buffer| >= HEADER_SIZE
      modifies this`buffer, this`drops
      ensures Valid() && (t != EOF ==> Pos() > old(Pos()))
      ensures HeaderSays(old(buffer), eof, t, fragment, buffer, drops - old(drops))
      ensures old(drops) <= drops <= old(drops) + 1 && (t < EOF ==> drops == old(drops))
      ensures t < EOF ==> RecordAt(file, old(Pos()), t, fragment) && Pos() == old(Pos()) + HEADER_SIZE + |fragment|
      ensures old(At(ps, i)) ==> drops == old(drops) && Got(ps, i, t, fragment)
    {
      hide Layout, Placed, Size, IsPrefix, NextFragment, Crc, Header, NatOf, ByteOf, Unmask, DecodeFixed32, RecordAt,
           HeaderSays, Whole, Valid;
      var rest, dropped;
      t, fragment, rest, dropped := CheckHeader(buffer, eof);
      HeaderRest(buffer, eof, t, fragment, rest, dropped);
      if t < EOF {
        StandsAt(t, fragment, rest, dropped);
      }
      if At(ps, i) {
        FragmentSays(ps, i, t, fragment, rest, dropped);
      }
      UseUp(rest, dropped);
    }

    /** A fragment that was written is recognised, or is cut off by the end of the file. */
    lemma FragmentSays(ps: seq<Piece>, i: nat, t: nat, fragment: Bytes, rest: Bytes, dropped: nat)
      requires Valid() && |buffer| >= HEADER_SIZE && At(ps, i)
      requires HeaderSays(buffer, eof, t, fragment, rest, dropped)
      ensures dropped == 0 && i < |ps| && ps[i].Fragment? && NextFragment(ps, i) == i
      ensures if Whole(ps, i, |file|)
              then t == ps[i].kind && fragment == ps[i].payload && Size(ps[..i + 1]) == Pos() + |buffer| - |rest|
              else t == EOF
    {
      hide Layout, Placed, Size, IsPrefix, NextFragment, Crc, Header, NatOf, Unmask, DecodeFixed32, HeaderSays;
      AtFragment(ps, i);
      HeaderParses(ps[i].kind, ps[i].payload, buffer);
      HeaderWritten(buffer, eof, t, fragment, rest, dropped, ps[i].kind, ps[i].payload);
    }

    /** What is parsed in the buffer stands in the file. */
    lemma StandsAt(t: nat, fragment: Bytes, rest: Bytes, dropped: nat)
      requires Valid() && |buffer| >= HEADER_SIZE && HeaderSays(buffer, eof, t, fragment, rest, dropped) && t < EOF
      ensures Pos() >= 0 && RecordAt(file, Pos(), t, fragment)
    {
      hide NatOf, Crc, Unmask, HeaderSays;
      HeaderStands(buffer, eof, t, fragment, rest, dropped);
      var b, p := buffer, Pos();
      var q := p + HEADER_SIZE + |fragment|;
      assert forall k :: 0 <= k < |b| ==> b[k] == file[p + k];
      assert file[p + 6..q] == b[6..HEADER_SIZE + |fragment|];
      assert file[p + HEADER_SIZE..q] == fragment;
      assert file[p..q] == b[..HEADER_SIZE + |fragment|];
    }

    /** Part of the buffer is used up. */
    method UseUp(rest: Bytes, dropped: nat)
      requires Valid() && |rest| < |buffer| && rest == buffer[|buffer| - |rest|..]
      modifies this`buffer, this`drops
      ensures Valid() && buffer == rest && drops == old(drops) + dropped
      ensures Pos() == old(Pos()) + |old(buffer)| - |rest|
    {
      TailOf(file, filePos - |buffer|, filePos, |buffer| - |rest|);
      buffer := rest;
      drops := drops + dropped;
    }

    /** Piece by piece, the reader has put together `a`. */
    ghost predicate Holding(ps: seq<Piece>, i: nat, a: Assembly)
      reads this
    {
      At(ps, i) && Orderly(ps) && Assemble(ps[..i]) == a
    }

    /** What the next physical record does to the assembly; at the end of the file no record is left. */
    lemma AfterPhysical(ps: seq<Piece>, i: nat, at: nat, a: Assembly, t: nat, fragment: Bytes)
      requires IsPrefix(file, ps) && Orderly(ps) && i <= at <= |ps|
      requires Assemble(ps[..at]) == a && Assemble(ps[..i]).records == a.records
      requires Got(ps, at, t, fragment)
      ensures t == EOF ==> NoMore(ps, i, |file|, a.records)
      ensures t != EOF ==> && FULL <= t <= LAST && (t <= FIRST <==> a.partial.None?)
                           && Holding(ps, NextFragment(ps, at) + 1, Add(a, Fragment(t, fragment)))
    {
      hide Layout, Placed, Size, Assemble, Orderly;
      StepOn(ps, at);
      var next := NextFragment(ps, at);
      if Whole(ps, next, |file|) {
        assert ps[next] == Fragment(t, fragment);
      } else {
        NothingLeft(ps, i, at, |file|, a.records);
      }
    }

    lemma PosInFile()
      requires Valid()
      ensures 0 <= Pos() <= |file|
    {
    }

    lemma HoldingParts(ps: seq<Piece>, i: nat, a: Assembly)
      requires Holding(ps, i, a)
      ensures IsPrefix(file, ps) && Orderly(ps) && i <= |ps| && At(ps, i) && Assemble(ps[..i]) == a
    {
    }

    method ReportCorruption()
      requires Valid()
      modifies this`drops
      ensures Valid() && drops == old(drops) + 1
    {
      drops := drops + 1;
    }

    /** One logical record, put together from its fragments. */
    method ReadRecord(ghost ps: seq<Piece>, ghost i: nat, ghost done: seq<Bytes>)
      returns (found: bool, record: Bytes, ghost next: nat)
      requires Valid()
      modifies this
      ensures Valid() && (found ==> Pos() > old(Pos()) && Recorded(file, old(Pos()), Pos(), record))
      ensures old(Holding(ps, i, Assembly(done, None))) ==>
                && drops == old(drops)
                && (found ==> i < next && Holding(ps, next, Assembly(done + [record], None)))
                && (!found ==> NoMore(ps, i, |file|, done))
    {
      hide Layout, Placed, Size, NextFragment, Whole, Assemble, Orderly, NoMore, InOrder, IsPrefix, Holding, Got, At,
           Valid, RecordAt, HeaderSays, NextStart, Stands, Joined, RestOfBlock, BlockEnd;
      ghost var start := old(Holding(ps, i, Assembly(done, None)));
      if start {
        HoldingParts(ps, i, Assembly(done, None));
      }
      var scratch: Bytes := [];
      var inFragmentedRecord := false;
      ghost var offsets, parts := [], [];
      next := i;
      while true
        invariant Valid() && Pos() >= old(Pos())
        invariant start ==> && drops == old(drops) && i <= next && (inFragmentedRecord ==> i < next)
                            && Holding(ps, next, Assembly(done, if inFragmentedRecord then Some(scratch) else None))
        invariant inFragmentedRecord ==>
                    && Stands(file, offsets, parts, false) && scratch == Joined(parts)
                    && |offsets| == |parts| > 0 && old(Pos()) <= offsets[0]
                    && Pos() == offsets[|parts| - 1] + HEADER_SIZE + |parts[|parts| - 1]|
        decreases |file| - Pos()
      {
        ghost var p := Pos();
        Bounds();
        ghost var a := Assembly(done, if inFragmentedRecord then Some(scratch) else None);
        if start {
          HoldingParts(ps, next, a);
        }
        var t, fragment := ReadPhysicalRecord(ps, next);
        if start {
          AfterPhysical(ps, i, next, a, t, fragment);
          NextIsLater(ps, next);
          next := NextFragment(ps, next) + 1;
        }
        if t != EOF {
          PosInFile();
        }
        if t == FULL {
          if inFragmentedRecord && scratch != [] {
            ReportCorruption();
          }
          StandsAlone(file, NextStart(p), fragment, true);
          return true, fragment, next;
        } else if t == FIRST {
          if inFragmentedRecord && scratch != [] {
            ReportCorruption();
          }
          StandsAlone(file, NextStart(p), fragment, false);
          offsets, parts := [NextStart(p)], [fragment];
          scratch, inFragmentedRecord := fragment, true;
        } else if t == MIDDLE {
          if !inFragmentedRecord {
            ReportCorruption();
          } else {
            StandsMore(file, offsets, parts, NextStart(p), fragment, false);
            offsets, parts := offsets + [NextStart(p)], parts + [fragment];
            scratch := scratch + fragment;
          }
        } else if t == LAST {
          if !inFragmentedRecord {
            ReportCorruption();
          } else {
            StandsMore(file, offsets, parts, NextStart(p), fragment, true);
            offsets, parts := offsets + [NextStart(p)], parts + [fragment];
            scratch := scratch + fragment;
            return true, scratch, next;
          }
        } else if t == EOF {
          return false, [], next;
        } else {
          if t != BAD_RECORD || inFragmentedRecord {
            ReportCorruption();
          }
          scratch, inFragmentedRecord := [], false;
        }
      }
    }
  }

  lemma NextIsLater(ps: seq<Piece>, i: nat)
    ensures NextFragment(ps, i) >= i
  {
  }

  /** No further record is complete within the first n bytes. */
  ghost predicate NoMore(ps: seq<Piece>, i: nat, n: nat, done: seq<Bytes>) {
    forall m :: i <= m <= |ps| && Size(ps[..m]) <= n ==> Assemble(ps[..m]).records == done
  }

  /** Past a trailer nothing changes; the fragment after it is in order. */
  lemma StepOn(ps: seq<Piece>, i: nat)
    requires Placed(ps) && Orderly(ps) && i <= |ps|
    ensures var next := NextFragment(ps, i);
            && i <= next <= |ps| && Assemble(ps[..next]) == Assemble(ps[..i])
            && (next < |ps| ==> ps[next].Fragment? && InOrder(Assemble(ps[..i]).partial, ps[next])
                                && Assemble(ps[..next + 1]) == Add(Assemble(ps[..i]), ps[next]))
  {
    hide Layout, Placed, Size, Assemble, Orderly, InOrder;
    var next := NextFragment(ps, i);
    if i < |ps| && ps[i].Trailer? {
      AssembleNext(ps, i);
      TrailerAlone(ps, i);
    }
    if next < |ps| {
      AssembleNext(ps, next);
      OrderlyAt(ps, next);
    }
  }

  lemma TrailerAlone(ps: seq<Piece>, i: nat)
    requires Placed(ps) && i < |ps| && ps[i].Trailer?
    ensures i + 1 < |ps| ==> ps[i + 1].Fragment?
  {
    hide Layout, Placed, Size;
    NextPlaced(ps, i);
    if i + 1 < |ps| {
      NextPlaced(ps, i + 1);
    }
  }

  lemma {:induction false} SizesGrow(ps: seq<Piece>, i: nat, j: nat)
    requires i <= j <= |ps|
    ensures Size(ps[..i]) <= Size(ps[..j])
    decreases j
  {
    if i < j {
      SizesGrow(ps, i, j - 1);
      assert ps[..j][..j - 1] == ps[..j - 1];
    }
  }

  lemma NothingLeft(ps: seq<Piece>, i: nat, at: nat, n: nat, done: seq<Bytes>)
    requires Placed(ps) && Orderly(ps) && i <= at <= |ps|
    requires Assemble(ps[..i]).records == Assemble(ps[..at]).records == done
    requires !Whole(ps, NextFragment(ps, at), n)
    ensures NoMore(ps, i, n, done)
  {
    hide Layout, Placed, Assemble, Orderly, InOrder;
    StepOn(ps, at);
    var next := NextFragment(ps, at);
    forall m | i <= m <= |ps| && Size(ps[..m]) <= n
      ensures Assemble(ps[..m]).records == done
    {
      if m <= at {
        RecordsGrow(ps, i, m);
        RecordsGrow(ps, m, at);
      } else if next < m {
        SizesGrow(ps, next + 1, m);
      }
    }
  }

  /** A header gives back the type, the length and the checksum it was made from. */
  lemma HeaderParses(kind: nat, payload: Bytes, buffer: Bytes)
    requires kind <= LAST && |payload| < 0x1_0000 && |buffer| >= HEADER_SIZE
    requires buffer[..HEADER_SIZE] == Header(kind, payload)
    ensures NatOf(buffer[4]) + 256 * NatOf(buffer[5]) == |payload| && NatOf(buffer[6]) == kind
    ensures Unmask(DecodeFixed32(buffer)) == Value([buffer[6]] + payload)
  {
    hide Crc, Mask, Unmask, NatOf, ByteOf;
    ByteRoundTrip(|payload| % 256);
    ByteRoundTrip(|payload| / 256);
    ByteRoundTrip(kind);
    var h := Header(kind, payload);
    assert forall k :: 0 <= k < 7 ==> buffer[k] == buffer[..HEADER_SIZE][k] == h[k];
    var crc := Value([ByteOf(kind)] + payload);
    UnmaskInvertsMask(crc);
    assert h[..4] == EncodeFixed32(Mask(crc));
  }

  /** The number of bytes after which record k is complete. */
  function EndOf(pieces: seq<Piece>, ends: seq<nat>, k: nat): nat
    requires k < |ends| && ends[k] <= |pieces|
  {
    Size(pieces[..ends[k]])
  }

  /** `rs` are exactly the records that lie wholly in the first n bytes, in order. */
  ghost predicate WhollyContained(pieces: seq<Piece>, records: seq<Bytes>, ends: seq<nat>, n: nat, rs: seq<Bytes>)
    requires Ended(pieces, records, ends)
  {
    && rs <= records
    && (forall k :: 0 <= k < |rs| ==> EndOf(pieces, ends, k) <= n)
    && (forall k :: |rs| <= k < |records| ==> EndOf(pieces, ends, k) > n)
  }

  lemma ContainedAtEnd(pieces: seq<Piece>, records: seq<Bytes>, ends: seq<nat>, n: nat, i: nat, rs: seq<Bytes>)
    requires Placed(pieces) && Ended(pieces, records, ends) && Assemble(pieces).records == records
    requires i <= |pieces| && Size(pieces[..i]) <= n && Assemble(pieces[..i]).records == rs
    requires NoMore(pieces, i, n, rs)
    ensures WhollyContained(pieces, records, ends, n, rs)
  {
    hide Layout, Placed, Size, Assemble;
    assert pieces[..|pieces|] == pieces;
    RecordsGrow(pieces, i, |pieces|);
    forall k | 0 <= k < |rs|
      ensures EndOf(pieces, ends, k) <= n
    {
      assert EndsAt(pieces, k, ends[k]);
      if ends[k] > i {
        RecordsGrow(pieces, i, ends[k] - 1);
      }
      SizesGrow(pieces, ends[k], i);
    }
    forall k | |rs| <= k < |records|
      ensures EndOf(pieces, ends, k) > n
    {
      assert EndsAt(pieces, k, ends[k]);
      if ends[k] < i {
        RecordsGrow(pieces, ends[k], i);
      }
    }
  }

  /** The loop of every recovery: read until nothing is left.  From any prefix of what a
      writer produced come exactly the records wholly contained in it, in order, and no
      corruption is reported. */
  method ReadLog(w: Writer, n: nat) returns (rs: seq<Bytes>, drops: nat)
    requires w.Valid() && n <= |w.dest|
    ensures drops == 0 && WhollyContained(w.pieces, w.records, w.ends, n, rs)
  {
    hide Layout, Placed, Size, Assemble, Orderly, NoMore, Ended, Reader.Valid, Reader.Holding, WhollyContained;
    ghost var ps, records, ends := w.pieces, w.records, w.ends;
    assert Placed(ps) && Ended(ps, records, ends) && Assemble(ps).records == records;
    var reader := new Reader(w.dest[..n]);
    ReaderStarts(w, n, reader);
    rs := [];
    ghost var i := 0;
    while true
      invariant reader.Valid() && fresh(reader) && reader.file == w.dest[..n]
      invariant reader.drops == 0 && reader.Holding(ps, i, Assembly(rs, None))
      decreases |reader.file| - reader.Pos()
    {
      reader.PosInFile();
      reader.HoldingParts(ps, i, Assembly(rs, None));
      var found, record, next := reader.ReadRecord(ps, i, rs);
      if !found {
        ContainedAtEnd(ps, records, ends, n, i, rs);
        return rs, reader.drops;
      }
      reader.PosInFile();
      rs := rs + [record];
      i := next;
    }
  }

  lemma ReaderStarts(w: Writer, n: nat, reader: Reader)
    requires w.Valid() && n <= |w.dest| && reader.file == w.dest[..n] && reader.Pos() == 0
    ensures reader.Holding(w.pieces, 0, Assembly([], None))
  {
  }

}
