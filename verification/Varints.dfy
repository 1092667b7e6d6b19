/** Variable-length numbers: seven bits to a byte, low bits first. */
module Varints {
  import opened Coding
  import opened Options

  const WIDTH32: nat := 0x1_0000_0000
  const WIDTH64: nat := 0x1_0000_0000_0000_0000

  /** A byte with the continuation bit, `v | 128` cut to eight bits. */
  function MoreByte(v: nat): Byte { ByteOf(v % 128 + 128) }

  function EncodeVarint(v: nat): (r: Bytes)
    ensures |r| > 0
  {
    if v < 128 then [ByteOf(v)] else [MoreByte(v)] + EncodeVarint(v / 128)
  }

  lemma EncodeOnce(v: nat)
    ensures v < 128 ==> EncodeVarint(v) == [ByteOf(v)]
    ensures v >= 128 ==> EncodeVarint(v) == [MoreByte(v)] + EncodeVarint(v / 128)
  {
  }

  /** EncodeVarint32, one case for each length. */
  method EncodeVarint32(v: nat) returns (r: Bytes)
    requires v < WIDTH32
    ensures r == EncodeVarint(v) && |r| <= 5
  {
    hide ByteOf, MoreByte, EncodeVarint;
    var v1, v2, v3, v4 := Sevens(v);
    EncodeOnce(v);
    EncodeOnce(v1);
    EncodeOnce(v2);
    EncodeOnce(v3);
    EncodeOnce(v4);
    if v < 0x80 {
      return [ByteOf(v)];
    } else if v < 0x4000 {
      return [MoreByte(v), ByteOf(v / 0x80)];
    } else if v < 0x20_0000 {
      return [MoreByte(v), MoreByte(v / 0x80), ByteOf(v / 0x4000)];
    } else if v < 0x1000_0000 {
      return [MoreByte(v), MoreByte(v / 0x80), MoreByte(v / 0x4000), ByteOf(v / 0x20_0000)];
    } else {
      return [MoreByte(v), MoreByte(v / 0x80), MoreByte(v / 0x4000), MoreByte(v / 0x20_0000), ByteOf(v / 0x1000_0000)];
    }
  }

  /** Shifting by seven bits, once to four times. */
  lemma Sevens(v: nat) returns (v1: nat, v2: nat, v3: nat, v4: nat)
    requires v < WIDTH32
    ensures v1 == v / 0x80 && v2 == v1 / 128 == v / 0x4000 && v3 == v2 / 128 == v / 0x20_0000
    ensures v4 == v3 / 128 == v / 0x1000_0000 < 128
  {
    v1 := v / 128;
    v2 := v1 / 128;
    v3 := v2 / 128;
    v4 := v3 / 128;
  }

  /** EncodeVarint64. */
  method EncodeVarint64(value: nat) returns (r: Bytes)
    requires value < WIDTH64
    ensures r == EncodeVarint(value)
  {
    hide ByteOf;
    r := [];
    var v := value;
    while v >= 128
      invariant r + EncodeVarint(v) == EncodeVarint(value)
    {
      r := r + [MoreByte(v)];
      v := v / 128;
    }
    r := r + [ByteOf(v)];
  }

  /** `result | (byte & 127) << shift`, with unit 1 << shift above all bits of result, cut to
      the given width. */
  function Combined(result: nat, byte: nat, unit: nat, width: nat): nat
    requires width > 0
  {
    (result + byte % 128 * unit) % width
  }

  /** What is read at p: the value so far, and each further byte `unit` times its seven bits,
      cut to `width`; at most `groups` more bytes.  None when they do not suffice. */
  function VarintFrom(s: Bytes, p: nat, limit: nat, result: nat, unit: nat, groups: nat,
                      width: nat): (r: Option<(nat, nat)>)
    requires limit <= |s| && width > 0
    ensures r.Some? ==> p < r.value.1 <= limit
    decreases groups
  {
    if groups == 0 || p >= limit then None
    else
      var more := Combined(result, NatOf(s[p]), unit, width);
      if NatOf(s[p]) >= 128 then VarintFrom(s, p + 1, limit, more, unit * 128, groups - 1, width)
        else Some((more, p + 1))
  }

  ghost function Power128(n: nat): nat { if n == 0 then 1 else 128 * Power128(n - 1) }

  lemma VarintStep(s: Bytes, p: nat, limit: nat, result: nat, unit: nat, groups: nat, width: nat)
    requires p < limit <= |s| && width > 0 && groups > 0
    ensures VarintFrom(s, p, limit, result, unit, groups, width) ==
            var more := Combined(result, NatOf(s[p]), unit, width);
            if NatOf(s[p]) >= 128 then VarintFrom(s, p + 1, limit, more, unit * 128, groups - 1, width)
              else Some((more, p + 1))
  {
  }

  lemma RunsOut(s: Bytes, p: nat, limit: nat, result: nat, unit: nat, groups: nat, width: nat)
    requires limit <= |s| && width > 0 && (groups == 0 || p >= limit)
    ensures VarintFrom(s, p, limit, result, unit, groups, width) == None
  {
  }

  /** What was encoded at p is read back, and nothing more. */
  lemma {:induction false} DecodeAt(s: Bytes, p: nat, limit: nat, v: nat, result: nat, unit: nat, groups: nat,
                                    width: nat)
    requires p + |EncodeVarint(v)| <= limit <= |s| && s[p..p + |EncodeVarint(v)|] == EncodeVarint(v)
    requires 0 < groups && v < Power128(groups) && Scaled(result, v, unit) < width
    ensures VarintFrom(s, p, limit, result, unit, groups, width) ==
            Some((Scaled(result, v, unit), p + |EncodeVarint(v)|))
    decreases groups
  {
    hide ByteOf, NatOf, VarintFrom, Combined, Scaled, EncodeVarint;
    var enc := EncodeVarint(v);
    EncodeOnce(v);
    assert s[p] == enc[0];
    VarintStep(s, p, limit, result, unit, groups, width);
    if v < 128 {
      ByteRoundTrip(v);
      LastPiece(result, v, unit, width);
    } else {
      ByteRoundTrip(v % 128 + 128);
      assert s[p + 1..p + |enc|] == enc[1..] == EncodeVarint(v / 128);
      OnePiece(result, v, unit, width);
      DecodeAt(s, p + 1, limit, v / 128, Scaled(result, v % 128, unit), unit * 128, groups - 1, width);
    }
  }

  ghost function Scaled(result: nat, v: nat, unit: nat): nat { result + v * unit }

  lemma LastPiece(result: nat, v: nat, unit: nat, width: nat)
    requires Scaled(result, v, unit) < width && v < 128
    ensures Combined(result, v, unit, width) == Scaled(result, v, unit)
  {
  }

  lemma OnePiece(result: nat, v: nat, unit: nat, width: nat)
    requires Scaled(result, v, unit) < width
    ensures Combined(result, v % 128 + 128, unit, width) == Scaled(result, v % 128, unit)
    ensures Scaled(Scaled(result, v % 128, unit), v / 128, unit * 128) == Scaled(result, v, unit)
  {
    var low := v % 128;
    assert (low + 128) % 128 == low;
    Unfold(v, low, v / 128, unit);
    Small(Scaled(result, low, unit), width);
  }

  lemma Small(x: nat, width: nat)
    requires x < width
    ensures x % width == x
  {
  }

  lemma Unfold(v: nat, low: nat, high: nat, unit: nat)
    requires v == 128 * high + low
    ensures v * unit == low * unit + high * (unit * 128) && low * unit <= v * unit
  {
    assert v * unit == (128 * high) * unit + low * unit;
    assert (128 * high) * unit == high * (unit * 128);
  }

  /** The value and the place behind it, or None. */
  function Varint32At(s: Bytes, p: nat, limit: nat): (r: Option<(nat, nat)>)
    requires limit <= |s|
    ensures r.Some? ==> p < r.value.1 <= limit
  {
    VarintFrom(s, p, limit, 0, 1, 5, WIDTH32)
  }

  function Varint64At(s: Bytes, p: nat, limit: nat): (r: Option<(nat, nat)>)
    requires limit <= |s|
    ensures r.Some? ==> p < r.value.1 <= limit
  {
    VarintFrom(s, p, limit, 0, 1, 10, WIDTH64)
  }

  lemma Decode32At(s: Bytes, p: nat, limit: nat, v: nat)
    requires p + |EncodeVarint(v)| <= limit <= |s| && s[p..p + |EncodeVarint(v)|] == EncodeVarint(v) && v < WIDTH32
    ensures Varint32At(s, p, limit) == Some((v, p + |EncodeVarint(v)|))
  {
    assert Power128(5) == 0x8_0000_0000 by {
      assert Power128(2) == 0x4000;
      assert Power128(4) == 0x1000_0000;
    }
    DecodeAt(s, p, limit, v, 0, 1, 5, WIDTH32);
  }

  lemma Decode64At(s: Bytes, p: nat, limit: nat, v: nat)
    requires p + |EncodeVarint(v)| <= limit <= |s| && s[p..p + |EncodeVarint(v)|] == EncodeVarint(v) && v < WIDTH64
    ensures Varint64At(s, p, limit) == Some((v, p + |EncodeVarint(v)|))
  {
    assert Power128(10) > WIDTH64 by {
      assert Power128(2) == 0x4000;
      assert Power128(4) == 0x1000_0000;
      assert Power128(6) == 0x400_0000_0000;
      assert Power128(8) == 0x100_0000_0000_0000;
    }
    DecodeAt(s, p, limit, v, 0, 1, 10, WIDTH64);
  }

  /** GetVarint32PtrFallback: the loop. */
  method GetVarint32Fallback(s: Bytes, start: nat, limit: nat) returns (r: Option<(nat, nat)>)
    requires limit <= |s|
    ensures r == Varint32At(s, start, limit)
  {
    hide NatOf, Combined, VarintFrom;
    var result: nat, shift: nat, unit: nat, p: nat := 0, 0, 1, start;
    while shift <= 28 && p < limit
      invariant shift % 7 == 0 && shift <= 35
      invariant VarintFrom(s, p, limit, result, unit, 5 - shift / 7, WIDTH32) == Varint32At(s, start, limit)
      decreases 35 - shift
    {
      var byte := NatOf(s[p]);
      VarintStep(s, p, limit, result, unit, 5 - shift / 7, WIDTH32);
      p := p + 1;
      result := Combined(result, byte, unit, WIDTH32);
      if byte < 128 {
        return Some((result, p));
      }
      shift := shift + 7;
      unit := unit * 128;
    }
    RunsOut(s, p, limit, result, unit, (35 - shift) / 7, WIDTH32);
    return None;
  }

  /** GetVarint32Ptr: one byte is read at once. */
  method GetVarint32(s: Bytes, p: nat, limit: nat) returns (r: Option<(nat, nat)>)
    requires limit <= |s|
    ensures r == Varint32At(s, p, limit)
  {
    hide NatOf;
    if p < limit {
      var result := NatOf(s[p]);
      if result < 128 {
        return Some((result, p + 1));
      }
    }
    r := GetVarint32Fallback(s, p, limit);
  }

  /** GetVarint64Ptr. */
  method GetVarint64(s: Bytes, start: nat, limit: nat) returns (r: Option<(nat, nat)>)
    requires limit <= |s|
    ensures r == Varint64At(s, start, limit)
  {
    hide NatOf, Combined, VarintFrom;
    var result: nat, shift: nat, unit: nat, p: nat := 0, 0, 1, start;
    while shift <= 63 && p < limit
      invariant shift % 7 == 0 && shift <= 70
      invariant VarintFrom(s, p, limit, result, unit, 10 - shift / 7, WIDTH64) == Varint64At(s, start, limit)
      decreases 70 - shift
    {
      var byte := NatOf(s[p]);
      VarintStep(s, p, limit, result, unit, 10 - shift / 7, WIDTH64);
      p := p + 1;
      result := Combined(result, byte, unit, WIDTH64);
      if byte < 128 {
        return Some((result, p));
      }
      shift := shift + 7;
      unit := unit * 128;
    }
    RunsOut(s, p, limit, result, unit, (70 - shift) / 7, WIDTH64);
    return None;
  }

  // ---------- Fixed-width numbers, low byte first ----------

  function FixedOf(v: nat, width: nat): (r: Bytes)
    ensures |r| == width
  {
    if width == 0 then [] else [ByteOf(v % 256)] + FixedOf(v / 256, width - 1)
  }

  function NumberAt(s: Bytes, p: nat, width: nat): nat
    requires p + width <= |s|
    decreases width
  {
    if width == 0 then 0 else NatOf(s[p]) + 256 * NumberAt(s, p + 1, width - 1)
  }

  ghost function Power256(n: nat): nat { if n == 0 then 1 else 256 * Power256(n - 1) }

  lemma {:induction false} FixedRoundTrip(s: Bytes, p: nat, v: nat, width: nat)
    requires p + width <= |s| && s[p..p + width] == FixedOf(v, width) && v < Power256(width)
    ensures NumberAt(s, p, width) == v
    decreases width
  {
    hide ByteOf, NatOf;
    if width > 0 {
      ByteRoundTrip(v % 256);
      assert s[p] == FixedOf(v, width)[0];
      assert s[p + 1..p + 1 + (width - 1)] == s[p..p + width][1..] == FixedOf(v / 256, width - 1);
      FixedRoundTrip(s, p + 1, v / 256, width - 1);
    }
  }

  lemma Fixed32At(s: Bytes, p: nat, v: nat)
    requires p + 4 <= |s| && s[p..p + 4] == FixedOf(v, 4) && v < WIDTH32
    ensures NumberAt(s, p, 4) == v
  {
    assert Power256(2) == 0x1_0000;
    assert Power256(4) == 0x1_0000_0000;
    FixedRoundTrip(s, p, v, 4);
  }

  lemma Fixed64At(s: Bytes, p: nat, v: nat)
    requires p + 8 <= |s| && s[p..p + 8] == FixedOf(v, 8) && v < WIDTH64
    ensures NumberAt(s, p, 8) == v
  {
    assert Power256(2) == 0x1_0000;
    assert Power256(4) == 0x1_0000_0000;
    assert Power256(6) == 0x1_0000_0000_0000;
    assert Power256(8) == 0x1_0000_0000_0000_0000;
    FixedRoundTrip(s, p, v, 8);
  }

  // ---------- Arrays of fixed 32-bit numbers ----------

  /** Number r of an array that starts at `limit`. */
  ghost predicate Written(buffer: Bytes, limit: nat, r: nat, offset: nat) {
    limit + 4 * r + 4 <= |buffer| && buffer[limit + 4 * r..limit + 4 * r + 4] == FixedOf(offset, 4)
  }

  lemma ReadWritten(buffer: Bytes, limit: nat, r: nat, number: nat)
    requires Written(buffer, limit, r, number) && number < WIDTH32
    ensures limit + 4 * r + 4 <= |buffer| && NumberAt(buffer, limit + 4 * r, 4) == number
  {
    hide FixedOf, NumberAt;
    Fixed32At(buffer, limit + 4 * r, number);
  }

  lemma WrittenStays(buffer: Bytes, limit: nat, r: nat, offset: nat, more: Bytes)
    requires Written(buffer, limit, r, offset)
    ensures Written(buffer + more, limit, r, offset)
  {
    hide FixedOf;
    var p := limit + 4 * r;
    assert (buffer + more)[p..p + 4] == buffer[p..p + 4];
  }

  lemma WrittenOneMore(buffer: Bytes, limit: nat, i: nat, numbers: seq<nat>)
    requires i < |numbers| && |buffer| == limit + 4 * i
    requires forall r :: 0 <= r < i ==> Written(buffer, limit, r, numbers[r])
    ensures var more := FixedOf(numbers[i], 4);
            && (buffer + more)[..limit] == buffer[..limit]
            && forall r :: 0 <= r <= i ==> Written(buffer + more, limit, r, numbers[r])
  {
    hide FixedOf;
    var more := FixedOf(numbers[i], 4);
    forall r | 0 <= r <= i
      ensures Written(buffer + more, limit, r, numbers[r])
    {
      if r < i {
        WrittenStays(buffer, limit, r, numbers[r], more);
      } else {
        assert (buffer + more)[|buffer|..|buffer| + 4] == more;
      }
    }
  }

  lemma WrittenLast(buffer: Bytes, limit: nat, numbers: seq<nat>, last: nat)
    requires |buffer| == limit + 4 * |numbers|
    requires forall r :: 0 <= r < |numbers| ==> Written(buffer, limit, r, numbers[r])
    ensures var all := buffer + FixedOf(last, 4);
            && all[..limit] == buffer[..limit] && Written(all, limit, |numbers|, last)
            && forall r :: 0 <= r < |numbers| ==> Written(all, limit, r, numbers[r])
  {
    hide FixedOf;
    var ns := numbers + [last];
    forall r | 0 <= r < |numbers|
      ensures Written(buffer, limit, r, ns[r])
    {
      assert Written(buffer, limit, r, numbers[r]);
    }
    WrittenOneMore(buffer, limit, |numbers|, ns);
    var all := buffer + FixedOf(last, 4);
    forall r | 0 <= r < |numbers|
      ensures Written(all, limit, r, numbers[r])
    {
      assert Written(all, limit, r, ns[r]);
    }
    assert Written(all, limit, |numbers|, ns[|numbers|]);
  }
}
