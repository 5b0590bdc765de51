/**
  The loops that the generated Go files repeat for every message: the varint written forward
  inside a buffer that is filled backward, the varint reader, the tag and length readers and the
  skip function.  Each is proved to compute its meaning in `Wire`.
*/
module WireCode {
  import opened Wire
  import opened Varints
  import opened Decoding
  import opened Fields

  // ---------------------------------------------------------------------------------------
  // Writing
  // ---------------------------------------------------------------------------------------

  /** `buf` after `d` was put in front of index `i`. */
  function Put(buf: bytes, i: nat, d: bytes): (r: bytes)
    requires |d| <= i <= |buf|
    ensures |r| == |buf|
  {
    buf[..i - |d|] + d + buf[i..]
  }

  /** The bytes end where `i` says, and nothing else in the buffer changes. */
  lemma PutMeans(buf: bytes, i: nat, d: bytes)
    requires |d| <= i <= |buf|
    ensures |Put(buf, i, d)| == |buf| && Put(buf, i, d)[i - |d|..i] == d
    ensures forall k :: 0 <= k < |buf| && !(i - |d| <= k < i) ==> Put(buf, i, d)[k] == buf[k]
  {
  }

  lemma PutPut(buf: bytes, i: nat, d: bytes, e: bytes)
    requires |d| + |e| <= i <= |buf|
    ensures Put(Put(buf, i, d), i - |d|, e) == Put(buf, i, e + d)
  {
  }

  /** `encodeVarint…(dAtA, offset, v)`. */
  method EncodeVarint(dAtA: array<byte>, offset: int, v: uint64) returns (base: int)
    requires Sov(v) <= offset <= dAtA.Length
    modifies dAtA
    ensures base == offset - |Varint(v)|
    ensures 0 <= base && dAtA[..] == Put(old(dAtA[..]), offset, Varint(v))
  {
    SovIsVarintLength(v);
    var at := offset - Sov(v);
    base := at;
    var x: nat := v;
    ghost var all := Varint(v);
    while x >= 128
      invariant 0 <= base <= at < offset == base + |all|
      invariant Varint(x) == all[at - base..]
      invariant forall j :: base <= j < at ==> dAtA[j] == all[j - base]
      invariant forall j :: 0 <= j < base || offset <= j < dAtA.Length ==> dAtA[j] == old(dAtA[j])
    {
      dAtA[at] := x % 128 + 128;
      assert Varint(x)[0] == all[at - base];
      assert Varint(x)[1..] == all[at - base + 1..];
      x := x / 128;
      at := at + 1;
    }
    dAtA[at] := x;
    assert dAtA[at] == all[at - base];
    assert dAtA[..] == Put(old(dAtA[..]), offset, all);
  }

  /** `i--; dAtA[i] = b`. */
  method PutByte(dAtA: array<byte>, i: int, b: byte) returns (at: int)
    requires 0 < i <= dAtA.Length
    modifies dAtA
    ensures at == i - 1 && dAtA[..] == Put(old(dAtA[..]), i, [b])
  {
    at := i - 1;
    dAtA[at] := b;
  }

  /** `i -= len(data); copy(dAtA[i:], data)`. */
  method PutData(dAtA: array<byte>, i: int, data: bytes) returns (at: int)
    requires |data| <= i <= dAtA.Length
    modifies dAtA
    ensures at == i - |data| && dAtA[..] == Put(old(dAtA[..]), i, data)
  {
    at := i - |data|;
    for k := 0 to |data|
      invariant forall j :: at <= j < at + k ==> dAtA[j] == data[j - at]
      invariant forall j :: 0 <= j < at || at + k <= j < dAtA.Length ==> dAtA[j] == old(dAtA[j])
    {
      dAtA[at + k] := data[k];
    }
    assert dAtA[..] == Put(old(dAtA[..]), i, data);
  }

  /** A varint field: the number, then its tag byte in front of it. */
  method PutVarintField(dAtA: array<byte>, i: int, field: nat, v: uint64) returns (at: int)
    requires field < 16 && |Record(field, VarintP(v)).Bytes()| <= i <= dAtA.Length
    modifies dAtA
    ensures at == i - |Record(field, VarintP(v)).Bytes()|
    ensures at >= 0 && dAtA[..] == Put(old(dAtA[..]), i, Record(field, VarintP(v)).Bytes())
  {
    SovIsVarintLength(v);
    at := EncodeVarint(dAtA, i, v);
    at := PutByte(dAtA, at, field * 8);
    PutPut(old(dAtA[..]), i, Varint(v), [field * 8]);
  }

  /** A fixed64 field: `i -= 8; PutUint64(dAtA[i:], v)`, then its tag byte. */
  method PutFixedField(dAtA: array<byte>, i: int, field: nat, v: uint64) returns (at: int)
    requires field < 16 && |Record(field, FixedP(v)).Bytes()| <= i <= dAtA.Length
    modifies dAtA
    ensures at == i - |Record(field, FixedP(v)).Bytes()|
    ensures at >= 0 && dAtA[..] == Put(old(dAtA[..]), i, Record(field, FixedP(v)).Bytes())
  {
    at := PutData(dAtA, i, Little(v, 8));
    at := PutByte(dAtA, at, field * 8 + 1);
    PutPut(old(dAtA[..]), i, Little(v, 8), [field * 8 + 1]);
  }

  /** The length prefix and the tag byte in front of `data`, whose `n` bytes a nested marshaller has
      just put in front of index `i + n`: `i = encodeVarint…(dAtA, i, uint64(n)); i--; dAtA[i] = tag`. */
  method PutPrefix(dAtA: array<byte>, i: int, field: nat, n: nat, ghost was: bytes, ghost data: bytes) returns (at: int)
    requires field < 16 && n == |data| <= MAX_LEN
    requires |Record(field, BytesP(data)).Bytes()| - n <= i <= i + n <= dAtA.Length == |was|
    requires dAtA[..] == Put(was, i + n, data)
    modifies dAtA
    ensures at == i + n - |Record(field, BytesP(data)).Bytes()|
    ensures at >= 0 && dAtA[..] == Put(was, i + n, Record(field, BytesP(data)).Bytes())
  {
    hide Put;
    SovIsVarintLength(n);
    at := EncodeVarint(dAtA, i, n);
    PutPut(was, i + n, data, Varint(n));
    var key: byte := field * 8 + 2;
    at := PutByte(dAtA, at, key);
    PutPut(was, i + n, Varint(n) + data, [key]);
    assert Record(field, BytesP(data)).Bytes() == [key] + (Varint(n) + data);
  }

  /** A bytes field: the contents, the length prefix and the tag byte, back to front. */
  method PutBytesField(dAtA: array<byte>, i: int, field: nat, data: bytes) returns (at: int)
    requires field < 16 && |Record(field, BytesP(data)).Bytes()| <= i <= dAtA.Length
    requires |Record(field, BytesP(data)).Bytes()| <= MAX_LEN
    modifies dAtA
    ensures at == i - |Record(field, BytesP(data)).Bytes()|
    ensures at >= 0 && dAtA[..] == Put(old(dAtA[..]), i, Record(field, BytesP(data)).Bytes())
  {
    at := PutData(dAtA, i, data);
    at := PutPrefix(dAtA, at, field, |data|, old(dAtA[..]), data);
  }

  // The blocks of the marshallers, `if` included: a field that is zero or empty is not written.

  method WriteVarint(dAtA: array<byte>, i: int, field: nat, v: word) returns (at: int)
    requires 0 < field < 16 && |Encode(VarintField(field, v))| <= i <= dAtA.Length
    modifies dAtA
    ensures at == i - |Encode(VarintField(field, v))|
    ensures at >= 0 && dAtA[..] == Put(old(dAtA[..]), i, Encode(VarintField(field, v)))
  {
    at := i;
    if v != 0 {
      OneRecord(Record(field, VarintP(Unsigned64(v))));
      at := PutVarintField(dAtA, at, field, Unsigned64(v));
    }
  }

  /** `if m.X { i--; dAtA[i] = 1; i--; dAtA[i] = tag }`. */
  method WriteBool(dAtA: array<byte>, i: int, field: nat, b: bool) returns (at: int)
    requires 0 < field < 16 && |Encode(VarintField(field, if b then 1 else 0))| <= i <= dAtA.Length
    modifies dAtA
    ensures at == i - |Encode(VarintField(field, if b then 1 else 0))|
    ensures at >= 0 && dAtA[..] == Put(old(dAtA[..]), i, Encode(VarintField(field, if b then 1 else 0)))
  {
    at := i;
    if b {
      OneRecord(Record(field, VarintP(1)));
      at := PutByte(dAtA, at, 1);
      at := PutByte(dAtA, at, field * 8);
      PutPut(old(dAtA[..]), i, [1], [field * 8]);
    }
  }

  method WriteFixed(dAtA: array<byte>, i: int, field: nat, v: int64) returns (at: int)
    requires 0 < field < 16 && |Encode(FixedField(field, v))| <= i <= dAtA.Length
    modifies dAtA
    ensures at == i - |Encode(FixedField(field, v))|
    ensures at >= 0 && dAtA[..] == Put(old(dAtA[..]), i, Encode(FixedField(field, v)))
  {
    at := i;
    if v != 0 {
      OneRecord(Record(field, FixedP(Unsigned64(v))));
      at := PutFixedField(dAtA, at, field, Unsigned64(v));
    }
  }

  method WriteBytes(dAtA: array<byte>, i: int, field: nat, data: bytes) returns (at: int)
    requires 0 < field < 16 && |Encode(BytesField(field, data))| <= i <= dAtA.Length
    requires |Encode(BytesField(field, data))| <= MAX_LEN
    modifies dAtA
    ensures at == i - |Encode(BytesField(field, data))|
    ensures at >= 0 && dAtA[..] == Put(old(dAtA[..]), i, Encode(BytesField(field, data)))
  {
    at := i;
    if |data| > 0 {
      OneRecord(Record(field, BytesP(data)));
      at := PutBytesField(dAtA, at, field, data);
    }
  }

  /** What a backward loop over a repeated field has written when it stands at element `k`. */
  function Tail(field: nat, bs: seq<bytes>, k: nat): bytes
    requires k <= |bs|
  {
    Encode(RepeatedField(field, bs[k..]))
  }

  lemma {:induction false} TailNext(field: nat, bs: seq<bytes>, k: nat)
    requires k < |bs|
    ensures Tail(field, bs, k) == Record(field, BytesP(bs[k])).Bytes() + Tail(field, bs, k + 1)
    ensures |Tail(field, bs, k)| <= |Tail(field, bs, 0)|
  {
    var tail := bs[k..];
    assert tail[1..] == bs[k + 1..];
    assert RepeatedField(field, tail)[1..] == RepeatedField(field, tail[1..]);
    RepeatedConcat(field, bs[..k], tail);
    EncodeConcat(RepeatedField(field, bs[..k]), RepeatedField(field, tail));
    assert bs == bs[..k] + tail && bs[0..] == bs;
  }

  lemma TailEnds(field: nat, bs: seq<bytes>)
    ensures Tail(field, bs, |bs|) == [] && Tail(field, bs, 0) == Encode(RepeatedField(field, bs))
  {
    assert bs[|bs|..] == [] && bs[0..] == bs;
  }

  /** `for iNdEx := len(m.X) - 1; iNdEx >= 0; iNdEx--`. */
  method WriteRepeated(dAtA: array<byte>, i: int, field: nat, bs: seq<bytes>) returns (at: int)
    requires 0 < field < 16 && |Encode(RepeatedField(field, bs))| <= i <= dAtA.Length
    requires |Encode(RepeatedField(field, bs))| <= MAX_LEN
    modifies dAtA
    ensures at == i - |Encode(RepeatedField(field, bs))|
    ensures at >= 0 && dAtA[..] == Put(old(dAtA[..]), i, Encode(RepeatedField(field, bs)))
  {
    hide Encode, Put, Record.Bytes, RepeatedField, Tail;
    at := i;
    ghost var was := dAtA[..];
    var iNdEx := |bs| - 1;
    TailEnds(field, bs);
    PutNothing(was, i);
    while iNdEx >= 0
      invariant -1 <= iNdEx < |bs| && |Tail(field, bs, iNdEx + 1)| <= i
      invariant at == i - |Tail(field, bs, iNdEx + 1)|
      invariant dAtA[..] == Put(was, i, Tail(field, bs, iNdEx + 1))
    {
      TailNext(field, bs, iNdEx);
      at := PutBytesField(dAtA, at, field, bs[iNdEx]);
      PutPut(was, i, Tail(field, bs, iNdEx + 1), Record(field, BytesP(bs[iNdEx])).Bytes());
      iNdEx := iNdEx - 1;
    }
  }

  /** A buffer of exactly the reserved size ends up holding what was written. */
  lemma PutAll(n: nat, d: bytes)
    requires n == |d|
    ensures forall buf: bytes :: |buf| == n ==> Put(buf, n, d) == d
  {
  }

  lemma PutNothing(buf: bytes, i: nat)
    requires i <= |buf|
    ensures Put(buf, i, []) == buf
  {
  }

  // ---------------------------------------------------------------------------------------
  // Reading
  // ---------------------------------------------------------------------------------------

  lemma Pow2Step(n: nat)
    ensures Pow2(n + 7) == 128 * Pow2(n)
  {
    assert Pow2(n + 7) == 2 * Pow2(n + 6);
    assert Pow2(n + 6) == 2 * Pow2(n + 5);
    assert Pow2(n + 5) == 2 * Pow2(n + 4);
    assert Pow2(n + 4) == 2 * Pow2(n + 3);
    assert Pow2(n + 3) == 2 * Pow2(n + 2);
    assert Pow2(n + 2) == 2 * Pow2(n + 1);
  }

  /** Adding two non-negative `int`s leaves the range exactly when the result reads as negative. */
  lemma WrapsNegative(x: nat)
    requires x < TWO_64
    ensures Signed64(x) == if x < TWO_63 then x else x - TWO_64
  {
  }

  /** A number and the index behind it. */
  datatype At<+T> = At(v: T, next: int)

  /** What reading groups from index `at` on says about the whole number, when the groups before
      `at` contributed `acc`. */
  function Joined(acc: nat, scale: nat, k: nat, r: Result<Num>): Result<Num> {
    match r
    case Err(e) => Err(e)
    case Ok(x) => Ok(Num(acc + scale * x.v, k + x.n))
  }

  lemma JoinedStep(acc: nat, scale: nat, k: nat, b: bytes, budget: nat)
    requires budget > 0 && b != [] && b[0] >= 128
    ensures Joined(acc, scale, k, ReadGroups(b, budget))
            == Joined(acc + (b[0] - 128) * scale, 128 * scale, k + 1, ReadGroups(b[1..], budget - 1))
  {
    var r := ReadGroups(b[1..], budget - 1);
    if r.Ok? {
      var c, x := b[0] - 128, r.value.v;
      assert scale * (c + 128 * x) == c * scale + 128 * scale * x;
    }
  }

  lemma Remainder32(x: int, q: int, r: int)
    requires 0 <= r < TWO_32 && x == q * TWO_32 + r
    ensures x % TWO_32 == r
  {
  }

  /** What a variable of `modulus` keeps of `x`. */
  function Kept(x: nat, modulus: nat): nat
    requires modulus > 0
  {
    x % modulus
  }

  /** A byte's seven bits in their place. */
  function Shifted(b: byte, shift: nat): nat { b % 128 * Pow2(shift) }

  lemma LowBits(x: nat, modulus: nat)
    requires modulus == TWO_32 || modulus == TWO_64
    ensures Kept(x, modulus) == x % TWO_64 % modulus
  {
    if modulus == TWO_32 {
      var q, low := x / TWO_64, x % TWO_64;
      Remainder32(x, q * TWO_32 + low / TWO_32, low % TWO_32);
    }
  }

  lemma AddModulo(acc: nat, x: nat, modulus: nat)
    requires modulus == TWO_32 || modulus == TWO_64
    ensures Kept(0, modulus) == 0 && Kept(Kept(acc, modulus) + x, modulus) == Kept(acc + x, modulus)
  {
  }

  /**
    The loop `for shift := uint(0); ; shift += 7`, which the generator writes out wherever a varint
    is read.  It accumulates in a variable of `modulus`, 2^64 or 2^32, so bits shifted out of that
    variable are lost.  The groups it ors together are disjoint, so the model adds them.
  */
  method DecodeVarint(dAtA: bytes, start: int, modulus: nat) returns (r: Result<At<nat>>)
    requires 0 <= start <= |dAtA| <= MAX_LEN
    requires modulus == TWO_32 || modulus == TWO_64
    ensures match ReadVarint(dAtA[start..])
            case Err(e) => r == Err(e)
            case Ok(x) => r == Ok(At(x.v % modulus, start + x.n))
  {
    hide ReadGroups, Joined, Pow2, Kept, Shifted;
    var l, iNdEx := |dAtA|, start;
    JoinedEnds(dAtA[start..], 0, 0);
    AddModulo(0, 0, modulus);
    var v: nat, shift: nat := 0, 0;
    ghost var acc: nat, k: nat := 0, 0;
    while true
      invariant 0 <= k <= 10 && shift == 7 * k && iNdEx == start + k <= l
      invariant v == Kept(acc, modulus)
      invariant ReadGroups(dAtA[start..], 10) == Joined(acc, Pow2(shift), k, ReadGroups(dAtA[iNdEx..], 10 - k))
      decreases 10 - k
    {
      JoinedEnds(dAtA[iNdEx..], acc, k);
      if shift >= 64 { return Err(Overflow); }
      if iNdEx >= l { return Err(Truncated); }
      var b := dAtA[iNdEx];
      var group := Shifted(b, shift);
      AddModulo(acc, group, modulus);
      GroupRead(dAtA, iNdEx, acc, shift, k);
      iNdEx := iNdEx + 1;
      v := Kept(v + group, modulus);
      acc, k := acc + group, k + 1;
      if b < 128 {
        LowBits(acc, modulus);
        return Ok(At(v, iNdEx));
      }
      shift := shift + 7;
    }
  }

  /** Where the loop starts, and where it gives up. */
  lemma JoinedEnds(b: bytes, acc: nat, k: nat)
    requires k <= 10
    ensures Joined(0, Pow2(0), 0, ReadGroups(b, 10)) == ReadGroups(b, 10)
    ensures k == 10 ==> Joined(acc, Pow2(7 * k), k, ReadGroups(b, 10 - k)) == Err(Overflow)
    ensures k < 10 && b == [] ==> Joined(acc, Pow2(7 * k), k, ReadGroups(b, 10 - k)) == Err(Truncated)
  {
  }

  lemma GroupRead(dAtA: bytes, iNdEx: nat, acc: nat, shift: nat, k: nat)
    requires iNdEx < |dAtA| && k < 10
    ensures var b := dAtA[iNdEx];
            Joined(acc, Pow2(shift), k, ReadGroups(dAtA[iNdEx..], 10 - k))
            == if b < 128 then Ok(Num(acc + Shifted(b, shift), k + 1))
               else Joined(acc + Shifted(b, shift), Pow2(shift + 7), k + 1, ReadGroups(dAtA[iNdEx + 1..], 9 - k))
  {
    hide Pow2, ReadGroups;
    var here := dAtA[iNdEx..];
    assert here[1..] == dAtA[iNdEx + 1..];
    if here[0] < 128 {
      LastGroup(here, 10 - k);
    } else {
      JoinedStep(acc, Pow2(shift), k, here, 10 - k);
      Pow2Step(shift);
    }
  }

  lemma LastGroup(b: bytes, budget: nat)
    requires budget > 0 && b != [] && b[0] < 128
    ensures ReadGroups(b, budget) == Ok(Num(b[0], 1))
  {
  }

  /** The tag at the front of every round: the number, `int32(wire >> 3)`, `wire & 0x7`, and the
      two checks that come before the switch. */
  method DecodeTag(dAtA: bytes, start: int) returns (r: Result<At<Tag>>)
    requires 0 <= start <= |dAtA| <= MAX_LEN
    ensures match ReadTag(dAtA[start..])
            case Err(e) => r == Err(e)
            case Ok(t) =>
              if t.wireType == 4 then r == Err(EndGroup)
              else if t.field <= 0 then r == Err(IllegalTag)
              else r == Ok(At(t, start + t.n))
  {
    var wire :- DecodeVarint(dAtA, start, TWO_64);
    var fieldNum := Signed32(wire.v / 8);
    var wireType := wire.v % 8;
    if wireType == 4 { return Err(EndGroup); }
    if fieldNum <= 0 { return Err(IllegalTag); }
    return Ok(At(Tag(fieldNum, wireType, wire.next - start), wire.next));
  }

  /** The bounds of a length-delimited payload: `At(iNdEx, postIndex)`. */
  method DecodeLength(dAtA: bytes, start: int) returns (r: Result<At<int>>)
    requires 0 <= start <= |dAtA| <= MAX_LEN
    ensures match ReadPayload(dAtA[start..], 2)
            case Err(e) => r == Err(e)
            case Ok(s) =>
              r.Ok? && start < r.value.v <= r.value.next == start + s.n <= |dAtA|
              && s.p == BytesP(dAtA[r.value.v..r.value.next])
  {
    hide ReadVarint, Signed64;
    var l := |dAtA|;
    var len :- DecodeVarint(dAtA, start, TWO_64);
    WrapsNegative(len.v);
    var byteLen := Signed64(len.v);
    if byteLen < 0 { return Err(NegativeLength); }
    WrapsNegative(len.next + byteLen);
    var postIndex := Signed64(len.next + byteLen);
    if postIndex < 0 { return Err(Truncated); }
    if postIndex > l { return Err(Truncated); }
    assert dAtA[start..][len.next - start..postIndex - start] == dAtA[len.next..postIndex];
    return Ok(At(len.next, postIndex));
  }

  /** `LittleEndian.Uint64(dAtA[iNdEx:])` behind its length check. */
  method DecodeFixed64(dAtA: bytes, start: int) returns (r: Result<At<uint64>>)
    requires 0 <= start <= |dAtA| <= MAX_LEN
    ensures match ReadPayload(dAtA[start..], 1)
            case Err(e) => r == Err(e)
            case Ok(s) => s.p.FixedP? && r == Ok(At(s.p.v, start + s.n))
  {
    if start + 8 > |dAtA| { return Err(Truncated); }
    LittleRange(dAtA[start..start + 8]);
    assert dAtA[start..][..8] == dAtA[start..start + 8];
    return Ok(At(FromLittle(dAtA[start..start + 8]), start + 8));
  }

  /** The answer of the skip function: an end that does not fit an `int` is refused. */
  function Clip(r: Result<nat>): Result<nat> {
    if r.Ok? && r.value >= TWO_63 then Err(Truncated) else r
  }

  /** `skip…(dAtA)`. */
  method SkipRecord(dAtA: bytes) returns (r: Result<nat>)
    requires |dAtA| <= MAX_LEN
    ensures r == Clip(Skip(dAtA, 0))
  {
    hide SkipOne;
    var l, iNdEx := |dAtA|, 0;
    var depth: nat := 0;
    while iNdEx < l
      invariant 0 <= iNdEx < TWO_63
      invariant iNdEx <= l ==> Skip(dAtA, 0) == Further(iNdEx, Skip(dAtA[iNdEx..], depth))
      invariant iNdEx > l ==> Skip(dAtA, 0) == Err(Truncated)
    {
      var stride := OneStride(dAtA, iNdEx, depth);
      StrideMeans(dAtA, iNdEx, depth);
      if stride.Err? { return Err(stride.error); }
      iNdEx, depth := stride.value.next, stride.value.v;
      if depth == 0 { return Ok(iNdEx); }
    }
    return Err(Truncated);
  }

  lemma StrideMeans(dAtA: bytes, iNdEx: nat, depth: nat)
    requires iNdEx < |dAtA| && Skip(dAtA, 0) == Further(iNdEx, Skip(dAtA[iNdEx..], depth))
    ensures match SkipOne(dAtA[iNdEx..], depth)
            case Err(e) => Skip(dAtA, 0) == Err(e)
            case Ok(s) =>
              if s.depth == 0 then Skip(dAtA, 0) == Ok(iNdEx + s.n)
              else if iNdEx + s.n > |dAtA| then Skip(dAtA, 0) == Err(Truncated)
              else Skip(dAtA, 0) == Further(iNdEx + s.n, Skip(dAtA[iNdEx + s.n..], s.depth))
  {
    hide SkipOne;
    var s := SkipOne(dAtA[iNdEx..], depth);
    if s.Ok? && iNdEx + s.value.n <= |dAtA| {
      assert dAtA[iNdEx..][s.value.n..] == dAtA[iNdEx + s.value.n..];
    }
  }

  /** The answer of a stride: an index that does not fit an `int` is refused. */
  function ClipStride(start: nat, r: Result<Stride>): Result<At<nat>> {
    match r
    case Err(e) => Err(e)
    case Ok(s) => if start + s.n >= TWO_63 then Err(Truncated) else Ok(At(s.depth, start + s.n))
  }

  /** The body of the skip loop: `At(depth, iNdEx)` behind the switch and the check that follows it. */
  method OneStride(dAtA: bytes, start: int, depth: nat) returns (r: Result<At<nat>>)
    requires 0 <= start < |dAtA| <= MAX_LEN
    ensures r == ClipStride(start, SkipOne(dAtA[start..], depth))
  {
    hide ReadVarint, SkipBody;
    var wire :- DecodeVarint(dAtA, start, TWO_64);
    assert dAtA[start..][wire.next - start..] == dAtA[wire.next..];
    r := StrideBody(dAtA, wire.next, wire.v % 8, depth);
  }

  /** The index behind a length-delimited payload, still to be compared with 0. */
  method SkipDelimited(dAtA: bytes, start: int) returns (r: Result<int>)
    requires 0 <= start <= |dAtA| <= MAX_LEN
    ensures match ReadLength(dAtA[start..])
            case Err(e) => r == Err(e)
            case Ok(len) => r == Ok(Signed64(start + len.n + len.v))
  {
    hide ReadVarint, Signed64;
    var len :- DecodeVarint(dAtA, start, TWO_64);
    WrapsNegative(len.v);
    var length := Signed64(len.v);
    if length < 0 { return Err(NegativeLength); }
    return Ok(Signed64(len.next + length));
  }

  method StrideBody(dAtA: bytes, start: int, wireType: nat, depth: nat) returns (r: Result<At<nat>>)
    requires 0 <= start <= |dAtA| <= MAX_LEN
    ensures r == ClipStride(start, SkipBody(dAtA[start..], wireType, depth))
  {
    hide ReadVarint, ReadLength;
    var iNdEx, d := start, depth;
    match wireType {
      case 0 =>
        var x :- DecodeVarint(dAtA, iNdEx, TWO_64);
        iNdEx := x.next;
      case 1 =>
        iNdEx := Signed64(iNdEx + 8);
      case 2 =>
        iNdEx :- SkipDelimited(dAtA, iNdEx);
      case 3 =>
        d := d + 1;
      case 4 =>
        if d == 0 { return Err(EndGroup); }
        d := d - 1;
      case 5 =>
        iNdEx := Signed64(iNdEx + 4);
      case _ =>
        return Err(IllegalWireType);
    }
    if iNdEx < 0 { return Err(Truncated); }
    return Ok(At(d, iNdEx));
  }

  // ---------------------------------------------------------------------------------------
  // What the cases of every switch start with
  // ---------------------------------------------------------------------------------------

  /** The answer of an `Unmarshal` method and the receiver it leaves.  Of a receiver whose
      `Unmarshal` failed nothing is said. */
  ghost predicate Agrees<M>(spec: Result<M>, r: Result<()>, m: M) {
    match spec
    case Err(e) => r == Err(e)
    case Ok(m') => r.Ok? && m == m'
  }

  /** `if wireType != 0 { return … }` and the varint loop. */
  method VarintCase(dAtA: bytes, tag: At<Tag>) returns (r: Result<At<uint64>>)
    requires 0 <= tag.next <= |dAtA| <= MAX_LEN
    ensures if tag.v.wireType != 0 then r == Err(WrongWireType)
            else match ReadPayload(dAtA[tag.next..], 0)
                 case Err(e) => r == Err(e)
                 case Ok(s) => s.p.VarintP? && r == Ok(At(s.p.v, tag.next + s.n))
  {
    hide ReadVarint;
    if tag.v.wireType != 0 { return Err(WrongWireType); }
    var x :- DecodeVarint(dAtA, tag.next, TWO_64);
    return Ok(At(x.v, x.next));
  }

  /** The same for a field of 32 bits: the loop accumulates in the field, so only the low 32 bits of
      the number are kept. */
  method Varint32Case(dAtA: bytes, tag: At<Tag>) returns (r: Result<At<uint32>>)
    requires 0 <= tag.next <= |dAtA| <= MAX_LEN
    ensures if tag.v.wireType != 0 then r == Err(WrongWireType)
            else match ReadPayload(dAtA[tag.next..], 0)
                 case Err(e) => r == Err(e)
                 case Ok(s) =>
                   s.p.VarintP? && r == Ok(At(Unsigned32(s.p.v), tag.next + s.n))
                   && Signed32(Unsigned32(s.p.v)) == Signed32(s.p.v)
  {
    hide ReadVarint, Signed32;
    if tag.v.wireType != 0 { return Err(WrongWireType); }
    var x :- DecodeVarint(dAtA, tag.next, TWO_32);
    Narrowing(ReadVarint(dAtA[tag.next..]).value.v);
    return Ok(At(x.v, x.next));
  }

  /** `if wireType != 1 { return … }` and the eight bytes. */
  method FixedCase(dAtA: bytes, tag: At<Tag>) returns (r: Result<At<uint64>>)
    requires 0 <= tag.next <= |dAtA| <= MAX_LEN
    ensures if tag.v.wireType != 1 then r == Err(WrongWireType)
            else match ReadPayload(dAtA[tag.next..], 1)
                 case Err(e) => r == Err(e)
                 case Ok(s) => s.p.FixedP? && r == Ok(At(s.p.v, tag.next + s.n))
  {
    hide ReadPayload;
    if tag.v.wireType != 1 { return Err(WrongWireType); }
    r := DecodeFixed64(dAtA, tag.next);
  }

  /** `if wireType != 2 { return … }` and the bounds of the payload; the answer is the payload. */
  method BytesCase(dAtA: bytes, tag: At<Tag>) returns (r: Result<At<bytes>>)
    requires 0 <= tag.next <= |dAtA| <= MAX_LEN
    ensures if tag.v.wireType != 2 then r == Err(WrongWireType)
            else match ReadPayload(dAtA[tag.next..], 2)
                 case Err(e) => r == Err(e)
                 case Ok(s) => s.p.BytesP? && |s.p.b| <= |dAtA| && r == Ok(At(s.p.b, tag.next + s.n))
  {
    hide ReadPayload;
    if tag.v.wireType != 2 { return Err(WrongWireType); }
    var bounds :- DecodeLength(dAtA, tag.next);
    return Ok(At(dAtA[bounds.v..bounds.next], bounds.next));
  }

  /** The default case: the record is skipped, its tag read once more. */
  method SkipCase(dAtA: bytes, preIndex: int) returns (r: Result<int>)
    requires 0 <= preIndex < |dAtA| <= MAX_LEN
    ensures match Skip(dAtA[preIndex..], 0)
            case Err(e) => r == Err(e)
            case Ok(n) => r == if n > |dAtA| - preIndex then Err(Truncated) else Ok(preIndex + n)
  {
    hide Skip;
    var l := |dAtA|;
    var skippy :- SkipRecord(dAtA[preIndex..]);
    WrapsNegative(preIndex + skippy);
    var iNdEx := Signed64(preIndex + skippy);
    if iNdEx < 0 { return Err(Truncated); }
    if iNdEx > l { return Err(Truncated); }
    return Ok(iNdEx);
  }

  /** One round of the loop, seen from the index it starts at. */
  lemma DecodeRound<M>(c: Codec<M>, m: M, dAtA: bytes, at: nat)
    requires c.Valid() && at < |dAtA|
    ensures match Step(c, m, dAtA[at..])
            case Err(e) => Decode(c, m, dAtA[at..]) == Err(e)
            case Ok(s) => Decode(c, m, dAtA[at..]) == Decode(c, s.m, dAtA[at + s.n..])
  {
    hide Step;
    var s := Step(c, m, dAtA[at..]);
    if s.Ok? {
      assert dAtA[at..][s.value.n..] == dAtA[at + s.value.n..];
    }
  }

  lemma DecodeEnd<M>(c: Codec<M>, m: M, dAtA: bytes)
    requires c.Valid()
    ensures Decode(c, m, dAtA[|dAtA|..]) == Ok(m) && dAtA[0..] == dAtA
  {
  }
}
