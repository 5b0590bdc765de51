/** The lists of fields the marshallers write, and what holds of them for every message. */
module Fields {
  import opened Wire
  import opened Varints
  import opened Decoding

  // A proto3 scalar is written only when it is not zero, a bytes field only when it is not empty.

  function VarintField(field: nat, v: word): seq<Record> {
    if v == 0 then [] else [Record(field, VarintP(Unsigned64(v)))]
  }

  function FixedField(field: nat, v: int64): seq<Record> {
    if v == 0 then [] else [Record(field, FixedP(Unsigned64(v)))]
  }

  function BytesField(field: nat, b: bytes): seq<Record> {
    if b == [] then [] else [Record(field, BytesP(b))]
  }

  /** A repeated bytes field writes every element, the empty ones too. */
  function RepeatedField(field: nat, bs: seq<bytes>): (rs: seq<Record>)
    ensures |rs| == |bs|
    ensures forall i :: 0 <= i < |bs| ==> rs[i] == Record(field, BytesP(bs[i]))
  {
    if bs == [] then [] else [Record(field, BytesP(bs[0]))] + RepeatedField(field, bs[1..])
  }

  /** The first element of a repeated field, and the others behind it. */
  lemma RepeatedSplit(field: nat, rs: seq<Record>, bs: seq<bytes>)
    requires bs != []
    ensures rs + RepeatedField(field, bs) == rs + [Record(field, BytesP(bs[0]))] + RepeatedField(field, bs[1..])
  {
  }

  lemma RepeatedNone(field: nat, rs: seq<Record>)
    ensures rs + RepeatedField(field, []) == rs
  {
  }

  function Contents(bs: seq<Buf>): (r: seq<bytes>)
    ensures |r| == |bs| && forall i :: 0 <= i < |bs| ==> r[i] == bs[i].Data()
  {
    seq(|bs|, i requires 0 <= i < |bs| => bs[i].Data())
  }

  /** Go's conversions change a number by a multiple of the width only; the types say in which range. */
  lemma Conversions(x: int) returns (a: int, b: int, c: int, d: int)
    ensures x == Signed64(x) + a * TWO_64 && x == Unsigned64(x) + b * TWO_64
    ensures x == Signed32(x) + c * TWO_32 && x == Unsigned32(x) + d * TWO_32
  {
    a, b, c, d := (x + TWO_63) / TWO_64, x / TWO_64, (x + TWO_31) / TWO_32, x / TWO_32;
  }

  /** Sign extension to 64 bits and back, and the low 32 bits of the result. */
  lemma SignedRoundTrip(v: int64)
    ensures Signed64(Unsigned64(v)) == v
    ensures Signed32(Unsigned64(v)) == Signed32(v) && Unsigned32(Unsigned64(v)) == Unsigned32(v)
  {
    if v < 0 {
      assert Unsigned64(v) == v + TWO_64;
      PlusTwo64(v + TWO_31);
      PlusTwo64(v);
    }
  }

  /** A 32-bit accumulator reads the same number as the low half of a 64-bit one. */
  lemma Narrowing(v: nat)
    ensures Signed32(v % TWO_32) == Signed32(v)
  {
    var q := v / TWO_32;
    assert v == q * TWO_32 + v % TWO_32;
    assert v + TWO_31 == q * TWO_32 + (v % TWO_32 + TWO_31);
  }

  lemma UnsignedRoundTrip(v: uint64)
    ensures Unsigned64(Signed64(v)) == v
  {
  }

  lemma PlusTwo64(x: int)
    ensures (x + TWO_64) % TWO_32 == x % TWO_32
  {
    var q := x / TWO_32;
    assert x == q * TWO_32 + x % TWO_32;
    assert x + TWO_64 == (q + TWO_32) * TWO_32 + x % TWO_32;
  }

  /** The field is one of the message's, under the wire type its case expects. */
  ghost predicate Tagged(wants: int -> Option<nat>, r: Record) {
    0 < r.field < 16 && wants(r.field) == Some(r.payload.WireType())
  }

  lemma {:induction false} RecordNotLonger(rs: seq<Record>, r: Record)
    requires r in rs
    ensures |r.Bytes()| <= |Encode(rs)|
  {
    if r != rs[0] {
      RecordNotLonger(rs[1..], r);
    }
  }

  lemma AllFit(wants: int -> Option<nat>, rs: seq<Record>)
    requires |Encode(rs)| <= MAX_LEN && forall r <- rs :: Tagged(wants, r)
    ensures forall r <- rs :: Fits(wants, r)
  {
    forall r <- rs
      ensures Fits(wants, r)
    {
      RecordNotLonger(rs, r);
    }
  }

  /** Decoding what was encoded replays the fields on the receiver. */
  lemma DecodeFields<M>(c: Codec<M>, m: M, rs: seq<Record>)
    requires c.Valid() && |Encode(rs)| <= MAX_LEN && forall r <- rs :: Tagged(c.wants, r)
    ensures Decode(c, m, Encode(rs)) == Fold(c, m, rs)
  {
    AllFit(c.wants, rs);
    DecodeEncode(c, m, rs, []);
    assert Encode(rs) + [] == Encode(rs);
  }

  lemma EncodeNothing()
    ensures Encode([]) == []
  {
  }

  lemma FoldNone<M>(c: Codec<M>, m: M)
    ensures Fold(c, m, []) == Ok(m)
  {
  }

  lemma FoldOne<M>(c: Codec<M>, m: M, r: Record)
    ensures Fold(c, m, [r]) == c.apply(m, r.field, r.payload)
  {
    assert [r][1..] == [];
  }

  /** The next field of a message, present or left out, behind the fields `rs`. */
  lemma FoldPush<M>(c: Codec<M>, m0: M, rs: seq<Record>, m: M, field: seq<Record>, m': M)
    requires Fold(c, m0, rs) == Ok(m)
    requires if field == [] then m' == m
             else |field| == 1 && c.apply(m, field[0].field, field[0].payload) == Ok(m')
    ensures Fold(c, m0, rs + field) == Ok(m')
  {
    FoldConcat(c, m0, rs, field);
    if field != [] {
      assert field == [field[0]];
      FoldOne(c, m, field[0]);
    }
  }

  /** The first field of a message. */
  lemma FoldFirst<M>(c: Codec<M>, m: M, field: seq<Record>, m': M)
    requires if field == [] then m' == m
             else |field| == 1 && c.apply(m, field[0].field, field[0].payload) == Ok(m')
    ensures Fold(c, m, field) == Ok(m')
  {
    FoldPush(c, m, [], m, field, m');
    assert [] + field == field;
  }

  // ---------------------------------------------------------------------------------------
  // Sizes
  // ---------------------------------------------------------------------------------------

  /** The size of a delimited field, as the `Size` methods add it up. */
  function Delimited(n: nat): nat { 1 + n + Sov(n) }

  lemma OneRecord(r: Record)
    ensures Encode([r]) == r.Bytes()
  {
    assert Encode([r]) == r.Bytes() + Encode([]);
  }

  lemma RecordSize(r: Record)
    requires 0 < r.field < 16
    ensures |r.Bytes()| == match r.payload
                           case VarintP(v) => 1 + Sov(v)
                           case FixedP(v) => 9
                           case BytesP(b) => Delimited(|b|)
  {
    match r.payload
    case VarintP(v) => SovIsVarintLength(v);
    case FixedP(v) =>
    case BytesP(b) => SovIsVarintLength(|b|);
  }

  lemma EncodeThree(a: seq<Record>, b: seq<Record>, c: seq<Record>)
    ensures Encode(a + b + c) == Encode(a) + (Encode(b) + Encode(c))
  {
    hide Encode;
    EncodeConcat(a + b, c);
    EncodeConcat(a, b);
  }

  lemma EncodeFour(a: seq<Record>, b: seq<Record>, c: seq<Record>, d: seq<Record>)
    ensures Encode(a + b + c + d) == Encode(a) + (Encode(b) + (Encode(c) + Encode(d)))
  {
    hide Encode;
    EncodeConcat(a + b + c, d);
    EncodeThree(a, b, c);
  }

  lemma EncodeFive(a: seq<Record>, b: seq<Record>, c: seq<Record>, d: seq<Record>, e: seq<Record>)
    ensures Encode(a + b + c + d + e) == Encode(a) + (Encode(b) + (Encode(c) + (Encode(d) + Encode(e))))
  {
    hide Encode;
    EncodeConcat(a + b + c + d, e);
    EncodeFour(a, b, c, d);
  }

  lemma SovOfOne()
    ensures Sov(1) == 1
  {
    SovIsVarintLength(1);
  }

  lemma PayloadShorter(field: nat, b: bytes)
    ensures |b| <= |Record(field, BytesP(b)).Bytes()|
  {
  }

  function VarintSize(v: word): nat { if v == 0 then 0 else 1 + Sov(Unsigned64(v)) }

  function FixedSize(v: int64): nat { if v == 0 then 0 else 9 }

  function BytesSize(b: bytes): nat { if b == [] then 0 else Delimited(|b|) }

  function RepeatedSize(bs: seq<bytes>): nat {
    if bs == [] then 0 else Delimited(|bs[0]|) + RepeatedSize(bs[1..])
  }

  lemma ScalarSizes(field: nat, v: int64, w: word, b: bytes)
    requires 0 < field < 16
    ensures |Encode(VarintField(field, w))| == VarintSize(w)
    ensures |Encode(FixedField(field, v))| == FixedSize(v)
    ensures |Encode(BytesField(field, b))| == BytesSize(b)
  {
    hide Sov;
    OneRecord(Record(field, VarintP(Unsigned64(w))));
    OneRecord(Record(field, FixedP(Unsigned64(v))));
    OneRecord(Record(field, BytesP(b)));
    RecordSize(Record(field, VarintP(Unsigned64(w))));
    RecordSize(Record(field, FixedP(Unsigned64(v))));
    RecordSize(Record(field, BytesP(b)));
  }

  lemma {:induction false} RepeatedFieldSize(field: nat, bs: seq<bytes>)
    requires 0 < field < 16
    ensures |Encode(RepeatedField(field, bs))| == RepeatedSize(bs)
  {
    if bs != [] {
      RecordSize(Record(field, BytesP(bs[0])));
      RepeatedFieldSize(field, bs[1..]);
      assert RepeatedField(field, bs)[1..] == RepeatedField(field, bs[1..]);
    }
  }

  lemma {:induction false} RepeatedSizeAppend(bs: seq<bytes>, b: bytes)
    ensures RepeatedSize(bs + [b]) == RepeatedSize(bs) + Delimited(|b|)
  {
    if bs != [] {
      assert (bs + [b])[1..] == bs[1..] + [b];
      RepeatedSizeAppend(bs[1..], b);
    } else {
      assert [b][1..] == [];
    }
  }

  /** A delimited payload that grows by a merged one grows by no more than that one's field. */
  lemma DelimitedMerge(had: nat, more: nat, merged: nat)
    requires merged <= had + more
    ensures Delimited(merged) <= Delimited(had) + Delimited(more)
  {
    SovIsVarintLength(had);
    SovIsVarintLength(more);
    SovIsVarintLength(merged);
    VarintLengthMonotone(merged, had + more);
    VarintLengthSum(had, more);
  }

  lemma DelimitedMonotone(a: nat, b: nat)
    requires a <= b
    ensures Delimited(a) <= Delimited(b)
  {
    SovIsVarintLength(a);
    SovIsVarintLength(b);
    VarintLengthMonotone(a, b);
  }

  lemma RepeatedConcat(field: nat, a: seq<bytes>, b: seq<bytes>)
    ensures RepeatedField(field, a + b) == RepeatedField(field, a) + RepeatedField(field, b)
  {
    var l, r := RepeatedField(field, a + b), RepeatedField(field, a) + RepeatedField(field, b);
    assert forall i :: 0 <= i < |l| ==> l[i] == r[i];
  }
}
