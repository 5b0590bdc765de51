/**
  The messages of proto/tendermint/crypto/proof.pb.go on values: what their decoders do to a
  receiver, what their marshallers write, and the theorems that tie the two together.
*/
module Proofs {
  import opened Wire
  import opened Decoding
  import opened Fields
  import opened Occurrences

  datatype ProofMsg = ProofMsg(total: int64, index: int64, leafHash: Buf, aunts: seq<Buf>)
  datatype ValueOpMsg = ValueOpMsg(key: Buf, proof: Option<ProofMsg>)
  datatype ProofOpMsg = ProofOpMsg(typ: bytes, key: Buf, data: Buf)
  datatype ProofOpsMsg = ProofOpsMsg(ops: seq<ProofOpMsg>)

  const EMPTY_PROOF := ProofMsg(0, 0, Nil, [])
  const EMPTY_VALUE_OP := ValueOpMsg(Nil, None)
  const EMPTY_PROOF_OP := ProofOpMsg([], Nil, Nil)
  const EMPTY_PROOF_OPS := ProofOpsMsg([])

  // ---------------------------------------------------------------------------------------
  // Decoders: the switch of each Unmarshal
  // ---------------------------------------------------------------------------------------

  function ProofWants(field: int): Option<nat> {
    if field == 1 || field == 2 then Some(0)
    else if field == 3 || field == 4 then Some(2)
    else None
  }

  function ProofApply(m: ProofMsg, field: int, p: Payload): Result<ProofMsg> {
    match p
    case VarintP(v) =>
      if field == 1 then Ok(m.(total := Signed64(v)))
      else Ok(m.(index := Signed64(v)))
    case BytesP(b) =>
      if field == 3 then Ok(m.(leafHash := Buf(b)))
      else Ok(m.(aunts := m.aunts + [Buf(b)]))
    case FixedP(_) => Ok(m)
  }

  function ProofCodec(): (c: Codec<ProofMsg>)
    ensures c.Valid()
  {
    Codec(ProofWants, ProofApply)
  }

  function ValueOpWants(field: int): Option<nat> {
    if field == 1 || field == 2 then Some(2) else None
  }

  /** `if m.Proof == nil { m.Proof = &Proof{} }` and the nested decoder. */
  function MergeNested(had: Option<ProofMsg>, b: bytes): Result<Option<ProofMsg>> {
    match Decode(ProofCodec(), if had.None? then EMPTY_PROOF else had.value, b)
    case Err(e) => Err(e)
    case Ok(proof) => Ok(Some(proof))
  }

  function ValueOpApply(m: ValueOpMsg, field: int, p: Payload): Result<ValueOpMsg> {
    match p
    case BytesP(b) =>
      if field == 1 then Ok(m.(key := Buf(b)))
      else
        (match MergeNested(m.proof, b) case Err(e) => Err(e) case Ok(proof) => Ok(m.(proof := proof)))
    case _ => Ok(m)
  }

  function ValueOpCodec(): (c: Codec<ValueOpMsg>)
    ensures c.Valid()
  {
    Codec(ValueOpWants, ValueOpApply)
  }

  function ProofOpWants(field: int): Option<nat> {
    if 1 <= field <= 3 then Some(2) else None
  }

  function ProofOpApply(m: ProofOpMsg, field: int, p: Payload): Result<ProofOpMsg> {
    match p
    case BytesP(b) =>
      if field == 1 then Ok(m.(typ := b))
      else if field == 2 then Ok(m.(key := Buf(b)))
      else Ok(m.(data := Buf(b)))
    case _ => Ok(m)
  }

  function ProofOpCodec(): (c: Codec<ProofOpMsg>)
    ensures c.Valid()
  {
    Codec(ProofOpWants, ProofOpApply)
  }

  function ProofOpsWants(field: int): Option<nat> {
    if field == 1 then Some(2) else None
  }

  function ProofOpsApply(m: ProofOpsMsg, field: int, p: Payload): Result<ProofOpsMsg> {
    match p
    case BytesP(b) =>
      (match Decode(ProofOpCodec(), EMPTY_PROOF_OP, b)
       case Err(e) => Err(e)
       case Ok(op) => Ok(m.(ops := m.ops + [op])))
    case _ => Ok(m)
  }

  function ProofOpsCodec(): (c: Codec<ProofOpsMsg>)
    ensures c.Valid()
  {
    Codec(ProofOpsWants, ProofOpsApply)
  }

  // ---------------------------------------------------------------------------------------
  // Marshallers: the fields each of them writes, in the order of the bytes
  // ---------------------------------------------------------------------------------------

  function ProofFields(m: ProofMsg): seq<Record> {
    VarintField(1, m.total) + VarintField(2, m.index) + BytesField(3, m.leafHash.Data())
    + RepeatedField(4, Contents(m.aunts))
  }

  function ProofBytes(m: ProofMsg): bytes { Encode(ProofFields(m)) }

  function ValueOpNested(m: ValueOpMsg): seq<Record> {
    if m.proof.None? then [] else [Record(2, BytesP(ProofBytes(m.proof.value)))]
  }

  function ValueOpFields(m: ValueOpMsg): seq<Record> {
    BytesField(1, m.key.Data()) + ValueOpNested(m)
  }

  function ValueOpBytes(m: ValueOpMsg): bytes { Encode(ValueOpFields(m)) }

  function ProofOpFields(m: ProofOpMsg): seq<Record> {
    BytesField(1, m.typ) + BytesField(2, m.key.Data()) + BytesField(3, m.data.Data())
  }

  function ProofOpBytes(m: ProofOpMsg): bytes { Encode(ProofOpFields(m)) }

  function OpsBytes(ops: seq<ProofOpMsg>): (r: seq<bytes>)
    ensures |r| == |ops| && forall i :: 0 <= i < |ops| ==> r[i] == ProofOpBytes(ops[i])
  {
    seq(|ops|, i requires 0 <= i < |ops| => ProofOpBytes(ops[i]))
  }

  function ProofOpsFields(m: ProofOpsMsg): seq<Record> {
    RepeatedField(1, OpsBytes(m.ops))
  }

  function ProofOpsBytes(m: ProofOpsMsg): bytes { Encode(ProofOpsFields(m)) }

  // ---------------------------------------------------------------------------------------
  // Round trips
  // ---------------------------------------------------------------------------------------

  // The wire does not tell an empty singular bytes field from a nil one, and gives every element
  // of a repeated field an array of its own.

  function Allocated(bs: seq<Buf>): (r: seq<Buf>)
    ensures |r| == |bs| && forall i :: 0 <= i < |bs| ==> r[i] == Buf(bs[i].Data())
  {
    seq(|bs|, i requires 0 <= i < |bs| => Buf(bs[i].Data()))
  }

  function NormalProof(m: ProofMsg): ProofMsg {
    m.(leafHash := m.leafHash.Normal(), aunts := Allocated(m.aunts))
  }

  function NormalValueOp(m: ValueOpMsg): ValueOpMsg {
    ValueOpMsg(m.key.Normal(), if m.proof.None? then None else Some(NormalProof(m.proof.value)))
  }

  function NormalProofOp(m: ProofOpMsg): ProofOpMsg {
    m.(key := m.key.Normal(), data := m.data.Normal())
  }

  function NormalOps(ops: seq<ProofOpMsg>): (r: seq<ProofOpMsg>)
    ensures |r| == |ops| && forall i :: 0 <= i < |ops| ==> r[i] == NormalProofOp(ops[i])
  {
    seq(|ops|, i requires 0 <= i < |ops| => NormalProofOp(ops[i]))
  }

  lemma {:induction false} FoldAunts(m0: ProofMsg, rs: seq<Record>, m: ProofMsg, aunts: seq<Buf>)
    requires Fold(ProofCodec(), m0, rs) == Ok(m)
    ensures Fold(ProofCodec(), m0, rs + RepeatedField(4, Contents(aunts)))
            == Ok(m.(aunts := m.aunts + Allocated(aunts)))
    decreases aunts
  {
    hide Fold, Decode, RepeatedField;
    if aunts == [] {
      RepeatedNone(4, rs);
      assert Contents(aunts) == [] && m.aunts + Allocated(aunts) == m.aunts;
    } else {
      var r := Record(4, BytesP(aunts[0].Data()));
      var m' := m.(aunts := m.aunts + [Buf(aunts[0].Data())]);
      FoldPush(ProofCodec(), m0, rs, m, [r], m');
      FoldAunts(m0, rs + [r], m', aunts[1..]);
      RepeatedSplit(4, rs, Contents(aunts));
      assert Contents(aunts)[1..] == Contents(aunts[1..]);
      assert m'.aunts + Allocated(aunts[1..]) == m.aunts + Allocated(aunts);
    }
  }

  function MergeBuf(had: Buf, got: Buf): Buf {
    if got.Data() == [] then had else got
  }

  /** What a receiver becomes when it decodes an encoded Proof: scalars that are set and a leaf hash
      that is not empty win, the aunts are appended. */
  function MergeProof(m: ProofMsg, x: ProofMsg): ProofMsg {
    ProofMsg(if x.total == 0 then m.total else x.total, if x.index == 0 then m.index else x.index,
             MergeBuf(m.leafHash, x.leafHash), m.aunts + Allocated(x.aunts))
  }

  lemma ProofMergesInto(m: ProofMsg, x: ProofMsg)
    requires |ProofBytes(x)| <= MAX_LEN
    ensures Decode(ProofCodec(), m, ProofBytes(x)) == Ok(MergeProof(m, x))
  {
    hide Fold, Decode, Encode, RepeatedField, Allocated;
    var codec := ProofCodec();
    var a, b, c := VarintField(1, x.total), VarintField(2, x.index), BytesField(3, x.leafHash.Data());
    var m1 := m.(total := if x.total == 0 then m.total else x.total);
    var m2 := m1.(index := if x.index == 0 then m.index else x.index);
    var m3 := m2.(leafHash := MergeBuf(m.leafHash, x.leafHash));
    SignedRoundTrip(x.total);
    SignedRoundTrip(x.index);
    DecodeFields(codec, m, ProofFields(x));
    FoldFirst(codec, m, a, m1);
    FoldPush(codec, m, a, m1, b, m2);
    FoldPush(codec, m, a + b, m2, c, m3);
    FoldAunts(m, a + b + c, m3, x.aunts);
  }

  lemma MergeIntoEmpty(m: ProofMsg)
    ensures MergeProof(EMPTY_PROOF, m) == NormalProof(m)
  {
    assert [] + Allocated(m.aunts) == Allocated(m.aunts);
  }

  /** Every Proof whose encoding is a Go slice decodes to itself. */
  lemma ProofRoundTrip(m: ProofMsg)
    requires |ProofBytes(m)| <= MAX_LEN
    ensures Decode(ProofCodec(), EMPTY_PROOF, ProofBytes(m)) == Ok(NormalProof(m))
  {
    hide Decode, Encode;
    ProofMergesInto(EMPTY_PROOF, m);
    MergeIntoEmpty(m);
  }

  /** An encoded ValueOp is merged too, and its Proof into the Proof of the receiver. */
  function MergeValueOp(m: ValueOpMsg, x: ValueOpMsg): ValueOpMsg {
    ValueOpMsg(MergeBuf(m.key, x.key),
               if x.proof.None? then m.proof
               else Some(MergeProof(if m.proof.None? then EMPTY_PROOF else m.proof.value, x.proof.value)))
  }

  lemma ValueOpMergesInto(m: ValueOpMsg, x: ValueOpMsg)
    requires |ValueOpBytes(x)| <= MAX_LEN
    ensures Decode(ValueOpCodec(), m, ValueOpBytes(x)) == Ok(MergeValueOp(m, x))
  {
    hide Fold, Decode, Encode, MergeProof;
    var codec := ValueOpCodec();
    var rs := ValueOpFields(x);
    var a := BytesField(1, x.key.Data());
    var keyed := m.(key := MergeBuf(m.key, x.key));
    DecodeFields(codec, m, rs);
    FoldFirst(codec, m, a, keyed);
    if x.proof.Some? {
      var nested := Record(2, BytesP(ProofBytes(x.proof.value)));
      RecordNotLonger(rs, nested);
      assert |ProofBytes(x.proof.value)| <= |nested.Bytes()|;
      ProofMergesInto(if m.proof.None? then EMPTY_PROOF else m.proof.value, x.proof.value);
      FoldPush(codec, m, a, keyed, [nested], MergeValueOp(m, x));
    } else {
      assert rs == a;
    }
  }

  /** So every ValueOp decodes to itself, with its nested Proof. */
  lemma ValueOpRoundTrip(m: ValueOpMsg)
    requires |ValueOpBytes(m)| <= MAX_LEN
    ensures Decode(ValueOpCodec(), EMPTY_VALUE_OP, ValueOpBytes(m)) == Ok(NormalValueOp(m))
  {
    hide Decode, Encode, MergeProof, NormalProof;
    ValueOpMergesInto(EMPTY_VALUE_OP, m);
    if m.proof.Some? {
      MergeIntoEmpty(m.proof.value);
    }
  }

  function MergeProofOp(m: ProofOpMsg, x: ProofOpMsg): ProofOpMsg {
    ProofOpMsg(if x.typ == [] then m.typ else x.typ, MergeBuf(m.key, x.key), MergeBuf(m.data, x.data))
  }

  lemma ProofOpMergesInto(m: ProofOpMsg, x: ProofOpMsg)
    requires |ProofOpBytes(x)| <= MAX_LEN
    ensures Decode(ProofOpCodec(), m, ProofOpBytes(x)) == Ok(MergeProofOp(m, x))
  {
    hide Fold, Decode, Encode;
    var codec := ProofOpCodec();
    var a, b, c := BytesField(1, x.typ), BytesField(2, x.key.Data()), BytesField(3, x.data.Data());
    var m1 := m.(typ := if x.typ == [] then m.typ else x.typ);
    var m2 := m1.(key := MergeBuf(m.key, x.key));
    DecodeFields(codec, m, ProofOpFields(x));
    FoldFirst(codec, m, a, m1);
    FoldPush(codec, m, a, m1, b, m2);
    FoldPush(codec, m, a + b, m2, c, MergeProofOp(m, x));
  }

  lemma ProofOpRoundTrip(m: ProofOpMsg)
    requires |ProofOpBytes(m)| <= MAX_LEN
    ensures Decode(ProofOpCodec(), EMPTY_PROOF_OP, ProofOpBytes(m)) == Ok(NormalProofOp(m))
  {
    hide Decode, Encode;
    ProofOpMergesInto(EMPTY_PROOF_OP, m);
  }

  lemma {:induction false} FoldOps(m0: ProofOpsMsg, rs: seq<Record>, m: ProofOpsMsg, ops: seq<ProofOpMsg>)
    requires forall op <- ops :: |ProofOpBytes(op)| <= MAX_LEN
    requires Fold(ProofOpsCodec(), m0, rs) == Ok(m)
    ensures Fold(ProofOpsCodec(), m0, rs + RepeatedField(1, OpsBytes(ops)))
            == Ok(ProofOpsMsg(m.ops + NormalOps(ops)))
    decreases ops
  {
    hide Fold, Decode, Encode, ProofOpFields, NormalProofOp, RepeatedField;
    if ops == [] {
      RepeatedNone(1, rs);
      assert OpsBytes(ops) == [] && m.ops + NormalOps(ops) == m.ops;
    } else {
      var r := Record(1, BytesP(ProofOpBytes(ops[0])));
      var m' := ProofOpsMsg(m.ops + [NormalProofOp(ops[0])]);
      ProofOpRoundTrip(ops[0]);
      FoldPush(ProofOpsCodec(), m0, rs, m, [r], m');
      FoldOps(m0, rs + [r], m', ops[1..]);
      RepeatedSplit(1, rs, OpsBytes(ops));
      assert OpsBytes(ops)[1..] == OpsBytes(ops[1..]);
      assert m'.ops + NormalOps(ops[1..]) == m.ops + NormalOps(ops);
    }
  }

  /** Decoding encoded ops appends them to those of the receiver, in order. */
  lemma ProofOpsMergesInto(m: ProofOpsMsg, x: ProofOpsMsg)
    requires |ProofOpsBytes(x)| <= MAX_LEN
    ensures Decode(ProofOpsCodec(), m, ProofOpsBytes(x)) == Ok(ProofOpsMsg(m.ops + NormalOps(x.ops)))
  {
    hide Fold, Decode, Encode, ProofOpFields;
    var rs := ProofOpsFields(x);
    DecodeFields(ProofOpsCodec(), m, rs);
    forall op <- x.ops
      ensures |ProofOpBytes(op)| <= MAX_LEN
    {
      var i :| 0 <= i < |x.ops| && x.ops[i] == op;
      assert rs[i] == Record(1, BytesP(ProofOpBytes(op)));
      RecordNotLonger(rs, rs[i]);
    }
    FoldNone(ProofOpsCodec(), m);
    FoldOps(m, [], m, x.ops);
    assert [] + rs == rs;
  }

  /** Any number of ops comes back in order. */
  lemma ProofOpsRoundTrip(m: ProofOpsMsg)
    requires |ProofOpsBytes(m)| <= MAX_LEN
    ensures Decode(ProofOpsCodec(), EMPTY_PROOF_OPS, ProofOpsBytes(m)) == Ok(ProofOpsMsg(NormalOps(m.ops)))
  {
    hide Decode, Encode;
    ProofOpsMergesInto(EMPTY_PROOF_OPS, m);
    assert [] + NormalOps(m.ops) == NormalOps(m.ops);
  }

  // ---------------------------------------------------------------------------------------
  // What decoding depends on
  // ---------------------------------------------------------------------------------------

  /** Whether an input is accepted does not depend on the receiver, merged sub-messages included. */
  lemma ProofIsBlind()
    ensures Blind(ProofCodec())
  {
  }

  lemma ValueOpIsBlind()
    ensures Blind(ValueOpCodec())
  {
    hide Decode, Blind;
    var c := ValueOpCodec();
    ProofIsBlind();
    forall m: ValueOpMsg, x: ValueOpMsg, f: int, p: Payload
      ensures Fate(c.apply(m, f, p)) == Fate(c.apply(x, f, p))
    {
      if p.BytesP? && f != 1 {
        var had := if m.proof.None? then EMPTY_PROOF else m.proof.value;
        var has := if x.proof.None? then EMPTY_PROOF else x.proof.value;
        ReceiverDoesNotMatter(ProofCodec(), had, has, p.b);
      }
    }
    BlindIf(c);
  }

  lemma ProofOpsIsBlind()
    ensures Blind(ProofOpCodec()) && Blind(ProofOpsCodec())
  {
    hide Decode;
  }

  lemma ValueOpMerges()
    ensures Merges(ValueOpCodec(), 2)
  {
    hide Decode, Blind;
    var c := ValueOpCodec();
    ValueOpIsBlind();
    forall m: ValueOpMsg, a: bytes, b: bytes | c.apply(m, 2, BytesP(a)).Ok?
      ensures c.apply(c.apply(m, 2, BytesP(a)).value, 2, BytesP(b)) == c.apply(m, 2, BytesP(a + b))
    {
      DecodeConcat(ProofCodec(), if m.proof.None? then EMPTY_PROOF else m.proof.value, a, b);
    }
  }

  /** Two occurrences of `ValueOp.proof`, with other fields before, between and behind them, decode as
      one occurrence of the concatenated payloads in the place of the first: the second is merged into
      the sub-message of the first, its scalars winning, its aunts appended. */
  lemma ProofOccurrencesMerge(m: ValueOpMsg, u: bytes, a: bytes, mid: bytes, v: bytes, b: bytes, w: bytes, post: bytes)
    requires Occurs(ValueOpWants, u, 2, a) && Occurs(ValueOpWants, v, 2, b) && Occurs(ValueOpWants, w, 2, a + b)
    requires Avoids(ValueOpWants, mid, 2)
    requires Decode(ProofCodec(), if m.proof.None? then EMPTY_PROOF else m.proof.value, a).Ok?
    ensures Decode(ValueOpCodec(), m, u + (mid + (v + post))) == Decode(ValueOpCodec(), m, w + (mid + post))
  {
    hide Decode, Next, Occurs, Avoids, Merges;
    ValueOpMerges();
    OccurrencesMerge(ValueOpCodec(), 2, m, u, a, mid, v, b, w, post);
  }

  // ---------------------------------------------------------------------------------------
  // Sizes and growth
  // ---------------------------------------------------------------------------------------

  function ProofSize(m: ProofMsg): nat {
    VarintSize(m.total) + VarintSize(m.index) + BytesSize(m.leafHash.Data()) + RepeatedSize(Contents(m.aunts))
  }

  lemma ProofBytesParts(m: ProofMsg)
    ensures ProofBytes(m) ==
            Encode(VarintField(1, m.total)) + (Encode(VarintField(2, m.index)) +
            (Encode(BytesField(3, m.leafHash.Data())) + Encode(RepeatedField(4, Contents(m.aunts)))))
  {
    hide Encode, RepeatedField, VarintField, BytesField;
    EncodeFour(VarintField(1, m.total), VarintField(2, m.index),
               BytesField(3, m.leafHash.Data()), RepeatedField(4, Contents(m.aunts)));
  }

  lemma ProofSizeIsLength(m: ProofMsg)
    ensures ProofSize(m) == |ProofBytes(m)|
  {
    hide Encode, RepeatedSize, RepeatedField, VarintField, BytesField;
    ProofBytesParts(m);
    ScalarSizes(1, 0, m.total, []);
    ScalarSizes(2, 0, m.index, []);
    ScalarSizes(3, 0, 0, m.leafHash.Data());
    RepeatedFieldSize(4, Contents(m.aunts));
  }

  function ValueOpSize(m: ValueOpMsg): nat {
    BytesSize(m.key.Data()) + if m.proof.None? then 0 else Delimited(ProofSize(m.proof.value))
  }

  lemma ValueOpBytesParts(m: ValueOpMsg)
    ensures ValueOpBytes(m) == Encode(BytesField(1, m.key.Data())) + Encode(ValueOpNested(m))
    ensures m.proof.None? ==> Encode(ValueOpNested(m)) == []
    ensures m.proof.Some? ==>
      Encode(ValueOpNested(m)) == Record(2, BytesP(ProofBytes(m.proof.value))).Bytes()
      && |ProofBytes(m.proof.value)| <= |Encode(ValueOpNested(m))|
  {
    EncodeConcat(BytesField(1, m.key.Data()), ValueOpNested(m));
    if m.proof.Some? {
      OneRecord(Record(2, BytesP(ProofBytes(m.proof.value))));
    }
  }

  lemma ValueOpSizeIsLength(m: ValueOpMsg)
    ensures ValueOpSize(m) == |ValueOpBytes(m)|
  {
    hide Encode, ProofSize, Sov, BytesField;
    ScalarSizes(1, 0, 0, m.key.Data());
    if m.proof.Some? {
      var nested := Record(2, BytesP(ProofBytes(m.proof.value)));
      ProofSizeIsLength(m.proof.value);
      OneRecord(nested);
      RecordSize(nested);
      EncodeConcat(BytesField(1, m.key.Data()), [nested]);
    } else {
      assert ValueOpFields(m) == BytesField(1, m.key.Data());
    }
  }

  function ProofOpSize(m: ProofOpMsg): nat {
    BytesSize(m.typ) + BytesSize(m.key.Data()) + BytesSize(m.data.Data())
  }

  lemma ProofOpSizeIsLength(m: ProofOpMsg)
    ensures ProofOpSize(m) == |ProofOpBytes(m)|
  {
    hide Encode, BytesField;
    var a, b, c := BytesField(1, m.typ), BytesField(2, m.key.Data()), BytesField(3, m.data.Data());
    ScalarSizes(1, 0, 0, m.typ);
    ScalarSizes(2, 0, 0, m.key.Data());
    ScalarSizes(3, 0, 0, m.data.Data());
    EncodeConcat(a, b);
    EncodeConcat(a + b, c);
  }

  function ProofOpsSize(m: ProofOpsMsg): nat {
    RepeatedSize(OpsBytes(m.ops))
  }

  lemma ProofGrowsByField(m: ProofMsg, field: nat, p: Payload)
    requires field > 0 && ProofWants(field) == Some(p.WireType())
    ensures ProofSize(ProofApply(m, field, p).value) <= ProofSize(m) + |Record(field, p).Bytes()|
  {
    hide RepeatedSize, Sov, Signed64, Unsigned64;
    RecordSize(Record(field, p));
    if p.VarintP? {
      UnsignedRoundTrip(p.v);
    } else if field == 4 {
      assert Contents(m.aunts + [Buf(p.b)]) == Contents(m.aunts) + [p.b];
      RepeatedSizeAppend(Contents(m.aunts), p.b);
    }
  }

  lemma ProofDecodeSize(m: ProofMsg, b: bytes)
    requires Decode(ProofCodec(), m, b).Ok?
    ensures ProofSize(Decode(ProofCodec(), m, b).value) <= ProofSize(m) + |b|
  {
    hide Decode, ProofSize;
    forall m: ProofMsg, f: nat, p: Payload |
      ProofCodec().apply(m, f, p).Ok? && ProofCodec().wants(f) == Some(p.WireType()) && f > 0
      ensures ProofSize(ProofCodec().apply(m, f, p).value) <= ProofSize(m) + |Record(f, p).Bytes()|
    {
      ProofGrowsByField(m, f, p);
    }
    DecodeDoesNotGrow(ProofCodec(), ProofSize, m, b);
  }

  /** Whatever spelling of a Proof is decoded, encoding the result takes no more bytes, and decodes
      to the same message. */
  lemma ProofReencodes(b: bytes)
    requires |b| <= MAX_LEN && Decode(ProofCodec(), EMPTY_PROOF, b).Ok?
    ensures var m := Decode(ProofCodec(), EMPTY_PROOF, b).value;
            |ProofBytes(m)| <= |b| && Decode(ProofCodec(), EMPTY_PROOF, ProofBytes(m)) == Ok(NormalProof(m))
  {
    hide Decode, Encode, ProofSize, NormalProof;
    var m := Decode(ProofCodec(), EMPTY_PROOF, b).value;
    ProofDecodeSize(EMPTY_PROOF, b);
    EmptyProofSize();
    ProofSizeIsLength(m);
    ProofRoundTrip(m);
  }

  lemma ValueOpGrowsByField(m: ValueOpMsg, field: nat, p: Payload)
    requires field > 0 && ValueOpWants(field) == Some(p.WireType()) && ValueOpApply(m, field, p).Ok?
    ensures ValueOpSize(ValueOpApply(m, field, p).value) <= ValueOpSize(m) + |Record(field, p).Bytes()|
  {
    hide Decode, ProofSize, Sov, Delimited;
    RecordSize(Record(field, p));
    if field == 2 {
      var had := if m.proof.None? then EMPTY_PROOF else m.proof.value;
      var merged := Decode(ProofCodec(), had, p.b).value;
      ProofDecodeSize(had, p.b);
      if m.proof.None? {
        EmptyProofSize();
        DelimitedMonotone(ProofSize(merged), |p.b|);
      } else {
        DelimitedMerge(ProofSize(had), |p.b|, ProofSize(merged));
      }
    }
  }

  lemma EmptyProofSize()
    ensures ProofSize(EMPTY_PROOF) == 0
  {
  }

  /** The same for a ValueOp, merged sub-messages included. */
  lemma ValueOpReencodes(b: bytes)
    requires |b| <= MAX_LEN && Decode(ValueOpCodec(), EMPTY_VALUE_OP, b).Ok?
    ensures var m := Decode(ValueOpCodec(), EMPTY_VALUE_OP, b).value;
            |ValueOpBytes(m)| <= |b| && Decode(ValueOpCodec(), EMPTY_VALUE_OP, ValueOpBytes(m)) == Ok(NormalValueOp(m))
  {
    hide Decode;
    forall m: ValueOpMsg, f: nat, p: Payload |
      ValueOpCodec().apply(m, f, p).Ok? && ValueOpCodec().wants(f) == Some(p.WireType()) && f > 0
      ensures ValueOpSize(ValueOpCodec().apply(m, f, p).value) <= ValueOpSize(m) + |Record(f, p).Bytes()|
    {
      ValueOpGrowsByField(m, f, p);
    }
    var m := Decode(ValueOpCodec(), EMPTY_VALUE_OP, b).value;
    DecodeDoesNotGrow(ValueOpCodec(), ValueOpSize, EMPTY_VALUE_OP, b);
    assert ValueOpSize(EMPTY_VALUE_OP) == 0;
    ValueOpSizeIsLength(m);
    ValueOpRoundTrip(m);
  }

  lemma ProofOpGrowsByField(m: ProofOpMsg, field: nat, p: Payload)
    requires field > 0 && ProofOpWants(field) == Some(p.WireType())
    ensures ProofOpSize(ProofOpApply(m, field, p).value) <= ProofOpSize(m) + |Record(field, p).Bytes()|
  {
    hide Sov;
    RecordSize(Record(field, p));
  }

  lemma ProofOpDecodeSize(b: bytes)
    requires Decode(ProofOpCodec(), EMPTY_PROOF_OP, b).Ok?
    ensures |ProofOpBytes(Decode(ProofOpCodec(), EMPTY_PROOF_OP, b).value)| <= |b|
  {
    hide Decode, Encode;
    forall m: ProofOpMsg, f: nat, p: Payload |
      ProofOpCodec().apply(m, f, p).Ok? && ProofOpCodec().wants(f) == Some(p.WireType()) && f > 0
      ensures ProofOpSize(ProofOpCodec().apply(m, f, p).value) <= ProofOpSize(m) + |Record(f, p).Bytes()|
    {
      ProofOpGrowsByField(m, f, p);
    }
    DecodeDoesNotGrow(ProofOpCodec(), ProofOpSize, EMPTY_PROOF_OP, b);
    assert ProofOpSize(EMPTY_PROOF_OP) == 0;
    ProofOpSizeIsLength(Decode(ProofOpCodec(), EMPTY_PROOF_OP, b).value);
  }

  lemma ProofOpsGrowsByField(m: ProofOpsMsg, field: nat, p: Payload)
    requires field > 0 && ProofOpsWants(field) == Some(p.WireType()) && ProofOpsApply(m, field, p).Ok?
    ensures ProofOpsSize(ProofOpsApply(m, field, p).value) <= ProofOpsSize(m) + |Record(field, p).Bytes()|
  {
    hide Decode, Encode, Sov, Delimited, RepeatedSize;
    RecordSize(Record(field, p));
    var op := Decode(ProofOpCodec(), EMPTY_PROOF_OP, p.b).value;
    ProofOpDecodeSize(p.b);
    DelimitedMonotone(|ProofOpBytes(op)|, |p.b|);
    assert OpsBytes(m.ops + [op]) == OpsBytes(m.ops) + [ProofOpBytes(op)];
    RepeatedSizeAppend(OpsBytes(m.ops), ProofOpBytes(op));
  }

  /** And for a list of ops. */
  lemma ProofOpsReencodes(b: bytes)
    requires |b| <= MAX_LEN && Decode(ProofOpsCodec(), EMPTY_PROOF_OPS, b).Ok?
    ensures var m := Decode(ProofOpsCodec(), EMPTY_PROOF_OPS, b).value;
            |ProofOpsBytes(m)| <= |b|
            && Decode(ProofOpsCodec(), EMPTY_PROOF_OPS, ProofOpsBytes(m)) == Ok(ProofOpsMsg(NormalOps(m.ops)))
  {
    hide Decode;
    forall m: ProofOpsMsg, f: nat, p: Payload |
      ProofOpsCodec().apply(m, f, p).Ok? && ProofOpsCodec().wants(f) == Some(p.WireType()) && f > 0
      ensures ProofOpsSize(ProofOpsCodec().apply(m, f, p).value) <= ProofOpsSize(m) + |Record(f, p).Bytes()|
    {
      ProofOpsGrowsByField(m, f, p);
    }
    var m := Decode(ProofOpsCodec(), EMPTY_PROOF_OPS, b).value;
    DecodeDoesNotGrow(ProofOpsCodec(), ProofOpsSize, EMPTY_PROOF_OPS, b);
    assert ProofOpsSize(EMPTY_PROOF_OPS) == 0;
    RepeatedFieldSize(1, OpsBytes(m.ops));
    ProofOpsRoundTrip(m);
  }

  // ---------------------------------------------------------------------------------------
  // What a decoded message owes to its input
  // ---------------------------------------------------------------------------------------

  function ProofAt(m: ProofMsg, rs: seq<Record>): ProofMsg {
    ProofMsg(Int64At(rs, 1, m.total), Int64At(rs, 2, m.index), BytesAt(rs, 3, m.leafHash),
             m.aunts + Buffers(All(rs, 4)))
  }

  lemma {:induction false} ProofFolds(m: ProofMsg, rs: seq<Record>)
    requires Typed(ProofWants, rs)
    ensures Fold(ProofCodec(), m, rs) == Ok(ProofAt(m, rs))
    decreases |rs|
  {
    if rs != [] {
      hide Fold;
      var init, r := rs[..|rs| - 1], rs[|rs| - 1];
      assert rs == init + [r];
      ProofFolds(m, init);
      FoldOneMore(ProofCodec(), m, init, r);
      if r.field == 4 {
        assert m.aunts + Buffers(All(init, 4)) + [Buf(r.payload.b)] == m.aunts + Buffers(All(rs, 4));
      } else {
        assert All(rs, 4) == All(init, 4);
      }
    } else {
      assert m.aunts + Buffers(All(rs, 4)) == m.aunts;
    }
  }

  /** Whatever the input and the receiver: total, index and leaf hash are those of the last field of that
      number, explicit zeros and empty bytes included, or else stay; the aunts are appended in order. */
  lemma ProofReads(m: ProofMsg, b: bytes)
    ensures Parse(ProofWants, b).Err? ==>
              Decode(ProofCodec(), m, b) == Err(Parse(ProofWants, b).error)
    ensures Parse(ProofWants, b).Ok? ==>
              var rs := Parse(ProofWants, b).value;
              Decode(ProofCodec(), m, b) == Ok(ProofAt(m, rs))
  {
    hide Decode, Parse, Fold;
    DecodeNeverRefuses(ProofCodec(), m, b);
    if Parse(ProofWants, b).Ok? {
      ProofFolds(m, Parse(ProofWants, b).value);
    }
  }

  function ProofOpAt(m: ProofOpMsg, rs: seq<Record>): ProofOpMsg {
    ProofOpMsg(StringAt(rs, 1, m.typ), BytesAt(rs, 2, m.key), BytesAt(rs, 3, m.data))
  }

  lemma {:induction false} ProofOpFolds(m: ProofOpMsg, rs: seq<Record>)
    requires Typed(ProofOpWants, rs)
    ensures Fold(ProofOpCodec(), m, rs) == Ok(ProofOpAt(m, rs))
    decreases |rs|
  {
    if rs != [] {
      hide Fold;
      var init, r := rs[..|rs| - 1], rs[|rs| - 1];
      assert rs == init + [r];
      ProofOpFolds(m, init);
      FoldOneMore(ProofOpCodec(), m, init, r);
    }
  }

  /** The same for a ProofOp. */
  lemma ProofOpReads(m: ProofOpMsg, b: bytes)
    ensures Parse(ProofOpWants, b).Err? ==>
              Decode(ProofOpCodec(), m, b) == Err(Parse(ProofOpWants, b).error)
    ensures Parse(ProofOpWants, b).Ok? ==>
              var rs := Parse(ProofOpWants, b).value;
              Decode(ProofOpCodec(), m, b) == Ok(ProofOpAt(m, rs))
  {
    hide Decode, Parse, Fold;
    DecodeNeverRefuses(ProofOpCodec(), m, b);
    if Parse(ProofOpWants, b).Ok? {
      ProofOpFolds(m, Parse(ProofOpWants, b).value);
    }
  }

  function ValueOpAt(m: ValueOpMsg, rs: seq<Record>): ValueOpMsg {
    ValueOpMsg(BytesAt(rs, 1, m.key), MergedAt(ProofCodec(), EMPTY_PROOF, m.proof, All(rs, 2)))
  }

  lemma {:induction false} ValueOpFolds(m: ValueOpMsg, rs: seq<Record>)
    requires Typed(ValueOpWants, rs)
    ensures Fold(ValueOpCodec(), m, rs).Ok? <==> Accepts(ProofCodec(), EMPTY_PROOF, All(rs, 2))
    ensures Fold(ValueOpCodec(), m, rs).Ok? ==> Fold(ValueOpCodec(), m, rs) == Ok(ValueOpAt(m, rs))
    decreases |rs|
  {
    if rs != [] {
      hide Fold, Decode, MergedAt, Accepts, Blind;
      var init, r := rs[..|rs| - 1], rs[|rs| - 1];
      assert rs == init + [r];
      ValueOpFolds(m, init);
      FoldOneMore(ValueOpCodec(), m, init, r);
      if r.field == 2 {
        AcceptsMore(ProofCodec(), EMPTY_PROOF, All(init, 2), r.payload.b);
        if Fold(ValueOpCodec(), m, init).Ok? {
          ProofIsBlind();
          MergedMore(ProofCodec(), EMPTY_PROOF, m.proof, All(init, 2), r.payload.b);
        }
      } else {
        assert All(rs, 2) == All(init, 2);
      }
    }
  }

  /** A ValueOp is accepted exactly when its fields can be listed and every `Proof` payload is accepted by
      itself; the key is the last one, and the payloads are merged into the sub-message as if they had
      come as one. */
  lemma ValueOpReads(m: ValueOpMsg, b: bytes)
    ensures Decode(ValueOpCodec(), m, b).Ok? <==>
            Parse(ValueOpWants, b).Ok? && Accepts(ProofCodec(), EMPTY_PROOF, All(Parse(ValueOpWants, b).value, 2))
    ensures Decode(ValueOpCodec(), m, b).Ok? ==>
              var rs := Parse(ValueOpWants, b).value;
              Decode(ValueOpCodec(), m, b) == Ok(ValueOpAt(m, rs))
  {
    hide Decode, Parse, Fold, MergedAt, Accepts;
    DecodeIsFold(ValueOpCodec(), m, b);
    if Parse(ValueOpWants, b).Ok? {
      ValueOpFolds(m, Parse(ValueOpWants, b).value);
    }
  }

  /** The ops that the payloads decode to, each by itself. */
  ghost predicate AreOps(ops: seq<ProofOpMsg>, bs: seq<bytes>) {
    |ops| == |bs| && forall i :: 0 <= i < |bs| ==> Decode(ProofOpCodec(), EMPTY_PROOF_OP, bs[i]) == Ok(ops[i])
  }

  lemma {:induction false} ProofOpsFolds(m: ProofOpsMsg, rs: seq<Record>)
    requires Typed(ProofOpsWants, rs)
    ensures Fold(ProofOpsCodec(), m, rs).Ok? <==> Accepts(ProofOpCodec(), EMPTY_PROOF_OP, All(rs, 1))
    ensures Fold(ProofOpsCodec(), m, rs).Ok? ==>
              var ops := Fold(ProofOpsCodec(), m, rs).value.ops;
              m.ops <= ops && AreOps(ops[|m.ops|..], All(rs, 1))
    decreases |rs|
  {
    if rs != [] {
      hide Fold, Decode, Accepts;
      var init, r := rs[..|rs| - 1], rs[|rs| - 1];
      assert rs == init + [r];
      ProofOpsFolds(m, init);
      FoldOneMore(ProofOpsCodec(), m, init, r);
      AcceptsMore(ProofOpCodec(), EMPTY_PROOF_OP, All(init, 1), r.payload.b);
      if Fold(ProofOpsCodec(), m, rs).Ok? {
        var before, after := Fold(ProofOpsCodec(), m, init).value.ops, Fold(ProofOpsCodec(), m, rs).value.ops;
        assert after[|m.ops|..] == before[|m.ops|..] + [after[|before|]];
      }
    }
  }

  /** A list of ops is accepted exactly when its fields can be listed and each op is accepted; the ops are
      appended in order, every one decoded afresh. */
  lemma ProofOpsReads(m: ProofOpsMsg, b: bytes)
    ensures Decode(ProofOpsCodec(), m, b).Ok? <==>
            Parse(ProofOpsWants, b).Ok? && Accepts(ProofOpCodec(), EMPTY_PROOF_OP, All(Parse(ProofOpsWants, b).value, 1))
    ensures Decode(ProofOpsCodec(), m, b).Ok? ==>
              var ops := Decode(ProofOpsCodec(), m, b).value.ops;
              m.ops <= ops && AreOps(ops[|m.ops|..], All(Parse(ProofOpsWants, b).value, 1))
  {
    hide Decode, Parse, Fold, AreOps, Accepts;
    DecodeIsFold(ProofOpsCodec(), m, b);
    if Parse(ProofOpsWants, b).Ok? {
      ProofOpsFolds(m, Parse(ProofOpsWants, b).value);
    }
  }
}
