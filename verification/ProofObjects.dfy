/**
  The Go structs of proto/tendermint/crypto/proof.pb.go with their generated methods.  Each method
  is tied to the meaning of the message in `Proofs`.
*/
module ProofObjects {
  import opened Wire
  import opened Fields
  import opened WireCode
  import opened Proofs

  class Proof {
    var total: int64
    var index: int64
    var leafHash: Buf
    var aunts: seq<Buf>

    function Value(): ProofMsg
      reads this
    {
      ProofMsg(total, index, leafHash, aunts)
    }

    constructor ()
      ensures Value() == EMPTY_PROOF
    {
      total, index, leafHash, aunts := 0, 0, Nil, [];
    }

    method Unmarshal(dAtA: bytes) returns (r: Result<()>)
      requires |dAtA| <= MAX_LEN
      modifies this
      ensures Agrees(Decode(ProofCodec(), old(Value()), dAtA), r, Value())
    {
      hide Decode, ReadTag, ReadPayload, Skip;
      var l, iNdEx := |dAtA|, 0;
      DecodeEnd(ProofCodec(), Value(), dAtA);
      while iNdEx < l
        invariant 0 <= iNdEx <= l
        invariant Decode(ProofCodec(), Value(), dAtA[iNdEx..]) == Decode(ProofCodec(), old(Value()), dAtA)
      {
        DecodeRound(ProofCodec(), Value(), dAtA, iNdEx);
        var tag :- DecodeTag(dAtA, iNdEx);
        assert dAtA[iNdEx..][tag.v.n..] == dAtA[tag.next..];
        match tag.v.field {
          case 1 =>
            var x :- VarintCase(dAtA, tag);
            total, iNdEx := Signed64(x.v), x.next;
          case 2 =>
            var x :- VarintCase(dAtA, tag);
            index, iNdEx := Signed64(x.v), x.next;
          case 3 =>
            var x :- BytesCase(dAtA, tag);
            leafHash, iNdEx := Buf(x.v), x.next;
          case 4 =>
            var x :- BytesCase(dAtA, tag);
            aunts, iNdEx := aunts + [Buf(x.v)], x.next;
          case _ =>
            iNdEx :- SkipCase(dAtA, iNdEx);
        }
      }
      DecodeEnd(ProofCodec(), Value(), dAtA);
      return Ok(());
    }

    method Size() returns (n: nat)
      ensures n == |ProofBytes(Value())|
    {
      hide Sov, Encode;
      n := 0;
      if total != 0 { n := n + 1 + Sov(Unsigned64(total)); }
      if index != 0 { n := n + 1 + Sov(Unsigned64(index)); }
      var l := |leafHash.Data()|;
      if l > 0 { n := n + 1 + l + Sov(l); }
      ghost var scalars := n;
      for k := 0 to |aunts|
        invariant n == scalars + RepeatedSize(Contents(aunts[..k]))
      {
        l := |aunts[k].Data()|;
        n := n + 1 + l + Sov(l);
        assert Contents(aunts[..k + 1]) == Contents(aunts[..k]) + [aunts[k].Data()];
        RepeatedSizeAppend(Contents(aunts[..k]), aunts[k].Data());
      }
      assert aunts[..|aunts|] == aunts;
      ProofSizeIsLength(Value());
    }

    /** Fills the end of `dAtA[lo:hi]` and returns how many bytes it wrote. */
    method MarshalToSizedBuffer(dAtA: array<byte>, lo: nat, hi: nat) returns (n: nat)
      requires |ProofBytes(Value())| <= MAX_LEN
      requires lo + |ProofBytes(Value())| <= hi <= dAtA.Length
      modifies dAtA
      ensures n == |ProofBytes(Value())|
      ensures dAtA[..] == Put(old(dAtA[..]), hi, ProofBytes(Value()))
    {
      hide Encode, Put;
      ghost var was := dAtA[..];
      ghost var a, b := Encode(VarintField(1, total)), Encode(VarintField(2, index));
      ghost var c, d := Encode(BytesField(3, leafHash.Data())), Encode(RepeatedField(4, Contents(aunts)));
      ProofBytesParts(Value());
      var i := WriteRepeated(dAtA, hi, 4, Contents(aunts));
      i := WriteBytes(dAtA, i, 3, leafHash.Data());
      PutPut(was, hi, d, c);
      i := WriteVarint(dAtA, i, 2, index);
      PutPut(was, hi, c + d, b);
      i := WriteVarint(dAtA, i, 1, total);
      PutPut(was, hi, b + (c + d), a);
      return hi - i;
    }

    method Marshal() returns (dAtA: array<byte>)
      requires |ProofBytes(Value())| <= MAX_LEN
      ensures fresh(dAtA) && dAtA[..] == ProofBytes(Value())
    {
      hide Encode, Put;
      ghost var m := Value();
      var size := Size();
      dAtA := new byte[size](_ => 0);
      assert Value() == m;
      var n := MarshalToSizedBuffer(dAtA, 0, size);
      PutAll(size, ProofBytes(m));
    }
  }

  class ValueOp {
    var key: Buf
    var proof: Proof?

    function Value(): ValueOpMsg
      reads this, proof
    {
      ValueOpMsg(key, if proof == null then None else Some(proof.Value()))
    }

    constructor ()
      ensures Value() == EMPTY_VALUE_OP
    {
      key, proof := Nil, null;
    }

    method Size() returns (n: nat)
      ensures n == |ValueOpBytes(Value())|
    {
      hide Sov, Encode, ProofFields;
      n := 0;
      var l := |key.Data()|;
      if l > 0 { n := n + 1 + l + Sov(l); }
      if proof != null {
        l := proof.Size();
        n := n + 1 + l + Sov(l);
        ProofSizeIsLength(proof.Value());
      }
      ValueOpSizeIsLength(Value());
    }

    method MarshalToSizedBuffer(dAtA: array<byte>, lo: nat, hi: nat) returns (n: nat)
      requires |ValueOpBytes(Value())| <= MAX_LEN
      requires lo + |ValueOpBytes(Value())| <= hi <= dAtA.Length
      modifies dAtA
      ensures n == |ValueOpBytes(Value())|
      ensures dAtA[..] == Put(old(dAtA[..]), hi, ValueOpBytes(Value()))
    {
      hide Encode, Put, ProofFields, ValueOpFields, ValueOpNested, Record.Bytes;
      ghost var was, m := dAtA[..], Value();
      ghost var a, b := Encode(BytesField(1, key.Data())), Encode(ValueOpNested(m));
      var i: int := hi;
      ValueOpBytesParts(m);
      PutNothing(was, hi);
      if proof != null {
        var size := proof.MarshalToSizedBuffer(dAtA, lo, i);
        i := i - size;
        i := PutPrefix(dAtA, i, 2, size, was, ProofBytes(proof.Value()));
      }
      assert i == hi - |b| && dAtA[..] == Put(was, hi, b);
      i := WriteBytes(dAtA, i, 1, key.Data());
      PutPut(was, hi, b, a);
      return hi - i;
    }

    method Marshal() returns (dAtA: array<byte>)
      requires |ValueOpBytes(Value())| <= MAX_LEN
      ensures fresh(dAtA) && dAtA[..] == ValueOpBytes(Value())
    {
      hide Encode, Put;
      ghost var m := Value();
      var size := Size();
      dAtA := new byte[size](_ => 0);
      assert Value() == m;
      var n := MarshalToSizedBuffer(dAtA, 0, size);
      PutAll(size, ValueOpBytes(m));
    }

    /** `if m.Proof == nil { m.Proof = &Proof{} }` and the nested decoder. */
    method UnmarshalProof(payload: bytes) returns (r: Result<()>)
      requires |payload| <= MAX_LEN
      modifies this`proof, proof
      ensures Agrees(MergeNested(old(Value()).proof, payload), r, Value().proof)
      ensures proof == old(proof) || fresh(proof)
    {
      hide Decode;
      if proof == null { proof := new Proof(); }
      r := proof.Unmarshal(payload);
    }

    /** The body of the decoding loop: the index behind the field it has dealt with. */
    method UnmarshalField(dAtA: bytes, start: int) returns (r: Result<int>)
      requires 0 <= start < |dAtA| <= MAX_LEN
      modifies this, proof
      ensures match Step(ValueOpCodec(), old(Value()), dAtA[start..])
              case Err(e) => r == Err(e)
              case Ok(s) => r == Ok(start + s.n) && Value() == s.m
      ensures proof == old(proof) || fresh(proof)
    {
      hide ReadTag, ReadPayload, Skip, MergeNested;
      var tag :- DecodeTag(dAtA, start);
      assert dAtA[start..][tag.v.n..] == dAtA[tag.next..];
      match tag.v.field {
        case 1 =>
          var x :- BytesCase(dAtA, tag);
          key := Buf(x.v);
          return Ok(x.next);
        case 2 =>
          var x :- BytesCase(dAtA, tag);
          var _ :- UnmarshalProof(x.v);
          return Ok(x.next);
        case _ =>
          r := SkipCase(dAtA, start);
      }
    }

    method Unmarshal(dAtA: bytes) returns (r: Result<()>)
      requires |dAtA| <= MAX_LEN
      modifies this, proof
      ensures Agrees(Decode(ValueOpCodec(), old(Value()), dAtA), r, Value())
      ensures proof == old(proof) || fresh(proof)
    {
      hide Decode, Step;
      var l, iNdEx := |dAtA|, 0;
      DecodeEnd(ValueOpCodec(), Value(), dAtA);
      while iNdEx < l
        invariant 0 <= iNdEx <= l
        invariant proof == old(proof) || fresh(proof)
        invariant Decode(ValueOpCodec(), Value(), dAtA[iNdEx..]) == Decode(ValueOpCodec(), old(Value()), dAtA)
      {
        DecodeRound(ValueOpCodec(), Value(), dAtA, iNdEx);
        iNdEx :- UnmarshalField(dAtA, iNdEx);
      }
      DecodeEnd(ValueOpCodec(), Value(), dAtA);
      return Ok(());
    }
  }

  class ProofOp {
    var typ: bytes
    var key: Buf
    var data: Buf

    function Value(): ProofOpMsg
      reads this
    {
      ProofOpMsg(typ, key, data)
    }

    constructor ()
      ensures Value() == EMPTY_PROOF_OP
    {
      typ, key, data := [], Nil, Nil;
    }

    method Size() returns (n: nat)
      ensures n == |ProofOpBytes(Value())|
    {
      hide Sov, Encode;
      n := 0;
      var l := |typ|;
      if l > 0 { n := n + 1 + l + Sov(l); }
      l := |key.Data()|;
      if l > 0 { n := n + 1 + l + Sov(l); }
      l := |data.Data()|;
      if l > 0 { n := n + 1 + l + Sov(l); }
      ProofOpSizeIsLength(Value());
    }

    method MarshalToSizedBuffer(dAtA: array<byte>, lo: nat, hi: nat) returns (n: nat)
      requires |ProofOpBytes(Value())| <= MAX_LEN
      requires lo + |ProofOpBytes(Value())| <= hi <= dAtA.Length
      modifies dAtA
      ensures n == |ProofOpBytes(Value())|
      ensures dAtA[..] == Put(old(dAtA[..]), hi, ProofOpBytes(Value()))
    {
      hide Encode, Put;
      ghost var was := dAtA[..];
      ghost var a, b := Encode(BytesField(1, typ)), Encode(BytesField(2, key.Data()));
      ghost var c := Encode(BytesField(3, data.Data()));
      EncodeThree(BytesField(1, typ), BytesField(2, key.Data()), BytesField(3, data.Data()));
      var i := WriteBytes(dAtA, hi, 3, data.Data());
      i := WriteBytes(dAtA, i, 2, key.Data());
      PutPut(was, hi, c, b);
      i := WriteBytes(dAtA, i, 1, typ);
      PutPut(was, hi, b + c, a);
      return hi - i;
    }

    method Unmarshal(dAtA: bytes) returns (r: Result<()>)
      requires |dAtA| <= MAX_LEN
      modifies this
      ensures Agrees(Decode(ProofOpCodec(), old(Value()), dAtA), r, Value())
    {
      hide Decode, ReadTag, ReadPayload, Skip;
      var l, iNdEx := |dAtA|, 0;
      DecodeEnd(ProofOpCodec(), Value(), dAtA);
      while iNdEx < l
        invariant 0 <= iNdEx <= l
        invariant Decode(ProofOpCodec(), Value(), dAtA[iNdEx..]) == Decode(ProofOpCodec(), old(Value()), dAtA)
      {
        DecodeRound(ProofOpCodec(), Value(), dAtA, iNdEx);
        var tag :- DecodeTag(dAtA, iNdEx);
        assert dAtA[iNdEx..][tag.v.n..] == dAtA[tag.next..];
        match tag.v.field {
          case 1 =>
            var x :- BytesCase(dAtA, tag);
            typ, iNdEx := x.v, x.next;
          case 2 =>
            var x :- BytesCase(dAtA, tag);
            key, iNdEx := Buf(x.v), x.next;
          case 3 =>
            var x :- BytesCase(dAtA, tag);
            data, iNdEx := Buf(x.v), x.next;
          case _ =>
            iNdEx :- SkipCase(dAtA, iNdEx);
        }
      }
      DecodeEnd(ProofOpCodec(), Value(), dAtA);
      return Ok(());
    }
  }

  class ProofOps {
    /** The elements are values in Go; here each is an object that only this list refers to. */
    var ops: seq<ProofOp>

    static function Values(ops: seq<ProofOp>): (r: seq<ProofOpMsg>)
      reads ops
      ensures |r| == |ops| && forall i :: 0 <= i < |ops| ==> r[i] == ops[i].Value()
    {
      if ops == [] then [] else Values(ops[..|ops| - 1]) + [ops[|ops| - 1].Value()]
    }

    static lemma ValuesAppend(ops: seq<ProofOp>, op: ProofOp)
      ensures Values(ops + [op]) == Values(ops) + [op.Value()]
    {
      assert (ops + [op])[..|ops|] == ops;
    }

    function Value(): ProofOpsMsg
      reads this, ops
    {
      ProofOpsMsg(Values(ops))
    }

    constructor ()
      ensures Value() == EMPTY_PROOF_OPS
    {
      ops := [];
    }

    method Size() returns (n: nat)
      ensures n == |ProofOpsBytes(Value())|
    {
      hide Sov, Encode, ProofOpFields;
      n := 0;
      ghost var all := OpsBytes(Values(ops));
      for k := 0 to |ops|
        invariant n == RepeatedSize(all[..k])
      {
        var l := ops[k].Size();
        n := n + 1 + l + Sov(l);
        assert all[..k + 1] == all[..k] + [all[k]];
        RepeatedSizeAppend(all[..k], all[k]);
      }
      assert all[..|ops|] == all;
      RepeatedFieldSize(1, all);
    }

    method MarshalToSizedBuffer(dAtA: array<byte>, lo: nat, hi: nat) returns (n: nat)
      requires |ProofOpsBytes(Value())| <= MAX_LEN
      requires lo + |ProofOpsBytes(Value())| <= hi <= dAtA.Length
      modifies dAtA
      ensures n == |ProofOpsBytes(Value())|
      ensures dAtA[..] == Put(old(dAtA[..]), hi, ProofOpsBytes(Value()))
    {
      hide Encode, Put, Record.Bytes, RepeatedField, ProofOpFields, Tail, Values;
      ghost var was, all := dAtA[..], OpsBytes(Values(ops));
      var i: int := hi;
      var iNdEx := |ops| - 1;
      TailEnds(1, all);
      PutNothing(was, hi);
      while iNdEx >= 0
        invariant -1 <= iNdEx < |ops| && |Tail(1, all, iNdEx + 1)| <= hi
        invariant i == hi - |Tail(1, all, iNdEx + 1)|
        invariant dAtA[..] == Put(was, hi, Tail(1, all, iNdEx + 1))
      {
        ghost var here := dAtA[..];
        TailNext(1, all, iNdEx);
        PayloadShorter(1, all[iNdEx]);
        var size := ops[iNdEx].MarshalToSizedBuffer(dAtA, lo, i);
        i := i - size;
        i := PutPrefix(dAtA, i, 1, size, here, all[iNdEx]);
        PutPut(was, hi, Tail(1, all, iNdEx + 1), Record(1, BytesP(all[iNdEx])).Bytes());
        iNdEx := iNdEx - 1;
      }
      return hi - i;
    }

    method Marshal() returns (dAtA: array<byte>)
      requires |ProofOpsBytes(Value())| <= MAX_LEN
      ensures fresh(dAtA) && dAtA[..] == ProofOpsBytes(Value())
    {
      hide Encode, Put, Values;
      ghost var m := Value();
      var size := Size();
      dAtA := new byte[size](_ => 0);
      assert Value() == m;
      var n := MarshalToSizedBuffer(dAtA, 0, size);
      PutAll(size, ProofOpsBytes(m));
    }

    method Unmarshal(dAtA: bytes) returns (r: Result<()>)
      requires |dAtA| <= MAX_LEN
      modifies this
      ensures Agrees(Decode(ProofOpsCodec(), old(Value()), dAtA), r, Value())
    {
      hide Decode, ReadTag, ReadPayload, Skip, Values;
      var l, iNdEx := |dAtA|, 0;
      DecodeEnd(ProofOpsCodec(), Value(), dAtA);
      while iNdEx < l
        invariant 0 <= iNdEx <= l
        invariant Decode(ProofOpsCodec(), Value(), dAtA[iNdEx..]) == Decode(ProofOpsCodec(), old(Value()), dAtA)
      {
        DecodeRound(ProofOpsCodec(), Value(), dAtA, iNdEx);
        var tag :- DecodeTag(dAtA, iNdEx);
        assert dAtA[iNdEx..][tag.v.n..] == dAtA[tag.next..];
        match tag.v.field {
          case 1 =>
            var x :- BytesCase(dAtA, tag);
            ghost var before := ops;
            var op := new ProofOp();
            ops := ops + [op];
            var _ :- op.Unmarshal(x.v);
            ValuesAppend(before, op);
            iNdEx := x.next;
          case _ =>
            iNdEx :- SkipCase(dAtA, iNdEx);
        }
      }
      DecodeEnd(ProofOpsCodec(), Value(), dAtA);
      return Ok(());
    }
  }
}
