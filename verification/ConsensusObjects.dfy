/**
  The Go structs NewRoundStep and HasVote of proto/tendermint/consensus/types.pb.go with their
  generated methods, each tied to the meaning of the message in `Consensus`.
*/
module ConsensusObjects {
  import opened Wire
  import opened Fields
  import opened WireCode
  import opened Consensus

  class NewRoundStep {
    var height: int64
    var round: int32
    var step: uint32
    var secondsSinceStartTime: int64
    var lastCommitRound: int32

    function Value(): NewRoundStepMsg
      reads this
    {
      NewRoundStepMsg(height, round, step, secondsSinceStartTime, lastCommitRound)
    }

    constructor ()
      ensures Value() == EMPTY_NEW_ROUND_STEP
    {
      height, round, step, secondsSinceStartTime, lastCommitRound := 0, 0, 0, 0, 0;
    }

    method Size() returns (n: nat)
      ensures n == |Encode(NewRoundStepFields(Value()))|
    {
      hide Sov, Encode, VarintField, BytesField, FixedField;
      n := 0;
      if height != 0 { n := n + 1 + Sov(Unsigned64(height)); }
      if round != 0 { n := n + 1 + Sov(Unsigned64(round)); }
      if step != 0 { n := n + 1 + Sov(step); }
      if secondsSinceStartTime != 0 { n := n + 1 + Sov(Unsigned64(secondsSinceStartTime)); }
      if lastCommitRound != 0 { n := n + 1 + Sov(Unsigned64(lastCommitRound)); }
      NewRoundStepSizeIsLength(Value());
    }

    method MarshalToSizedBuffer(dAtA: array<byte>, lo: nat, hi: nat) returns (n: nat)
      requires lo + |Encode(NewRoundStepFields(Value()))| <= hi <= dAtA.Length
      modifies dAtA
      ensures n == |Encode(NewRoundStepFields(Value()))|
      ensures dAtA[..] == Put(old(dAtA[..]), hi, Encode(NewRoundStepFields(Value())))
    {
      hide Encode, Put, VarintField, BytesField, FixedField;
      ghost var was := dAtA[..];
      ghost var a := Encode(VarintField(1, height));
      ghost var b := Encode(VarintField(2, round));
      ghost var c := Encode(VarintField(3, step));
      ghost var d := Encode(VarintField(4, secondsSinceStartTime));
      ghost var e := Encode(VarintField(5, lastCommitRound));
      EncodeFive(VarintField(1, height), VarintField(2, round), VarintField(3, step),
                 VarintField(4, secondsSinceStartTime), VarintField(5, lastCommitRound));
      var i := WriteVarint(dAtA, hi, 5, lastCommitRound);
      i := WriteVarint(dAtA, i, 4, secondsSinceStartTime);
      PutPut(was, hi, e, d);
      i := WriteVarint(dAtA, i, 3, step);
      PutPut(was, hi, d + e, c);
      i := WriteVarint(dAtA, i, 2, round);
      PutPut(was, hi, c + (d + e), b);
      i := WriteVarint(dAtA, i, 1, height);
      PutPut(was, hi, b + (c + (d + e)), a);
      return hi - i;
    }

    method Unmarshal(dAtA: bytes) returns (r: Result<()>)
      requires |dAtA| <= MAX_LEN
      modifies this
      ensures Agrees(Decode(NewRoundStepCodec(), old(Value()), dAtA), r, Value())
    {
      hide Decode, ReadTag, ReadPayload, Skip, Signed32, Signed64;
      var l, iNdEx := |dAtA|, 0;
      DecodeEnd(NewRoundStepCodec(), Value(), dAtA);
      while iNdEx < l
        invariant 0 <= iNdEx <= l
        invariant Decode(NewRoundStepCodec(), Value(), dAtA[iNdEx..]) == Decode(NewRoundStepCodec(), old(Value()), dAtA)
      {
        DecodeRound(NewRoundStepCodec(), Value(), dAtA, iNdEx);
        var tag :- DecodeTag(dAtA, iNdEx);
        assert dAtA[iNdEx..][tag.v.n..] == dAtA[tag.next..];
        match tag.v.field {
          case 1 =>
            var x :- VarintCase(dAtA, tag);
            height, iNdEx := Signed64(x.v), x.next;
          case 2 =>
            var x :- Varint32Case(dAtA, tag);
            round, iNdEx := Signed32(x.v), x.next;
          case 3 =>
            var x :- Varint32Case(dAtA, tag);
            step, iNdEx := x.v, x.next;
          case 4 =>
            var x :- VarintCase(dAtA, tag);
            secondsSinceStartTime, iNdEx := Signed64(x.v), x.next;
          case 5 =>
            var x :- Varint32Case(dAtA, tag);
            lastCommitRound, iNdEx := Signed32(x.v), x.next;
          case _ =>
            iNdEx :- SkipCase(dAtA, iNdEx);
        }
      }
      DecodeEnd(NewRoundStepCodec(), Value(), dAtA);
      return Ok(());
    }
  }

  class HasVote {
    var height: int64
    var round: int32
    var typ: int32
    var index: int32

    function Value(): HasVoteMsg
      reads this
    {
      HasVoteMsg(height, round, typ, index)
    }

    constructor ()
      ensures Value() == EMPTY_HAS_VOTE
    {
      height, round, typ, index := 0, 0, 0, 0;
    }

    method Size() returns (n: nat)
      ensures n == |Encode(HasVoteFields(Value()))|
    {
      hide Sov, Encode, VarintField, BytesField, FixedField;
      n := 0;
      if height != 0 { n := n + 1 + Sov(Unsigned64(height)); }
      if round != 0 { n := n + 1 + Sov(Unsigned64(round)); }
      if typ != 0 { n := n + 1 + Sov(Unsigned64(typ)); }
      if index != 0 { n := n + 1 + Sov(Unsigned64(index)); }
      HasVoteSizeIsLength(Value());
    }

    method MarshalToSizedBuffer(dAtA: array<byte>, lo: nat, hi: nat) returns (n: nat)
      requires lo + |Encode(HasVoteFields(Value()))| <= hi <= dAtA.Length
      modifies dAtA
      ensures n == |Encode(HasVoteFields(Value()))|
      ensures dAtA[..] == Put(old(dAtA[..]), hi, Encode(HasVoteFields(Value())))
    {
      hide Encode, Put, VarintField, BytesField, FixedField;
      ghost var was := dAtA[..];
      ghost var a := Encode(VarintField(1, height));
      ghost var b := Encode(VarintField(2, round));
      ghost var c := Encode(VarintField(3, typ));
      ghost var d := Encode(VarintField(4, index));
      EncodeFour(VarintField(1, height), VarintField(2, round), VarintField(3, typ), VarintField(4, index));
      var i := WriteVarint(dAtA, hi, 4, index);
      i := WriteVarint(dAtA, i, 3, typ);
      PutPut(was, hi, d, c);
      i := WriteVarint(dAtA, i, 2, round);
      PutPut(was, hi, c + d, b);
      i := WriteVarint(dAtA, i, 1, height);
      PutPut(was, hi, b + (c + d), a);
      return hi - i;
    }

    method Unmarshal(dAtA: bytes) returns (r: Result<()>)
      requires |dAtA| <= MAX_LEN
      modifies this
      ensures Agrees(Decode(HasVoteCodec(), old(Value()), dAtA), r, Value())
    {
      hide Decode, ReadTag, ReadPayload, Skip, Signed32, Signed64;
      var l, iNdEx := |dAtA|, 0;
      DecodeEnd(HasVoteCodec(), Value(), dAtA);
      while iNdEx < l
        invariant 0 <= iNdEx <= l
        invariant Decode(HasVoteCodec(), Value(), dAtA[iNdEx..]) == Decode(HasVoteCodec(), old(Value()), dAtA)
      {
        DecodeRound(HasVoteCodec(), Value(), dAtA, iNdEx);
        var tag :- DecodeTag(dAtA, iNdEx);
        assert dAtA[iNdEx..][tag.v.n..] == dAtA[tag.next..];
        match tag.v.field {
          case 1 =>
            var x :- VarintCase(dAtA, tag);
            height, iNdEx := Signed64(x.v), x.next;
          case 2 =>
            var x :- Varint32Case(dAtA, tag);
            round, iNdEx := Signed32(x.v), x.next;
          case 3 =>
            var x :- Varint32Case(dAtA, tag);
            typ, iNdEx := Signed32(x.v), x.next;
          case 4 =>
            var x :- Varint32Case(dAtA, tag);
            index, iNdEx := Signed32(x.v), x.next;
          case _ =>
            iNdEx :- SkipCase(dAtA, iNdEx);
        }
      }
      DecodeEnd(HasVoteCodec(), Value(), dAtA);
      return Ok(());
    }
  }
}
