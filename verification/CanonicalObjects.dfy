/**
  The Go structs of proto/tendermint/types/canonical.pb.go with their generated methods, each tied
  to the meaning of the message in `Canonical`.
*/
module CanonicalObjects {
  import opened Wire
  import opened Decoding
  import opened Fields
  import opened WireCode
  import opened Canonical

  class PartSetHeader {
    var total: uint32
    var hash: Buf

    function Value(): PartSetHeaderMsg
      reads this
    {
      PartSetHeaderMsg(total, hash)
    }

    constructor ()
      ensures Value() == EMPTY_PART_SET_HEADER
    {
      total, hash := 0, Nil;
    }

    method Size() returns (n: nat)
      ensures n == |Encode(PartSetHeaderFields(Value()))|
    {
      hide Sov, Encode, VarintField, BytesField, FixedField;
      n := 0;
      if total != 0 { n := n + 1 + Sov(total); }
      var l := |hash.Data()|;
      if l > 0 { n := n + 1 + l + Sov(l); }
      ScalarSizes(1, 0, total, []);
      ScalarSizes(2, 0, 0, hash.Data());
      EncodeConcat(VarintField(1, total), BytesField(2, hash.Data()));
    }

    method MarshalToSizedBuffer(dAtA: array<byte>, lo: nat, hi: nat) returns (n: nat)
      requires |Encode(PartSetHeaderFields(Value()))| <= MAX_LEN
      requires lo + |Encode(PartSetHeaderFields(Value()))| <= hi <= dAtA.Length
      modifies dAtA
      ensures n == |Encode(PartSetHeaderFields(Value()))|
      ensures dAtA[..] == Put(old(dAtA[..]), hi, Encode(PartSetHeaderFields(Value())))
    {
      hide Encode, Put, VarintField, BytesField, FixedField;
      ghost var was := dAtA[..];
      ghost var a := Encode(VarintField(1, total));
      ghost var b := Encode(BytesField(2, hash.Data()));
      EncodeConcat(VarintField(1, total), BytesField(2, hash.Data()));
      var i := WriteBytes(dAtA, hi, 2, hash.Data());
      i := WriteVarint(dAtA, i, 1, total);
      PutPut(was, hi, b, a);
      return hi - i;
    }

    method Unmarshal(dAtA: bytes) returns (r: Result<()>)
      requires |dAtA| <= MAX_LEN
      modifies this
      ensures Agrees(Decode(PartSetHeaderCodec(), old(Value()), dAtA), r, Value())
    {
      hide Decode, ReadTag, ReadPayload, Skip, Signed32, Signed64;
      var l, iNdEx := |dAtA|, 0;
      DecodeEnd(PartSetHeaderCodec(), Value(), dAtA);
      while iNdEx < l
        invariant 0 <= iNdEx <= l
        invariant Decode(PartSetHeaderCodec(), Value(), dAtA[iNdEx..]) == Decode(PartSetHeaderCodec(), old(Value()), dAtA)
      {
        DecodeRound(PartSetHeaderCodec(), Value(), dAtA, iNdEx);
        var tag :- DecodeTag(dAtA, iNdEx);
        assert dAtA[iNdEx..][tag.v.n..] == dAtA[tag.next..];
        match tag.v.field {
          case 1 =>
            var x :- Varint32Case(dAtA, tag);
            total, iNdEx := x.v, x.next;
          case 2 =>
            var x :- BytesCase(dAtA, tag);
            hash, iNdEx := Buf(x.v), x.next;
          case _ =>
            iNdEx :- SkipCase(dAtA, iNdEx);
        }
      }
      DecodeEnd(PartSetHeaderCodec(), Value(), dAtA);
      return Ok(());
    }
  }

  class VoteExtension {
    var extension: Buf
    var height: int64
    var round: int64
    var chainId: bytes

    function Value(): VoteExtensionMsg
      reads this
    {
      VoteExtensionMsg(extension, height, round, chainId)
    }

    constructor ()
      ensures Value() == EMPTY_VOTE_EXTENSION
    {
      extension, height, round, chainId := Nil, 0, 0, [];
    }

    method Size() returns (n: nat)
      ensures n == |Encode(VoteExtensionFields(Value()))|
    {
      hide Sov, Encode, VarintField, BytesField, FixedField;
      n := 0;
      var l := |extension.Data()|;
      if l > 0 { n := n + 1 + l + Sov(l); }
      if height != 0 { n := n + 9; }
      if round != 0 { n := n + 9; }
      l := |chainId|;
      if l > 0 { n := n + 1 + l + Sov(l); }
      ScalarSizes(1, 0, 0, extension.Data());
      ScalarSizes(2, height, 0, []);
      ScalarSizes(3, round, 0, []);
      ScalarSizes(4, 0, 0, chainId);
      EncodeFour(BytesField(1, extension.Data()), FixedField(2, height), FixedField(3, round), BytesField(4, chainId));
    }

    method MarshalToSizedBuffer(dAtA: array<byte>, lo: nat, hi: nat) returns (n: nat)
      requires |Encode(VoteExtensionFields(Value()))| <= MAX_LEN
      requires lo + |Encode(VoteExtensionFields(Value()))| <= hi <= dAtA.Length
      modifies dAtA
      ensures n == |Encode(VoteExtensionFields(Value()))|
      ensures dAtA[..] == Put(old(dAtA[..]), hi, Encode(VoteExtensionFields(Value())))
    {
      hide Encode, Put, VarintField, BytesField, FixedField;
      ghost var was := dAtA[..];
      ghost var a := Encode(BytesField(1, extension.Data()));
      ghost var b := Encode(FixedField(2, height));
      ghost var c := Encode(FixedField(3, round));
      ghost var d := Encode(BytesField(4, chainId));
      EncodeFour(BytesField(1, extension.Data()), FixedField(2, height), FixedField(3, round), BytesField(4, chainId));
      var i := WriteBytes(dAtA, hi, 4, chainId);
      i := WriteFixed(dAtA, i, 3, round);
      PutPut(was, hi, d, c);
      i := WriteFixed(dAtA, i, 2, height);
      PutPut(was, hi, c + d, b);
      i := WriteBytes(dAtA, i, 1, extension.Data());
      PutPut(was, hi, b + (c + d), a);
      return hi - i;
    }

    method Unmarshal(dAtA: bytes) returns (r: Result<()>)
      requires |dAtA| <= MAX_LEN
      modifies this
      ensures Agrees(Decode(VoteExtensionCodec(), old(Value()), dAtA), r, Value())
    {
      hide Decode, ReadTag, ReadPayload, Skip, Signed32, Signed64;
      var l, iNdEx := |dAtA|, 0;
      DecodeEnd(VoteExtensionCodec(), Value(), dAtA);
      while iNdEx < l
        invariant 0 <= iNdEx <= l
        invariant Decode(VoteExtensionCodec(), Value(), dAtA[iNdEx..]) == Decode(VoteExtensionCodec(), old(Value()), dAtA)
      {
        DecodeRound(VoteExtensionCodec(), Value(), dAtA, iNdEx);
        var tag :- DecodeTag(dAtA, iNdEx);
        assert dAtA[iNdEx..][tag.v.n..] == dAtA[tag.next..];
        match tag.v.field {
          case 1 =>
            var x :- BytesCase(dAtA, tag);
            extension, iNdEx := Buf(x.v), x.next;
          case 2 =>
            var x :- FixedCase(dAtA, tag);
            height, iNdEx := Signed64(x.v), x.next;
          case 3 =>
            var x :- FixedCase(dAtA, tag);
            round, iNdEx := Signed64(x.v), x.next;
          case 4 =>
            var x :- BytesCase(dAtA, tag);
            chainId, iNdEx := x.v, x.next;
          case _ =>
            iNdEx :- SkipCase(dAtA, iNdEx);
        }
      }
      DecodeEnd(VoteExtensionCodec(), Value(), dAtA);
      return Ok(());
    }
  }

  class BlockID {
    var hash: Buf
    /** A struct inside the struct: it is there from the start and never replaced. */
    const partSetHeader: PartSetHeader

    function Value(): BlockIDMsg
      reads this, partSetHeader
    {
      BlockIDMsg(hash, partSetHeader.Value())
    }

    constructor ()
      ensures Value() == EMPTY_BLOCK_ID && fresh(partSetHeader)
    {
      hash := Nil;
      partSetHeader := new PartSetHeader();
    }

    method Size() returns (n: nat)
      ensures n == |BlockIDBytes(Value())|
    {
      hide Sov, Encode, PartSetHeaderFields, BytesField;
      ghost var r := Record(2, BytesP(PartSetHeaderBytes(partSetHeader.Value())));
      n := 0;
      var l := |hash.Data()|;
      if l > 0 { n := n + 1 + l + Sov(l); }
      l := partSetHeader.Size();
      n := n + 1 + l + Sov(l);
      ScalarSizes(1, 0, 0, hash.Data());
      OneRecord(r);
      RecordSize(r);
      EncodeConcat(BytesField(1, hash.Data()), [r]);
    }

    method MarshalToSizedBuffer(dAtA: array<byte>, lo: nat, hi: nat) returns (n: nat)
      requires |BlockIDBytes(Value())| <= MAX_LEN
      requires lo + |BlockIDBytes(Value())| <= hi <= dAtA.Length
      modifies dAtA
      ensures n == |BlockIDBytes(Value())|
      ensures dAtA[..] == Put(old(dAtA[..]), hi, BlockIDBytes(Value()))
    {
      hide Encode, Put, PartSetHeaderFields, BytesField, Record.Bytes;
      ghost var was, header := dAtA[..], PartSetHeaderBytes(partSetHeader.Value());
      ghost var a, r := BytesField(1, hash.Data()), Record(2, BytesP(header));
      EncodeConcat(a, [r]);
      OneRecord(r);
      PayloadShorter(2, header);
      var i: int := hi;
      var size := partSetHeader.MarshalToSizedBuffer(dAtA, lo, i);
      i := i - size;
      i := PutPrefix(dAtA, i, 2, size, was, header);
      i := WriteBytes(dAtA, i, 1, hash.Data());
      PutPut(was, hi, r.Bytes(), Encode(a));
      return hi - i;
    }

    method Unmarshal(dAtA: bytes) returns (r: Result<()>)
      requires |dAtA| <= MAX_LEN
      modifies this, partSetHeader
      ensures Agrees(Decode(BlockIDCodec(), old(Value()), dAtA), r, Value())
    {
      hide Decode, ReadTag, ReadPayload, Skip, PartSetHeaderApply, PartSetHeaderWants;
      var l, iNdEx := |dAtA|, 0;
      DecodeEnd(BlockIDCodec(), Value(), dAtA);
      while iNdEx < l
        invariant 0 <= iNdEx <= l
        invariant Decode(BlockIDCodec(), Value(), dAtA[iNdEx..]) == Decode(BlockIDCodec(), old(Value()), dAtA)
      {
        DecodeRound(BlockIDCodec(), Value(), dAtA, iNdEx);
        var tag :- DecodeTag(dAtA, iNdEx);
        assert dAtA[iNdEx..][tag.v.n..] == dAtA[tag.next..];
        match tag.v.field {
          case 1 =>
            var x :- BytesCase(dAtA, tag);
            hash, iNdEx := Buf(x.v), x.next;
          case 2 =>
            var x :- BytesCase(dAtA, tag);
            var _ :- partSetHeader.Unmarshal(x.v);
            iNdEx := x.next;
          case _ =>
            iNdEx :- SkipCase(dAtA, iNdEx);
        }
      }
      DecodeEnd(BlockIDCodec(), Value(), dAtA);
      return Ok(());
    }
  }

  /** `CanonicalVote`.  The timestamp is held as its payload. */
  class Vote {
    var typ: int32
    var height: int64
    var round: int64
    var blockID: BlockID?
    var timestamp: bytes
    var chainID: bytes

    function ID(): Option<BlockIDMsg>
      reads this, blockID, if blockID == null then {} else {blockID.partSetHeader}
    {
      if blockID == null then None else Some(blockID.Value())
    }

    function Value(): VoteMsg
      reads this, blockID, if blockID == null then {} else {blockID.partSetHeader}
    {
      VoteMsg(typ, height, round, ID(), timestamp, chainID)
    }

    constructor (timestamp: bytes)
      ensures Value() == VoteMsg(0, 0, 0, None, timestamp, [])
    {
      typ, height, round, blockID, chainID := 0, 0, 0, null, [];
      this.timestamp := timestamp;
    }

    method Size() returns (n: nat)
      ensures n == |VoteBytes(Value())|
    {
      hide Sov, Encode, BlockIDFields, BytesField, FixedField, VarintField;
      n := 0;
      if typ != 0 { n := n + 1 + Sov(Unsigned64(typ)); }
      if height != 0 { n := n + 9; }
      if round != 0 { n := n + 9; }
      var l: nat;
      if blockID != null {
        l := blockID.Size();
        n := n + 1 + l + Sov(l);
      }
      l := |timestamp|;
      n := n + 1 + l + Sov(l);
      l := |chainID|;
      if l > 0 { n := n + 1 + l + Sov(l); }
      ScalarSizes(1, 0, typ, []);
      ScalarSizes(2, height, 0, []);
      ScalarSizes(3, round, 0, []);
      BlockIDFieldSize(4, ID());
      OneRecord(Record(5, BytesP(timestamp)));
      RecordSize(Record(5, BytesP(timestamp)));
      ScalarSizes(6, 0, 0, chainID);
      VoteBytesParts(Value());
    }

    method MarshalToSizedBuffer(dAtA: array<byte>, lo: nat, hi: nat) returns (n: nat)
      requires |VoteBytes(Value())| <= MAX_LEN
      requires lo + |VoteBytes(Value())| <= hi <= dAtA.Length
      modifies dAtA
      ensures n == |VoteBytes(Value())|
      ensures dAtA[..] == Put(old(dAtA[..]), hi, VoteBytes(Value()))
    {
      hide Encode, Put, BlockIDFields, BlockIDField, BytesField, FixedField, VarintField, Record.Bytes;
      ghost var was, m := dAtA[..], Value();
      ghost var a, b, c := Encode(VarintField(1, typ)), Encode(FixedField(2, height)), Encode(FixedField(3, round));
      ghost var d, e := Encode(BlockIDField(4, ID())), Record(5, BytesP(timestamp)).Bytes();
      ghost var f := Encode(BytesField(6, chainID));
      VoteBytesParts(m);
      OneRecord(Record(5, BytesP(timestamp)));
      BlockIDFieldBytes(4, ID());
      var i := WriteBytes(dAtA, hi, 6, chainID);
      i := PutBytesField(dAtA, i, 5, timestamp);
      PutPut(was, hi, f, e);
      ghost var here := dAtA[..];
      PutNothing(here, i);
      if blockID != null {
        var size := blockID.MarshalToSizedBuffer(dAtA, lo, i);
        i := i - size;
        i := PutPrefix(dAtA, i, 4, size, here, BlockIDBytes(blockID.Value()));
      }
      PutPut(was, hi, e + f, d);
      i := WriteFixed(dAtA, i, 3, round);
      PutPut(was, hi, d + (e + f), c);
      i := WriteFixed(dAtA, i, 2, height);
      PutPut(was, hi, c + (d + (e + f)), b);
      i := WriteVarint(dAtA, i, 1, typ);
      PutPut(was, hi, b + (c + (d + (e + f))), a);
      return hi - i;
    }

    /** `if m.BlockID == nil { m.BlockID = &CanonicalBlockID{} }` and the nested decoder. */
    method UnmarshalBlockID(payload: bytes) returns (r: Result<()>)
      requires |payload| <= MAX_LEN
      modifies this`blockID, blockID, if blockID == null then {} else {blockID.partSetHeader}
      ensures Agrees(MergeBlockID(old(ID()), payload), r, ID())
      ensures blockID == old(blockID) || (fresh(blockID) && fresh(blockID.partSetHeader))
    {
      hide Decode;
      if blockID == null { blockID := new BlockID(); }
      r := blockID.Unmarshal(payload);
    }

    /** The cases of the numbers: type, height and round. */
    method UnmarshalNumber(dAtA: bytes, tag: At<Tag>) returns (r: Result<int>)
      requires 0 <= tag.next <= |dAtA| <= MAX_LEN && 1 <= tag.v.field <= 3
      modifies this`typ, this`height, this`round
      ensures var w := VoteWants(tag.v.field).value;
              if tag.v.wireType != w then r == Err(WrongWireType)
              else match ReadPayload(dAtA[tag.next..], w)
                   case Err(e) => r == Err(e)
                   case Ok(s) => r == Ok(tag.next + s.n) && Ok(Value()) == VoteApply(old(Value()), tag.v.field, s.p)
    {
      hide ReadPayload, MergeBlockID, Signed32, Signed64;
      match tag.v.field {
        case 1 =>
          var x :- Varint32Case(dAtA, tag);
          typ := Signed32(x.v);
          return Ok(x.next);
        case 2 =>
          var x :- FixedCase(dAtA, tag);
          height := Signed64(x.v);
          return Ok(x.next);
        case _ =>
          var x :- FixedCase(dAtA, tag);
          round := Signed64(x.v);
          return Ok(x.next);
      }
    }

    /** The body of the decoding loop: the index behind the field it has dealt with. */
    method UnmarshalField(dAtA: bytes, start: int) returns (r: Result<int>)
      requires 0 <= start < |dAtA| <= MAX_LEN
      modifies this, blockID, if blockID == null then {} else {blockID.partSetHeader}
      ensures match Step(VoteCodec(), old(Value()), dAtA[start..])
              case Err(e) => r == Err(e)
              case Ok(s) => r == Ok(start + s.n) && Value() == s.m
      ensures blockID == old(blockID) || (fresh(blockID) && fresh(blockID.partSetHeader))
    {
      hide ReadTag, ReadPayload, Skip, MergeBlockID, Signed32, Signed64;
      var tag :- DecodeTag(dAtA, start);
      assert dAtA[start..][tag.v.n..] == dAtA[tag.next..];
      match tag.v.field {
        case 4 =>
          var x :- BytesCase(dAtA, tag);
          var _ :- UnmarshalBlockID(x.v);
          return Ok(x.next);
        case 5 =>
          var x :- BytesCase(dAtA, tag);
          timestamp := x.v;
          return Ok(x.next);
        case 6 =>
          var x :- BytesCase(dAtA, tag);
          chainID := x.v;
          return Ok(x.next);
        case _ =>
          if tag.v.field <= 3 {
            r := UnmarshalNumber(dAtA, tag);
          } else {
            r := SkipCase(dAtA, start);
          }
      }
    }

    method Unmarshal(dAtA: bytes) returns (r: Result<()>)
      requires |dAtA| <= MAX_LEN
      modifies this, blockID, if blockID == null then {} else {blockID.partSetHeader}
      ensures Agrees(Decode(VoteCodec(), old(Value()), dAtA), r, Value())
    {
      hide Decode, Step;
      var l, iNdEx := |dAtA|, 0;
      DecodeEnd(VoteCodec(), Value(), dAtA);
      while iNdEx < l
        invariant 0 <= iNdEx <= l
        invariant blockID == old(blockID) || (fresh(blockID) && fresh(blockID.partSetHeader))
        invariant Decode(VoteCodec(), Value(), dAtA[iNdEx..]) == Decode(VoteCodec(), old(Value()), dAtA)
      {
        DecodeRound(VoteCodec(), Value(), dAtA, iNdEx);
        iNdEx :- UnmarshalField(dAtA, iNdEx);
      }
      DecodeEnd(VoteCodec(), Value(), dAtA);
      return Ok(());
    }
  }
}
