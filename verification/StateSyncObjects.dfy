/**
  The Go structs of proto/tendermint/statesync/types.pb.go with their generated methods, each tied
  to the meaning of the message in `StateSync`.
*/
module StateSyncObjects {
  import opened Wire
  import opened Fields
  import opened WireCode
  import opened StateSync

  /** `SnapshotsRequest` has no fields: whatever it is sent is skipped. */
  class SnapshotsRequest {
    function Value(): SnapshotsRequestMsg { SnapshotsRequestMsg }

    constructor () {
    }

    method Size() returns (n: nat)
      ensures n == |BodyBytes(StateSync.SnapshotsRequest(Value()))|
    {
      n := 0;
    }

    method MarshalToSizedBuffer(dAtA: array<byte>, lo: nat, hi: nat) returns (n: nat)
      requires lo <= hi <= dAtA.Length
      modifies dAtA
      ensures n == |BodyBytes(StateSync.SnapshotsRequest(Value()))|
      ensures dAtA[..] == Put(old(dAtA[..]), hi, BodyBytes(StateSync.SnapshotsRequest(Value())))
    {
      var i := hi;
      PutNothing(dAtA[..], hi);
      return hi - i;
    }

    method Unmarshal(dAtA: bytes) returns (r: Result<()>)
      requires |dAtA| <= MAX_LEN
      ensures Agrees(Decode(SnapshotsRequestCodec(), SnapshotsRequestMsg, dAtA), r, Value())
    {
      hide Decode, ReadTag, ReadPayload, Skip, Signed32, Signed64;
      var l, iNdEx := |dAtA|, 0;
      DecodeEnd(SnapshotsRequestCodec(), Value(), dAtA);
      while iNdEx < l
        invariant 0 <= iNdEx <= l
        invariant Decode(SnapshotsRequestCodec(), Value(), dAtA[iNdEx..])
                  == Decode(SnapshotsRequestCodec(), SnapshotsRequestMsg, dAtA)
      {
        DecodeRound(SnapshotsRequestCodec(), Value(), dAtA, iNdEx);
        var tag :- DecodeTag(dAtA, iNdEx);
        iNdEx :- SkipCase(dAtA, iNdEx);
      }
      DecodeEnd(SnapshotsRequestCodec(), Value(), dAtA);
      return Ok(());
    }
  }

  class SnapshotsResponse {
    var height: uint64
    var format: uint32
    var chunks: uint32
    var hash: Buf
    var metadata: Buf

    function Value(): SnapshotsResponseMsg
      reads this
    {
      SnapshotsResponseMsg(height, format, chunks, hash, metadata)
    }

    constructor ()
      ensures Value() == EMPTY_SNAPSHOTS_RESPONSE
    {
      height, format, chunks, hash, metadata := 0, 0, 0, Nil, Nil;
    }

    method Size() returns (n: nat)
      ensures n == |Encode(SnapshotsResponseFields(Value()))|
    {
      hide Sov, Encode, VarintField, BytesField, FixedField;
      n := 0;
      if height != 0 { n := n + 1 + Sov(height); }
      if format != 0 { n := n + 1 + Sov(format); }
      if chunks != 0 { n := n + 1 + Sov(chunks); }
      var l := |hash.Data()|;
      if l > 0 { n := n + 1 + l + Sov(l); }
      l := |metadata.Data()|;
      if l > 0 { n := n + 1 + l + Sov(l); }
      SnapshotsResponseSize(Value());
    }

    method MarshalToSizedBuffer(dAtA: array<byte>, lo: nat, hi: nat) returns (n: nat)
      requires |Encode(SnapshotsResponseFields(Value()))| <= MAX_LEN
      requires lo + |Encode(SnapshotsResponseFields(Value()))| <= hi <= dAtA.Length
      modifies dAtA
      ensures n == |Encode(SnapshotsResponseFields(Value()))|
      ensures dAtA[..] == Put(old(dAtA[..]), hi, Encode(SnapshotsResponseFields(Value())))
    {
      hide Encode, Put, VarintField, BytesField, FixedField;
      ghost var was := dAtA[..];
      ghost var a := Encode(VarintField(1, height));
      ghost var b := Encode(VarintField(2, format));
      ghost var c := Encode(VarintField(3, chunks));
      ghost var d := Encode(BytesField(4, hash.Data()));
      ghost var e := Encode(BytesField(5, metadata.Data()));
      EncodeFive(VarintField(1, height), VarintField(2, format), VarintField(3, chunks),
                 BytesField(4, hash.Data()), BytesField(5, metadata.Data()));
      var i := WriteBytes(dAtA, hi, 5, metadata.Data());
      i := WriteBytes(dAtA, i, 4, hash.Data());
      PutPut(was, hi, e, d);
      i := WriteVarint(dAtA, i, 3, chunks);
      PutPut(was, hi, d + e, c);
      i := WriteVarint(dAtA, i, 2, format);
      PutPut(was, hi, c + (d + e), b);
      i := WriteVarint(dAtA, i, 1, height);
      PutPut(was, hi, b + (c + (d + e)), a);
      return hi - i;
    }

    method Unmarshal(dAtA: bytes) returns (r: Result<()>)
      requires |dAtA| <= MAX_LEN
      modifies this
      ensures Agrees(Decode(SnapshotsResponseCodec(), old(Value()), dAtA), r, Value())
    {
      hide Decode, ReadTag, ReadPayload, Skip, Signed32, Signed64;
      var l, iNdEx := |dAtA|, 0;
      DecodeEnd(SnapshotsResponseCodec(), Value(), dAtA);
      while iNdEx < l
        invariant 0 <= iNdEx <= l
        invariant Decode(SnapshotsResponseCodec(), Value(), dAtA[iNdEx..])
                  == Decode(SnapshotsResponseCodec(), old(Value()), dAtA)
      {
        DecodeRound(SnapshotsResponseCodec(), Value(), dAtA, iNdEx);
        var tag :- DecodeTag(dAtA, iNdEx);
        assert dAtA[iNdEx..][tag.v.n..] == dAtA[tag.next..];
        match tag.v.field {
          case 1 =>
            var x :- VarintCase(dAtA, tag);
            height, iNdEx := x.v, x.next;
          case 2 =>
            var x :- Varint32Case(dAtA, tag);
            format, iNdEx := x.v, x.next;
          case 3 =>
            var x :- Varint32Case(dAtA, tag);
            chunks, iNdEx := x.v, x.next;
          case 4 =>
            var x :- BytesCase(dAtA, tag);
            hash, iNdEx := Buf(x.v), x.next;
          case 5 =>
            var x :- BytesCase(dAtA, tag);
            metadata, iNdEx := Buf(x.v), x.next;
          case _ =>
            iNdEx :- SkipCase(dAtA, iNdEx);
        }
      }
      DecodeEnd(SnapshotsResponseCodec(), Value(), dAtA);
      return Ok(());
    }
  }

  class ChunkRequest {
    var height: uint64
    var format: uint32
    var index: uint32

    function Value(): ChunkRequestMsg
      reads this
    {
      ChunkRequestMsg(height, format, index)
    }

    constructor ()
      ensures Value() == EMPTY_CHUNK_REQUEST
    {
      height, format, index := 0, 0, 0;
    }

    method Size() returns (n: nat)
      ensures n == |Encode(ChunkRequestFields(Value()))|
    {
      hide Sov, Encode, VarintField, BytesField, FixedField;
      n := 0;
      if height != 0 { n := n + 1 + Sov(height); }
      if format != 0 { n := n + 1 + Sov(format); }
      if index != 0 { n := n + 1 + Sov(index); }
      ChunkRequestSize(Value());
    }

    method MarshalToSizedBuffer(dAtA: array<byte>, lo: nat, hi: nat) returns (n: nat)
      requires |Encode(ChunkRequestFields(Value()))| <= MAX_LEN
      requires lo + |Encode(ChunkRequestFields(Value()))| <= hi <= dAtA.Length
      modifies dAtA
      ensures n == |Encode(ChunkRequestFields(Value()))|
      ensures dAtA[..] == Put(old(dAtA[..]), hi, Encode(ChunkRequestFields(Value())))
    {
      hide Encode, Put, VarintField, BytesField, FixedField;
      ghost var was := dAtA[..];
      ghost var a := Encode(VarintField(1, height));
      ghost var b := Encode(VarintField(2, format));
      ghost var c := Encode(VarintField(3, index));
      EncodeThree(VarintField(1, height), VarintField(2, format), VarintField(3, index));
      var i := WriteVarint(dAtA, hi, 3, index);
      i := WriteVarint(dAtA, i, 2, format);
      PutPut(was, hi, c, b);
      i := WriteVarint(dAtA, i, 1, height);
      PutPut(was, hi, b + c, a);
      return hi - i;
    }

    method Unmarshal(dAtA: bytes) returns (r: Result<()>)
      requires |dAtA| <= MAX_LEN
      modifies this
      ensures Agrees(Decode(ChunkRequestCodec(), old(Value()), dAtA), r, Value())
    {
      hide Decode, ReadTag, ReadPayload, Skip, Signed32, Signed64;
      var l, iNdEx := |dAtA|, 0;
      DecodeEnd(ChunkRequestCodec(), Value(), dAtA);
      while iNdEx < l
        invariant 0 <= iNdEx <= l
        invariant Decode(ChunkRequestCodec(), Value(), dAtA[iNdEx..]) == Decode(ChunkRequestCodec(), old(Value()), dAtA)
      {
        DecodeRound(ChunkRequestCodec(), Value(), dAtA, iNdEx);
        var tag :- DecodeTag(dAtA, iNdEx);
        assert dAtA[iNdEx..][tag.v.n..] == dAtA[tag.next..];
        match tag.v.field {
          case 1 =>
            var x :- VarintCase(dAtA, tag);
            height, iNdEx := x.v, x.next;
          case 2 =>
            var x :- Varint32Case(dAtA, tag);
            format, iNdEx := x.v, x.next;
          case 3 =>
            var x :- Varint32Case(dAtA, tag);
            index, iNdEx := x.v, x.next;
          case _ =>
            iNdEx :- SkipCase(dAtA, iNdEx);
        }
      }
      DecodeEnd(ChunkRequestCodec(), Value(), dAtA);
      return Ok(());
    }
  }

  class ChunkResponse {
    var height: uint64
    var format: uint32
    var index: uint32
    var chunk: Buf
    var missing: bool

    function Value(): ChunkResponseMsg
      reads this
    {
      ChunkResponseMsg(height, format, index, chunk, missing)
    }

    constructor ()
      ensures Value() == EMPTY_CHUNK_RESPONSE
    {
      height, format, index, chunk, missing := 0, 0, 0, Nil, false;
    }

    method Size() returns (n: nat)
      ensures n == |Encode(ChunkResponseFields(Value()))|
    {
      hide Sov, Encode, VarintField, BytesField, FixedField;
      n := 0;
      if height != 0 { n := n + 1 + Sov(height); }
      if format != 0 { n := n + 1 + Sov(format); }
      if index != 0 { n := n + 1 + Sov(index); }
      var l := |chunk.Data()|;
      if l > 0 { n := n + 1 + l + Sov(l); }
      if missing { n := n + 2; }
      ScalarSizes(1, 0, height, []);
      ScalarSizes(2, 0, format, []);
      ScalarSizes(3, 0, index, []);
      ScalarSizes(4, 0, 0, chunk.Data());
      ScalarSizes(5, 0, if missing then 1 else 0, []);
      SovOfOne();
      EncodeFive(VarintField(1, height), VarintField(2, format), VarintField(3, index),
                 BytesField(4, chunk.Data()), VarintField(5, if missing then 1 else 0));
    }

    method MarshalToSizedBuffer(dAtA: array<byte>, lo: nat, hi: nat) returns (n: nat)
      requires |Encode(ChunkResponseFields(Value()))| <= MAX_LEN
      requires lo + |Encode(ChunkResponseFields(Value()))| <= hi <= dAtA.Length
      modifies dAtA
      ensures n == |Encode(ChunkResponseFields(Value()))|
      ensures dAtA[..] == Put(old(dAtA[..]), hi, Encode(ChunkResponseFields(Value())))
    {
      hide Encode, Put, VarintField, BytesField, FixedField;
      ghost var was := dAtA[..];
      ghost var a := Encode(VarintField(1, height));
      ghost var b := Encode(VarintField(2, format));
      ghost var c := Encode(VarintField(3, index));
      ghost var d := Encode(BytesField(4, chunk.Data()));
      ghost var e := Encode(VarintField(5, if missing then 1 else 0));
      EncodeFive(VarintField(1, height), VarintField(2, format), VarintField(3, index),
                 BytesField(4, chunk.Data()), VarintField(5, if missing then 1 else 0));
      var i := WriteBool(dAtA, hi, 5, missing);
      i := WriteBytes(dAtA, i, 4, chunk.Data());
      PutPut(was, hi, e, d);
      i := WriteVarint(dAtA, i, 3, index);
      PutPut(was, hi, d + e, c);
      i := WriteVarint(dAtA, i, 2, format);
      PutPut(was, hi, c + (d + e), b);
      i := WriteVarint(dAtA, i, 1, height);
      PutPut(was, hi, b + (c + (d + e)), a);
      return hi - i;
    }

    method Unmarshal(dAtA: bytes) returns (r: Result<()>)
      requires |dAtA| <= MAX_LEN
      modifies this
      ensures Agrees(Decode(ChunkResponseCodec(), old(Value()), dAtA), r, Value())
    {
      hide Decode, ReadTag, ReadPayload, Skip, Signed32, Signed64;
      var l, iNdEx := |dAtA|, 0;
      DecodeEnd(ChunkResponseCodec(), Value(), dAtA);
      while iNdEx < l
        invariant 0 <= iNdEx <= l
        invariant Decode(ChunkResponseCodec(), Value(), dAtA[iNdEx..]) == Decode(ChunkResponseCodec(), old(Value()), dAtA)
      {
        DecodeRound(ChunkResponseCodec(), Value(), dAtA, iNdEx);
        var tag :- DecodeTag(dAtA, iNdEx);
        assert dAtA[iNdEx..][tag.v.n..] == dAtA[tag.next..];
        match tag.v.field {
          case 1 =>
            var x :- VarintCase(dAtA, tag);
            height, iNdEx := x.v, x.next;
          case 2 =>
            var x :- Varint32Case(dAtA, tag);
            format, iNdEx := x.v, x.next;
          case 3 =>
            var x :- Varint32Case(dAtA, tag);
            index, iNdEx := x.v, x.next;
          case 4 =>
            var x :- BytesCase(dAtA, tag);
            chunk, iNdEx := Buf(x.v), x.next;
          case 5 =>
            var x :- VarintCase(dAtA, tag);
            missing, iNdEx := x.v != 0, x.next;
          case _ =>
            iNdEx :- SkipCase(dAtA, iNdEx);
        }
      }
      DecodeEnd(ChunkResponseCodec(), Value(), dAtA);
      return Ok(());
    }
  }

  // ---------------------------------------------------------------------------------------
  // The oneof
  // ---------------------------------------------------------------------------------------

  /** `isMessage_Sum`: nil, or a pointer to one of the four wrappers, itself nil or around a pointer. */
  datatype SumRef =
    | NoSumRef
    | NilWrapperRef(kind: nat)
    | SnapshotsRequestRef(s: SnapshotsRequest?)
    | SnapshotsResponseRef(r: SnapshotsResponse?)
    | ChunkRequestRef(q: ChunkRequest?)
    | ChunkResponseRef(c: ChunkResponse?)

  ghost function Referents(sum: SumRef): set<object?> {
    match sum
    case NoSumRef => {}
    case NilWrapperRef(_) => {}
    case SnapshotsRequestRef(p) => {p}
    case SnapshotsResponseRef(p) => {p}
    case ChunkRequestRef(p) => {p}
    case ChunkResponseRef(p) => {p}
  }

  ghost function SumValue(sum: SumRef): Sum
    reads Referents(sum)
  {
    match sum
    case NoSumRef => NoSum
    case NilWrapperRef(kind) => NilWrapper(kind)
    case SnapshotsRequestRef(p) => Member(if p == null then NilOf(1) else To(StateSync.SnapshotsRequest(p.Value())))
    case SnapshotsResponseRef(p) => Member(if p == null then NilOf(2) else To(StateSync.SnapshotsResponse(p.Value())))
    case ChunkRequestRef(p) => Member(if p == null then NilOf(3) else To(StateSync.ChunkRequest(p.Value())))
    case ChunkResponseRef(p) => Member(if p == null then NilOf(4) else To(StateSync.ChunkResponse(p.Value())))
  }

  class Message {
    var sum: SumRef

    ghost function Value(): MessageMsg
      reads this, Referents(sum)
    {
      MessageMsg(SumValue(sum))
    }

    constructor ()
      ensures Value() == MessageMsg(NoSum)
    {
      sum := NoSumRef;
    }

    /** The size of the payload of a wrapper that is not empty. */
    method PayloadSize() returns (n: nat)
      requires Value().sum.Member? && Value().sum.p.To?
      ensures n == |BodyBytes(Value().sum.p.body)|
    {
      match sum {
        case SnapshotsRequestRef(p) => n := p.Size();
        case SnapshotsResponseRef(p) => n := p.Size();
        case ChunkRequestRef(p) => n := p.Size();
        case ChunkResponseRef(p) => n := p.Size();
      }
    }

    /** Whether the wrapper holds a payload: `m.X != nil`. */
    method HasPayload() returns (b: bool)
      ensures b <==> Value().sum.Member? && Value().sum.p.To?
    {
      match sum {
        case NoSumRef => b := false;
        case NilWrapperRef(_) => b := false;
        case SnapshotsRequestRef(p) => b := p != null;
        case SnapshotsResponseRef(p) => b := p != null;
        case ChunkRequestRef(p) => b := p != null;
        case ChunkResponseRef(p) => b := p != null;
      }
    }

    method Size() returns (n: nat)
      ensures n == |MessageBytes(Value())|
    {
      hide Sov, BodyBytes;
      n := 0;
      var present := HasPayload();
      if present {
        var l := PayloadSize();
        n := 1 + l + Sov(l);
        ghost var b := Value().sum.p.body;
        RecordSize(Record(b.Kind(), BytesP(BodyBytes(b))));
        OneRecord(Record(b.Kind(), BytesP(BodyBytes(b))));
      }
    }

    /** The payload's own marshaller. */
    method MarshalPayload(dAtA: array<byte>, lo: nat, hi: nat) returns (n: nat)
      requires Value().sum.Member? && Value().sum.p.To?
      requires |BodyBytes(Value().sum.p.body)| <= MAX_LEN
      requires lo + |BodyBytes(Value().sum.p.body)| <= hi <= dAtA.Length
      modifies dAtA
      ensures n == |BodyBytes(Value().sum.p.body)|
      ensures dAtA[..] == Put(old(dAtA[..]), hi, BodyBytes(Value().sum.p.body))
    {
      hide Encode;
      PutNothing(dAtA[..], hi);
      match sum {
        case SnapshotsRequestRef(p) => n := p.MarshalToSizedBuffer(dAtA, lo, hi);
        case SnapshotsResponseRef(p) => n := p.MarshalToSizedBuffer(dAtA, lo, hi);
        case ChunkRequestRef(p) => n := p.MarshalToSizedBuffer(dAtA, lo, hi);
        case ChunkResponseRef(p) => n := p.MarshalToSizedBuffer(dAtA, lo, hi);
      }
    }

    function Tag(): (k: nat)
      reads this
      ensures k <= 4
    {
      match sum
      case NoSumRef => 0
      case NilWrapperRef(_) => 0
      case SnapshotsRequestRef(_) => 1
      case SnapshotsResponseRef(_) => 2
      case ChunkRequestRef(_) => 3
      case ChunkResponseRef(_) => 4
    }

    /** `Message_X.MarshalToSizedBuffer` on `dAtA[lo:hi]`. */
    method MarshalWrapper(dAtA: array<byte>, lo: nat, hi: nat) returns (n: nat)
      requires HasWrapper(Value()) && |MessageBytes(Value())| <= MAX_LEN
      requires lo + |MessageBytes(Value())| <= hi <= dAtA.Length
      modifies dAtA
      ensures n == |MessageBytes(Value())|
      ensures dAtA[..] == Put(old(dAtA[..]), hi, MessageBytes(Value()))
    {
      hide Encode, Put, BodyBytes, Record.Bytes;
      ghost var was, m := dAtA[..], Value();
      var i: int := hi;
      PutNothing(was, hi);
      var present := HasPayload();
      if present {
        ghost var b := m.sum.p.body;
        OneRecord(Record(b.Kind(), BytesP(BodyBytes(b))));
        PayloadShorter(b.Kind(), BodyBytes(b));
        var size := MarshalPayload(dAtA, lo, i);
        i := i - size;
        i := PutPrefix(dAtA, i, Tag(), size, was, BodyBytes(b));
      } else {
        EncodeNothing();
      }
      return hi - i;
    }

    /** `Sum.MarshalTo(dAtA[lo:hi])`: the wrapper is measured again and marshalled into the front of
        the suffix it was given. */
    method SumMarshalTo(dAtA: array<byte>, lo: nat, hi: nat) returns (n: nat)
      requires HasWrapper(Value()) && |MessageBytes(Value())| <= MAX_LEN
      requires lo + |MessageBytes(Value())| <= hi <= dAtA.Length
      modifies dAtA
      ensures n == |MessageBytes(Value())|
      ensures dAtA[..] == Put(old(dAtA[..]), lo + n, MessageBytes(Value()))
    {
      hide Encode, Put, BodyBytes;
      var size := Size();
      n := MarshalWrapper(dAtA, lo, lo + size);
    }

    /** Because the suffix is exactly as long as the wrapper, its front is its end. */
    method MarshalToSizedBuffer(dAtA: array<byte>, lo: nat, hi: nat) returns (n: nat)
      requires HasWrapper(Value()) && |MessageBytes(Value())| <= MAX_LEN
      requires lo + |MessageBytes(Value())| <= hi <= dAtA.Length
      modifies dAtA
      ensures n == |MessageBytes(Value())|
      ensures dAtA[..] == Put(old(dAtA[..]), hi, MessageBytes(Value()))
    {
      hide Encode, Put;
      var i := hi;
      PutNothing(dAtA[..], hi);
      EncodeNothing();
      if sum != NoSumRef {
        var size := Size();
        i := i - size;
        var _ := SumMarshalTo(dAtA, i, hi);
      }
      return hi - i;
    }

    method Marshal() returns (dAtA: array<byte>)
      requires HasWrapper(Value()) && |MessageBytes(Value())| <= MAX_LEN
      ensures fresh(dAtA) && dAtA[..] == MessageBytes(Value())
    {
      hide Encode, Put, BodyBytes;
      ghost var m := Value();
      var size := Size();
      dAtA := new byte[size](_ => 0);
      assert Value() == m;
      var n := MarshalToSizedBuffer(dAtA, 0, size);
      PutAll(size, MessageBytes(m));
    }

    /** `v := &X{}; v.Unmarshal(…)`, before it is assigned to `m.Sum`. */
    method FreshMember(kind: int, payload: bytes) returns (r: Result<SumRef>)
      requires 1 <= kind <= 4 && |payload| <= MAX_LEN
      ensures match DecodeBody(kind, payload)
              case Err(e) => r == Err(e)
              case Ok(body) => r.Ok? && fresh(Referents(r.value)) && SumValue(r.value) == Member(To(body))
    {
      hide Decode;
      match kind {
        case 1 =>
          var v := new SnapshotsRequest();
          var _ :- v.Unmarshal(payload);
          return Ok(SnapshotsRequestRef(v));
        case 2 =>
          var v := new SnapshotsResponse();
          var _ :- v.Unmarshal(payload);
          return Ok(SnapshotsResponseRef(v));
        case 3 =>
          var v := new ChunkRequest();
          var _ :- v.Unmarshal(payload);
          return Ok(ChunkRequestRef(v));
        case _ =>
          var v := new ChunkResponse();
          var _ :- v.Unmarshal(payload);
          return Ok(ChunkResponseRef(v));
      }
    }

    method Unmarshal(dAtA: bytes) returns (r: Result<()>)
      requires |dAtA| <= MAX_LEN
      modifies this
      ensures Agrees(Decode(MessageCodec(), old(Value()), dAtA), r, Value())
    {
      hide Decode, ReadTag, ReadPayload, Skip, DecodeBody;
      var l, iNdEx := |dAtA|, 0;
      DecodeEnd(MessageCodec(), Value(), dAtA);
      while iNdEx < l
        invariant 0 <= iNdEx <= l
        invariant Decode(MessageCodec(), Value(), dAtA[iNdEx..]) == Decode(MessageCodec(), old(Value()), dAtA)
      {
        DecodeRound(MessageCodec(), Value(), dAtA, iNdEx);
        var tag :- DecodeTag(dAtA, iNdEx);
        assert dAtA[iNdEx..][tag.v.n..] == dAtA[tag.next..];
        if 1 <= tag.v.field <= 4 {
          var x :- BytesCase(dAtA, tag);
          var member :- FreshMember(tag.v.field, x.v);
          sum, iNdEx := member, x.next;
        } else {
          iNdEx :- SkipCase(dAtA, iNdEx);
        }
      }
      DecodeEnd(MessageCodec(), Value(), dAtA);
      return Ok(());
    }
  }
}
