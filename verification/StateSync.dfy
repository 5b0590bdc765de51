/**
  The messages of proto/tendermint/statesync/types.pb.go on values, the oneof that carries them,
  and the Wrap and Unwrap functions of message.go around it.
*/
module StateSync {
  import opened Wire
  import opened Decoding
  import opened Fields
  import opened Occurrences
  import opened Int32

  datatype SnapshotsRequestMsg = SnapshotsRequestMsg
  datatype SnapshotsResponseMsg =
    SnapshotsResponseMsg(height: uint64, format: uint32, chunks: uint32, hash: Buf, metadata: Buf)
  datatype ChunkRequestMsg = ChunkRequestMsg(height: uint64, format: uint32, index: uint32)
  datatype ChunkResponseMsg =
    ChunkResponseMsg(height: uint64, format: uint32, index: uint32, chunk: Buf, missing: bool)

  const EMPTY_SNAPSHOTS_RESPONSE := SnapshotsResponseMsg(0, 0, 0, Nil, Nil)
  const EMPTY_CHUNK_REQUEST := ChunkRequestMsg(0, 0, 0)
  const EMPTY_CHUNK_RESPONSE := ChunkResponseMsg(0, 0, 0, Nil, false)

  /** The four kinds of message, the number being the oneof field that carries the kind. */
  datatype Body =
    | SnapshotsRequest(m: SnapshotsRequestMsg)
    | SnapshotsResponse(r: SnapshotsResponseMsg)
    | ChunkRequest(q: ChunkRequestMsg)
    | ChunkResponse(c: ChunkResponseMsg)
  {
    function Kind(): (k: nat)
      ensures 1 <= k <= 4
    {
      match this
      case SnapshotsRequest(_) => 1
      case SnapshotsResponse(_) => 2
      case ChunkRequest(_) => 3
      case ChunkResponse(_) => 4
    }
  }

  /** A pointer to one of them: a nil pointer still has its kind. */
  datatype Pointer = NilOf(kind: nat) | To(body: Body)

  /** `Message.Sum`: nil, or a pointer to a wrapper, itself nil or around a pointer. */
  datatype Sum = NoSum | NilWrapper(kind: nat) | Member(p: Pointer)

  datatype MessageMsg = MessageMsg(sum: Sum)

  // ---------------------------------------------------------------------------------------
  // Decoders
  // ---------------------------------------------------------------------------------------

  function SnapshotsRequestCodec(): (c: Codec<SnapshotsRequestMsg>)
    ensures c.Valid()
  {
    Codec(NothingWanted, NothingApplied)
  }

  function NothingWanted(field: int): Option<nat> { None }

  function NothingApplied(m: SnapshotsRequestMsg, field: int, p: Payload): Result<SnapshotsRequestMsg> { Ok(m) }

  function SnapshotsResponseWants(field: int): Option<nat> {
    if 1 <= field <= 3 then Some(0) else if field == 4 || field == 5 then Some(2) else None
  }

  function SnapshotsResponseApply(m: SnapshotsResponseMsg, field: int, p: Payload): Result<SnapshotsResponseMsg> {
    match p
    case VarintP(v) =>
      if field == 1 then Ok(m.(height := v))
      else if field == 2 then Ok(m.(format := Unsigned32(v)))
      else Ok(m.(chunks := Unsigned32(v)))
    case BytesP(b) => if field == 4 then Ok(m.(hash := Buf(b))) else Ok(m.(metadata := Buf(b)))
    case FixedP(_) => Ok(m)
  }

  function SnapshotsResponseCodec(): (c: Codec<SnapshotsResponseMsg>)
    ensures c.Valid()
  {
    Codec(SnapshotsResponseWants, SnapshotsResponseApply)
  }

  function ChunkRequestWants(field: int): Option<nat> {
    if 1 <= field <= 3 then Some(0) else None
  }

  function ChunkRequestApply(m: ChunkRequestMsg, field: int, p: Payload): Result<ChunkRequestMsg> {
    match p
    case VarintP(v) =>
      if field == 1 then Ok(m.(height := v))
      else if field == 2 then Ok(m.(format := Unsigned32(v)))
      else Ok(m.(index := Unsigned32(v)))
    case _ => Ok(m)
  }

  function ChunkRequestCodec(): (c: Codec<ChunkRequestMsg>)
    ensures c.Valid()
  {
    Codec(ChunkRequestWants, ChunkRequestApply)
  }

  function ChunkResponseWants(field: int): Option<nat> {
    if 1 <= field <= 3 || field == 5 then Some(0) else if field == 4 then Some(2) else None
  }

  function ChunkResponseApply(m: ChunkResponseMsg, field: int, p: Payload): Result<ChunkResponseMsg> {
    match p
    case VarintP(v) =>
      if field == 1 then Ok(m.(height := v))
      else if field == 2 then Ok(m.(format := Unsigned32(v)))
      else if field == 3 then Ok(m.(index := Unsigned32(v)))
      else Ok(m.(missing := v != 0))
    case BytesP(b) => Ok(m.(chunk := Buf(b)))
    case FixedP(_) => Ok(m)
  }

  function ChunkResponseCodec(): (c: Codec<ChunkResponseMsg>)
    ensures c.Valid()
  {
    Codec(ChunkResponseWants, ChunkResponseApply)
  }

  /** `v := &X{}; v.Unmarshal(…)` for the kind that the field carries. */
  function DecodeBody(kind: int, b: bytes): Result<Body> {
    if kind == 1 then Boxed(Decode(SnapshotsRequestCodec(), SnapshotsRequestMsg, b), m => SnapshotsRequest(m))
    else if kind == 2 then Boxed(Decode(SnapshotsResponseCodec(), EMPTY_SNAPSHOTS_RESPONSE, b), m => SnapshotsResponse(m))
    else if kind == 3 then Boxed(Decode(ChunkRequestCodec(), EMPTY_CHUNK_REQUEST, b), m => ChunkRequest(m))
    else Boxed(Decode(ChunkResponseCodec(), EMPTY_CHUNK_RESPONSE, b), m => ChunkResponse(m))
  }

  function Boxed<M>(r: Result<M>, box: M -> Body): Result<Body> {
    match r case Err(e) => Err(e) case Ok(m) => Ok(box(m))
  }

  function MessageWants(field: int): Option<nat> {
    if 1 <= field <= 4 then Some(2) else None
  }

  function MessageApply(m: MessageMsg, field: int, p: Payload): Result<MessageMsg> {
    match p
    case BytesP(b) =>
      (match DecodeBody(field, b) case Err(e) => Err(e) case Ok(body) => Ok(MessageMsg(Member(To(body)))))
    case _ => Ok(m)
  }

  function MessageCodec(): (c: Codec<MessageMsg>)
    ensures c.Valid()
  {
    Codec(MessageWants, MessageApply)
  }

  // ---------------------------------------------------------------------------------------
  // Marshallers
  // ---------------------------------------------------------------------------------------

  function SnapshotsResponseFields(m: SnapshotsResponseMsg): seq<Record> {
    VarintField(1, m.height) + VarintField(2, m.format) + VarintField(3, m.chunks)
    + BytesField(4, m.hash.Data()) + BytesField(5, m.metadata.Data())
  }

  function ChunkRequestFields(m: ChunkRequestMsg): seq<Record> {
    VarintField(1, m.height) + VarintField(2, m.format) + VarintField(3, m.index)
  }

  function ChunkResponseFields(m: ChunkResponseMsg): seq<Record> {
    VarintField(1, m.height) + VarintField(2, m.format) + VarintField(3, m.index)
    + BytesField(4, m.chunk.Data()) + VarintField(5, if m.missing then 1 else 0)
  }

  function BodyBytes(b: Body): bytes {
    match b
    case SnapshotsRequest(m) => []
    case SnapshotsResponse(m) => Encode(SnapshotsResponseFields(m))
    case ChunkRequest(m) => Encode(ChunkRequestFields(m))
    case ChunkResponse(m) => Encode(ChunkResponseFields(m))
  }

  function MessageFields(m: MessageMsg): seq<Record> {
    if m.sum.Member? && m.sum.p.To? then [Record(m.sum.p.body.Kind(), BytesP(BodyBytes(m.sum.p.body)))] else []
  }

  /** The size pass counts nothing for a nil wrapper; marshalling and unwrapping would dereference it. */
  predicate HasWrapper(m: MessageMsg) { !m.sum.NilWrapper? }

  function MessageBytes(m: MessageMsg): bytes { Encode(MessageFields(m)) }

  // ---------------------------------------------------------------------------------------
  // Wrap and Unwrap
  // ---------------------------------------------------------------------------------------

  function Wrap(p: Pointer): MessageMsg { MessageMsg(Member(p)) }

  /** `None` is the error for a message without a member. */
  function Unwrap(m: MessageMsg): Option<Pointer>
    requires HasWrapper(m)
  {
    if m.sum.NoSum? then None else Some(m.sum.p)
  }

  // ---------------------------------------------------------------------------------------
  // Round trips
  // ---------------------------------------------------------------------------------------

  function Normal(b: Body): Body {
    match b
    case SnapshotsRequest(_) => b
    case SnapshotsResponse(m) => SnapshotsResponse(m.(hash := m.hash.Normal(), metadata := m.metadata.Normal()))
    case ChunkRequest(_) => b
    case ChunkResponse(m) => ChunkResponse(m.(chunk := m.chunk.Normal()))
  }

  lemma WordsStay(a: uint64, b: uint32, c: uint32)
    ensures Unsigned64(a) == a && Unsigned32(Unsigned64(b)) == b && Unsigned32(Unsigned64(c)) == c
  {
  }

  lemma SnapshotsResponseFold(m: SnapshotsResponseMsg)
    ensures Fold(SnapshotsResponseCodec(), EMPTY_SNAPSHOTS_RESPONSE, SnapshotsResponseFields(m))
            == Ok(m.(hash := m.hash.Normal(), metadata := m.metadata.Normal()))
  {
    hide Fold, Unsigned32, Unsigned64;
    WordsStay(m.height, m.format, m.chunks);
    var codec, m0 := SnapshotsResponseCodec(), EMPTY_SNAPSHOTS_RESPONSE;
    var a, b, c := VarintField(1, m.height), VarintField(2, m.format), VarintField(3, m.chunks);
    var d, e := BytesField(4, m.hash.Data()), BytesField(5, m.metadata.Data());
    var m1 := m0.(height := m.height);
    var m2 := m1.(format := m.format);
    var m3 := m2.(chunks := m.chunks);
    var m4 := m3.(hash := m.hash.Normal());
    FoldFirst(codec, m0, a, m1);
    FoldPush(codec, m0, a, m1, b, m2);
    FoldPush(codec, m0, a + b, m2, c, m3);
    FoldPush(codec, m0, a + b + c, m3, d, m4);
    FoldPush(codec, m0, a + b + c + d, m4, e, m4.(metadata := m.metadata.Normal()));
  }

  lemma SnapshotsResponseRoundTrip(m: SnapshotsResponseMsg)
    requires |Encode(SnapshotsResponseFields(m))| <= MAX_LEN
    ensures Decode(SnapshotsResponseCodec(), EMPTY_SNAPSHOTS_RESPONSE, Encode(SnapshotsResponseFields(m)))
            == Ok(m.(hash := m.hash.Normal(), metadata := m.metadata.Normal()))
  {
    hide Fold, Decode, Encode;
    DecodeFields(SnapshotsResponseCodec(), EMPTY_SNAPSHOTS_RESPONSE, SnapshotsResponseFields(m));
    SnapshotsResponseFold(m);
  }

  lemma ChunkRequestRoundTrip(m: ChunkRequestMsg)
    requires |Encode(ChunkRequestFields(m))| <= MAX_LEN
    ensures Decode(ChunkRequestCodec(), EMPTY_CHUNK_REQUEST, Encode(ChunkRequestFields(m))) == Ok(m)
  {
    hide Fold, Decode, Encode, Unsigned32, Unsigned64;
    WordsStay(m.height, m.format, m.index);
    var codec, m0 := ChunkRequestCodec(), EMPTY_CHUNK_REQUEST;
    var a, b, c := VarintField(1, m.height), VarintField(2, m.format), VarintField(3, m.index);
    var m1 := m0.(height := m.height);
    var m2 := m1.(format := m.format);
    DecodeFields(codec, m0, ChunkRequestFields(m));
    FoldFirst(codec, m0, a, m1);
    FoldPush(codec, m0, a, m1, b, m2);
    FoldPush(codec, m0, a + b, m2, c, m);
  }

  lemma ChunkResponseFold(m: ChunkResponseMsg)
    ensures Fold(ChunkResponseCodec(), EMPTY_CHUNK_RESPONSE, ChunkResponseFields(m)) == Ok(m.(chunk := m.chunk.Normal()))
  {
    hide Fold, Unsigned32, Unsigned64;
    WordsStay(if m.missing then 1 else 0, 0, 0);
    WordsStay(m.height, m.format, m.index);
    var codec, m0 := ChunkResponseCodec(), EMPTY_CHUNK_RESPONSE;
    var a, b, c := VarintField(1, m.height), VarintField(2, m.format), VarintField(3, m.index);
    var d, e := BytesField(4, m.chunk.Data()), VarintField(5, if m.missing then 1 else 0);
    var m1 := m0.(height := m.height);
    var m2 := m1.(format := m.format);
    var m3 := m2.(index := m.index);
    var m4 := m3.(chunk := m.chunk.Normal());
    FoldFirst(codec, m0, a, m1);
    FoldPush(codec, m0, a, m1, b, m2);
    FoldPush(codec, m0, a + b, m2, c, m3);
    FoldPush(codec, m0, a + b + c, m3, d, m4);
    FoldPush(codec, m0, a + b + c + d, m4, e, m4.(missing := m.missing));
  }

  lemma ChunkResponseRoundTrip(m: ChunkResponseMsg)
    requires |Encode(ChunkResponseFields(m))| <= MAX_LEN
    ensures Decode(ChunkResponseCodec(), EMPTY_CHUNK_RESPONSE, Encode(ChunkResponseFields(m)))
            == Ok(m.(chunk := m.chunk.Normal()))
  {
    hide Fold, Decode, Encode;
    DecodeFields(ChunkResponseCodec(), EMPTY_CHUNK_RESPONSE, ChunkResponseFields(m));
    ChunkResponseFold(m);
  }

  lemma BodyRoundTrip(b: Body)
    requires |BodyBytes(b)| <= MAX_LEN
    ensures DecodeBody(b.Kind(), BodyBytes(b)) == Ok(Normal(b))
  {
    match b
    case SnapshotsRequest(m) => assert m == SnapshotsRequestMsg;
    case SnapshotsResponse(m) => SnapshotsResponseRoundTrip(m);
    case ChunkRequest(m) => ChunkRequestRoundTrip(m);
    case ChunkResponse(m) => ChunkResponseRoundTrip(m);
  }

  /** A wrapped message overwrites whatever member the receiver had: nothing is merged. */
  lemma WrappedReplaces(m: MessageMsg, b: Body)
    requires |MessageBytes(Wrap(To(b)))| <= MAX_LEN
    ensures Decode(MessageCodec(), m, MessageBytes(Wrap(To(b)))) == Ok(Wrap(To(Normal(b))))
  {
    hide Fold, Decode, Encode, BodyBytes, DecodeBody;
    var rs := MessageFields(Wrap(To(b)));
    DecodeFields(MessageCodec(), m, rs);
    RecordNotLonger(rs, rs[0]);
    PayloadShorter(b.Kind(), BodyBytes(b));
    BodyRoundTrip(b);
    FoldOne(MessageCodec(), m, rs[0]);
  }

  /** Wrap, marshal, unmarshal into a fresh message and unwrap: the message comes back, and only a nil
      pointer does not, because it leaves no trace on the wire. */
  lemma WrapUnwrap(p: Pointer)
    requires |MessageBytes(Wrap(p))| <= MAX_LEN
    ensures var r := Decode(MessageCodec(), MessageMsg(NoSum), MessageBytes(Wrap(p)));
            r.Ok? && HasWrapper(r.value) && Unwrap(r.value) == if p.To? then Some(To(Normal(p.body))) else None
  {
    if p.To? {
      WrappedReplaces(MessageMsg(NoSum), p.body);
    }
  }

  function EncodeAll(bs: seq<Body>): bytes {
    if bs == [] then [] else MessageBytes(Wrap(To(bs[0]))) + EncodeAll(bs[1..])
  }

  /** Of a concatenation of wrapped messages only the last is left. */
  lemma {:induction false} LastMemberWins(m: MessageMsg, bs: seq<Body>)
    requires bs != [] && forall b <- bs :: |MessageBytes(Wrap(To(b)))| <= MAX_LEN
    ensures Decode(MessageCodec(), m, EncodeAll(bs)) == Ok(Wrap(To(Normal(bs[|bs| - 1]))))
    decreases bs
  {
    hide Decode, MessageBytes, Normal;
    var first, rest := MessageBytes(Wrap(To(bs[0]))), EncodeAll(bs[1..]);
    WrappedReplaces(m, bs[0]);
    DecodeConcat(MessageCodec(), m, first, rest);
    if |bs| == 1 {
      assert first + rest == first;
    } else {
      LastMemberWins(Wrap(To(Normal(bs[0]))), bs[1..]);
    }
  }

  /** Two messages have the same bytes exactly when they differ at most in nil against empty bytes
      and in which nil member they hold. */
  lemma MessageBytesInjective(m: MessageMsg, x: MessageMsg)
    requires HasWrapper(m) && HasWrapper(x) && |MessageBytes(m)| <= MAX_LEN
    ensures MessageBytes(m) == MessageBytes(x) <==> Visible(m) == Visible(x)
  {
    hide Decode, Encode, BodyBytes;
    if MessageBytes(m) == MessageBytes(x) {
      DecodesToVisible(m);
      DecodesToVisible(x);
    }
    SameBytes(m);
    SameBytes(x);
  }

  /** What of a message reaches the wire. */
  function Visible(m: MessageMsg): Option<Body> {
    if m.sum.Member? && m.sum.p.To? then Some(Normal(m.sum.p.body)) else None
  }

  lemma DecodesToVisible(m: MessageMsg)
    requires |MessageBytes(m)| <= MAX_LEN
    ensures Decode(MessageCodec(), MessageMsg(NoSum), MessageBytes(m))
            == Ok(if Visible(m).None? then MessageMsg(NoSum) else Wrap(To(Visible(m).value)))
  {
    if m.sum.Member? && m.sum.p.To? {
      WrappedReplaces(MessageMsg(NoSum), m.sum.p.body);
    }
  }

  lemma SameBytes(m: MessageMsg)
    ensures MessageBytes(m) == if Visible(m).None? then [] else MessageBytes(Wrap(To(Visible(m).value)))
  {
    hide Encode;
    if m.sum.Member? && m.sum.p.To? {
      var b := m.sum.p.body;
      assert BodyBytes(Normal(b)) == BodyBytes(b);
    } else {
      OneRecord(Record(1, VarintP(0)));
      assert MessageFields(m) == [];
      EncodeNothing();
    }
  }

  // ---------------------------------------------------------------------------------------
  // Growth
  // ---------------------------------------------------------------------------------------

  lemma SnapshotsResponseSize(m: SnapshotsResponseMsg)
    ensures |Encode(SnapshotsResponseFields(m))| ==
            VarintSize(m.height) + VarintSize(m.format) + VarintSize(m.chunks)
            + BytesSize(m.hash.Data()) + BytesSize(m.metadata.Data())
  {
    hide Encode, VarintField, BytesField, VarintSize, BytesSize;
    EncodeFive(VarintField(1, m.height), VarintField(2, m.format), VarintField(3, m.chunks),
               BytesField(4, m.hash.Data()), BytesField(5, m.metadata.Data()));
    ScalarSizes(1, 0, m.height, []);
    ScalarSizes(2, 0, m.format, []);
    ScalarSizes(3, 0, m.chunks, []);
    ScalarSizes(4, 0, 0, m.hash.Data());
    ScalarSizes(5, 0, 0, m.metadata.Data());
  }

  lemma ChunkRequestSize(m: ChunkRequestMsg)
    ensures |Encode(ChunkRequestFields(m))| == VarintSize(m.height) + VarintSize(m.format) + VarintSize(m.index)
  {
    hide Encode, VarintField, VarintSize;
    EncodeThree(VarintField(1, m.height), VarintField(2, m.format), VarintField(3, m.index));
    ScalarSizes(1, 0, m.height, []);
    ScalarSizes(2, 0, m.format, []);
    ScalarSizes(3, 0, m.index, []);
  }

  lemma ChunkResponseSize(m: ChunkResponseMsg)
    ensures |Encode(ChunkResponseFields(m))| ==
            VarintSize(m.height) + VarintSize(m.format) + VarintSize(m.index)
            + BytesSize(m.chunk.Data()) + VarintSize(if m.missing then 1 else 0)
  {
    hide Encode, VarintField, BytesField, VarintSize, BytesSize;
    EncodeFive(VarintField(1, m.height), VarintField(2, m.format), VarintField(3, m.index),
               BytesField(4, m.chunk.Data()), VarintField(5, if m.missing then 1 else 0));
    ScalarSizes(1, 0, m.height, []);
    ScalarSizes(2, 0, m.format, []);
    ScalarSizes(3, 0, m.index, []);
    ScalarSizes(4, 0, 0, m.chunk.Data());
    ScalarSizes(5, 0, if m.missing then 1 else 0, []);
  }

  lemma BytesReading(b: bytes)
    ensures BytesSize(b) <= Delimited(|b|)
  {
  }

  /** A bool is written in two bytes, however it was spelled. */
  lemma BoolReading(v: uint64)
    ensures VarintSize(if v != 0 then 1 else 0) <= 1 + Sov(v)
  {
    SovOfOne();
    SmallerIsShorter(0, v);
    if v != 0 {
      SmallerIsShorter(1, v);
    }
  }

  lemma SnapshotsResponseField(m: SnapshotsResponseMsg, field: nat, p: Payload)
    requires field > 0 && SnapshotsResponseWants(field) == Some(p.WireType())
    ensures |Encode(SnapshotsResponseFields(SnapshotsResponseApply(m, field, p).value))|
            <= |Encode(SnapshotsResponseFields(m))| + |Record(field, p).Bytes()|
  {
    hide Encode, VarintSize, BytesSize, Delimited, Sov, Unsigned32, SnapshotsResponseFields, Record.Bytes;
    SnapshotsResponseSize(m);
    SnapshotsResponseSize(SnapshotsResponseApply(m, field, p).value);
    RecordSize(Record(field, p));
    if p.VarintP? {
      ReadingShrinks(p.v);
      SizeOfNonNegative(p.v);
    } else {
      BytesReading(p.b);
    }
  }

  lemma ChunkRequestField(m: ChunkRequestMsg, field: nat, p: Payload)
    requires field > 0 && ChunkRequestWants(field) == Some(p.WireType())
    ensures |Encode(ChunkRequestFields(ChunkRequestApply(m, field, p).value))|
            <= |Encode(ChunkRequestFields(m))| + |Record(field, p).Bytes()|
  {
    hide Encode, VarintSize, Sov, Unsigned32, ChunkRequestFields, Record.Bytes;
    ChunkRequestSize(m);
    ChunkRequestSize(ChunkRequestApply(m, field, p).value);
    RecordSize(Record(field, p));
    ReadingShrinks(p.v);
    SizeOfNonNegative(p.v);
  }

  lemma ChunkResponseField(m: ChunkResponseMsg, field: nat, p: Payload)
    requires field > 0 && ChunkResponseWants(field) == Some(p.WireType())
    ensures |Encode(ChunkResponseFields(ChunkResponseApply(m, field, p).value))|
            <= |Encode(ChunkResponseFields(m))| + |Record(field, p).Bytes()|
  {
    hide Encode, VarintSize, BytesSize, Delimited, Sov, Unsigned32, ChunkResponseFields, Record.Bytes;
    ChunkResponseSize(m);
    ChunkResponseSize(ChunkResponseApply(m, field, p).value);
    RecordSize(Record(field, p));
    if p.VarintP? {
      ReadingShrinks(p.v);
      SizeOfNonNegative(p.v);
      BoolReading(p.v);
    } else {
      BytesReading(p.b);
    }
  }

  lemma EmptyBodies()
    ensures Encode(SnapshotsResponseFields(EMPTY_SNAPSHOTS_RESPONSE)) == []
    ensures Encode(ChunkRequestFields(EMPTY_CHUNK_REQUEST)) == []
    ensures Encode(ChunkResponseFields(EMPTY_CHUNK_RESPONSE)) == []
  {
  }

  /** No member grows when it is decoded and written again. */
  lemma BodyReencodes(kind: int, b: bytes)
    requires 1 <= kind <= 4 && DecodeBody(kind, b).Ok?
    ensures |BodyBytes(DecodeBody(kind, b).value)| <= |b|
  {
    if kind == 2 {
      SnapshotsResponseReencodes(b);
    } else if kind == 3 {
      ChunkRequestReencodes(b);
    } else if kind == 4 {
      ChunkResponseReencodes(b);
    }
  }

  lemma SnapshotsResponseReencodes(b: bytes)
    requires Decode(SnapshotsResponseCodec(), EMPTY_SNAPSHOTS_RESPONSE, b).Ok?
    ensures |Encode(SnapshotsResponseFields(Decode(SnapshotsResponseCodec(), EMPTY_SNAPSHOTS_RESPONSE, b).value))| <= |b|
  {
    EmptyBodies();
    hide Decode, Encode, SnapshotsResponseFields, Record.Bytes;
    var c, size := SnapshotsResponseCodec(), (m: SnapshotsResponseMsg) => |Encode(SnapshotsResponseFields(m))|;
    forall m: SnapshotsResponseMsg, f: nat, p: Payload |
      c.apply(m, f, p).Ok? && c.wants(f) == Some(p.WireType()) && f > 0
      ensures size(c.apply(m, f, p).value) <= size(m) + |Record(f, p).Bytes()|
    {
      SnapshotsResponseField(m, f, p);
    }
    DecodeDoesNotGrow(c, size, EMPTY_SNAPSHOTS_RESPONSE, b);
  }

  lemma ChunkRequestReencodes(b: bytes)
    requires Decode(ChunkRequestCodec(), EMPTY_CHUNK_REQUEST, b).Ok?
    ensures |Encode(ChunkRequestFields(Decode(ChunkRequestCodec(), EMPTY_CHUNK_REQUEST, b).value))| <= |b|
  {
    EmptyBodies();
    hide Decode, Encode, ChunkRequestFields, Record.Bytes;
    var c, size := ChunkRequestCodec(), (m: ChunkRequestMsg) => |Encode(ChunkRequestFields(m))|;
    forall m: ChunkRequestMsg, f: nat, p: Payload |
      c.apply(m, f, p).Ok? && c.wants(f) == Some(p.WireType()) && f > 0
      ensures size(c.apply(m, f, p).value) <= size(m) + |Record(f, p).Bytes()|
    {
      ChunkRequestField(m, f, p);
    }
    DecodeDoesNotGrow(c, size, EMPTY_CHUNK_REQUEST, b);
  }

  lemma ChunkResponseReencodes(b: bytes)
    requires Decode(ChunkResponseCodec(), EMPTY_CHUNK_RESPONSE, b).Ok?
    ensures |Encode(ChunkResponseFields(Decode(ChunkResponseCodec(), EMPTY_CHUNK_RESPONSE, b).value))| <= |b|
  {
    EmptyBodies();
    hide Decode, Encode, ChunkResponseFields, Record.Bytes;
    var c, size := ChunkResponseCodec(), (m: ChunkResponseMsg) => |Encode(ChunkResponseFields(m))|;
    forall m: ChunkResponseMsg, f: nat, p: Payload |
      c.apply(m, f, p).Ok? && c.wants(f) == Some(p.WireType()) && f > 0
      ensures size(c.apply(m, f, p).value) <= size(m) + |Record(f, p).Bytes()|
    {
      ChunkResponseField(m, f, p);
    }
    DecodeDoesNotGrow(c, size, EMPTY_CHUNK_RESPONSE, b);
  }

  lemma MemberSize(b: Body)
    ensures |MessageBytes(Wrap(To(b)))| == Delimited(|BodyBytes(b)|)
  {
    hide Encode, BodyBytes, Delimited;
    OneRecord(Record(b.Kind(), BytesP(BodyBytes(b))));
    RecordSize(Record(b.Kind(), BytesP(BodyBytes(b))));
  }

  lemma MemberField(m: MessageMsg, field: nat, p: Payload)
    requires field > 0 && MessageWants(field) == Some(p.WireType()) && MessageApply(m, field, p).Ok?
    ensures |MessageBytes(MessageApply(m, field, p).value)| <= |MessageBytes(m)| + |Record(field, p).Bytes()|
  {
    hide Encode, BodyBytes, Delimited, DecodeBody, Record.Bytes, MessageBytes;
    var body := DecodeBody(field, p.b).value;
    BodyReencodes(field, p.b);
    MemberSize(body);
    DelimitedMonotone(|BodyBytes(body)|, |p.b|);
    RecordSize(Record(field, p));
  }

  /** Nor does the message around them. */
  lemma MessageReencodes(b: bytes)
    requires Decode(MessageCodec(), MessageMsg(NoSum), b).Ok?
    ensures |MessageBytes(Decode(MessageCodec(), MessageMsg(NoSum), b).value)| <= |b|
  {
    assert MessageBytes(MessageMsg(NoSum)) == [] by { EncodeNothing(); }
    hide Decode, MessageBytes, Record.Bytes, DecodeBody;
    var c, size := MessageCodec(), (m: MessageMsg) => |MessageBytes(m)|;
    forall m: MessageMsg, f: nat, p: Payload |
      c.apply(m, f, p).Ok? && c.wants(f) == Some(p.WireType()) && f > 0
      ensures size(c.apply(m, f, p).value) <= size(m) + |Record(f, p).Bytes()|
    {
      MemberField(m, f, p);
    }
    DecodeDoesNotGrow(c, size, MessageMsg(NoSum), b);
  }

  /** Whether an input is accepted does not depend on the receiver. */
  lemma CodecsAreBlind()
    ensures Blind(SnapshotsRequestCodec()) && Blind(SnapshotsResponseCodec()) && Blind(ChunkRequestCodec())
    ensures Blind(ChunkResponseCodec()) && Blind(MessageCodec())
  {
    hide DecodeBody;
  }

  // ---------------------------------------------------------------------------------------
  // What a decoded message owes to its input
  // ---------------------------------------------------------------------------------------

  function SnapshotsResponseAt(m: SnapshotsResponseMsg, rs: seq<Record>): SnapshotsResponseMsg {
    SnapshotsResponseMsg(Uint64At(rs, 1, m.height), Uint32At(rs, 2, m.format), Uint32At(rs, 3, m.chunks),
                         BytesAt(rs, 4, m.hash), BytesAt(rs, 5, m.metadata))
  }

  lemma {:induction false} SnapshotsResponseFolds(m: SnapshotsResponseMsg, rs: seq<Record>)
    requires Typed(SnapshotsResponseWants, rs)
    ensures Fold(SnapshotsResponseCodec(), m, rs) == Ok(SnapshotsResponseAt(m, rs))
    decreases |rs|
  {
    if rs != [] {
      hide Fold, Unsigned32;
      var init, r := rs[..|rs| - 1], rs[|rs| - 1];
      assert rs == init + [r];
      SnapshotsResponseFolds(m, init);
      FoldOneMore(SnapshotsResponseCodec(), m, init, r);
    }
  }

  /** Whatever the input and the receiver, every field is the last one of its number, an explicit 0 and
      empty bytes included, or else stays. */
  lemma SnapshotsResponseReads(m: SnapshotsResponseMsg, b: bytes)
    ensures Parse(SnapshotsResponseWants, b).Err? ==>
              Decode(SnapshotsResponseCodec(), m, b) == Err(Parse(SnapshotsResponseWants, b).error)
    ensures Parse(SnapshotsResponseWants, b).Ok? ==>
              var rs := Parse(SnapshotsResponseWants, b).value;
              Decode(SnapshotsResponseCodec(), m, b) == Ok(SnapshotsResponseAt(m, rs))
  {
    hide Decode, Parse, Fold;
    DecodeNeverRefuses(SnapshotsResponseCodec(), m, b);
    if Parse(SnapshotsResponseWants, b).Ok? {
      SnapshotsResponseFolds(m, Parse(SnapshotsResponseWants, b).value);
    }
  }

  function ChunkRequestAt(m: ChunkRequestMsg, rs: seq<Record>): ChunkRequestMsg {
    ChunkRequestMsg(Uint64At(rs, 1, m.height), Uint32At(rs, 2, m.format), Uint32At(rs, 3, m.index))
  }

  lemma {:induction false} ChunkRequestFolds(m: ChunkRequestMsg, rs: seq<Record>)
    requires Typed(ChunkRequestWants, rs)
    ensures Fold(ChunkRequestCodec(), m, rs) == Ok(ChunkRequestAt(m, rs))
    decreases |rs|
  {
    if rs != [] {
      hide Fold, Unsigned32;
      var init, r := rs[..|rs| - 1], rs[|rs| - 1];
      assert rs == init + [r];
      ChunkRequestFolds(m, init);
      FoldOneMore(ChunkRequestCodec(), m, init, r);
    }
  }

  /** The same for a ChunkRequest. */
  lemma ChunkRequestReads(m: ChunkRequestMsg, b: bytes)
    ensures Parse(ChunkRequestWants, b).Err? ==>
              Decode(ChunkRequestCodec(), m, b) == Err(Parse(ChunkRequestWants, b).error)
    ensures Parse(ChunkRequestWants, b).Ok? ==>
              var rs := Parse(ChunkRequestWants, b).value;
              Decode(ChunkRequestCodec(), m, b) == Ok(ChunkRequestAt(m, rs))
  {
    hide Decode, Parse, Fold;
    DecodeNeverRefuses(ChunkRequestCodec(), m, b);
    if Parse(ChunkRequestWants, b).Ok? {
      ChunkRequestFolds(m, Parse(ChunkRequestWants, b).value);
    }
  }

  function ChunkResponseAt(m: ChunkResponseMsg, rs: seq<Record>): ChunkResponseMsg {
    ChunkResponseMsg(Uint64At(rs, 1, m.height), Uint32At(rs, 2, m.format), Uint32At(rs, 3, m.index),
                     BytesAt(rs, 4, m.chunk), BoolAt(rs, 5, m.missing))
  }

  lemma {:induction false} ChunkResponseFolds(m: ChunkResponseMsg, rs: seq<Record>)
    requires Typed(ChunkResponseWants, rs)
    ensures Fold(ChunkResponseCodec(), m, rs) == Ok(ChunkResponseAt(m, rs))
    decreases |rs|
  {
    if rs != [] {
      hide Fold, Unsigned32;
      var init, r := rs[..|rs| - 1], rs[|rs| - 1];
      assert rs == init + [r];
      ChunkResponseFolds(m, init);
      FoldOneMore(ChunkResponseCodec(), m, init, r);
    }
  }

  /** The same for a ChunkResponse; `missing` is whether the last number under 5 is not 0. */
  lemma ChunkResponseReads(m: ChunkResponseMsg, b: bytes)
    ensures Parse(ChunkResponseWants, b).Err? ==>
              Decode(ChunkResponseCodec(), m, b) == Err(Parse(ChunkResponseWants, b).error)
    ensures Parse(ChunkResponseWants, b).Ok? ==>
              var rs := Parse(ChunkResponseWants, b).value;
              Decode(ChunkResponseCodec(), m, b) == Ok(ChunkResponseAt(m, rs))
  {
    hide Decode, Parse, Fold;
    DecodeNeverRefuses(ChunkResponseCodec(), m, b);
    if Parse(ChunkResponseWants, b).Ok? {
      ChunkResponseFolds(m, Parse(ChunkResponseWants, b).value);
    }
  }

  /** Every member that comes is accepted by its kind. */
  ghost predicate MembersAccepted(rs: seq<Record>) {
    forall i :: 0 <= i < |rs| ==> DecodeBody(rs[i].field, Raw(rs[i].payload)).Ok?
  }

  /** The member that came last. */
  function SumAt(rs: seq<Record>, was: Sum): Sum {
    if rs == [] then was
    else
      var body := DecodeBody(rs[|rs| - 1].field, Raw(rs[|rs| - 1].payload));
      if body.Ok? then Member(To(body.value)) else was
  }

  lemma {:induction false} MessageFolds(m: MessageMsg, rs: seq<Record>)
    requires Typed(MessageWants, rs)
    ensures Fold(MessageCodec(), m, rs).Ok? <==> MembersAccepted(rs)
    ensures Fold(MessageCodec(), m, rs).Ok? ==> Fold(MessageCodec(), m, rs) == Ok(MessageMsg(SumAt(rs, m.sum)))
    decreases |rs|
  {
    if rs != [] {
      hide Fold, DecodeBody;
      var init, r := rs[..|rs| - 1], rs[|rs| - 1];
      assert rs == init + [r];
      MessageFolds(m, init);
      FoldOneMore(MessageCodec(), m, init, r);
      assert MembersAccepted(rs) <==> MembersAccepted(init) && DecodeBody(r.field, Raw(r.payload)).Ok? by {
        if MembersAccepted(rs) {
          forall i | 0 <= i < |init| ensures DecodeBody(init[i].field, Raw(init[i].payload)).Ok? {
            assert rs[i] == init[i];
          }
          assert rs[|init|] == r;
        }
      }
    }
  }

  /** A message is accepted exactly when its fields can be listed and every member is accepted by itself,
      the ones that are replaced later too; what is left is the last member, decoded afresh. */
  lemma MessageReads(m: MessageMsg, b: bytes)
    ensures Decode(MessageCodec(), m, b).Ok? <==>
            Parse(MessageWants, b).Ok? && MembersAccepted(Parse(MessageWants, b).value)
    ensures Decode(MessageCodec(), m, b).Ok? ==>
              Decode(MessageCodec(), m, b) == Ok(MessageMsg(SumAt(Parse(MessageWants, b).value, m.sum)))
  {
    hide Decode, Parse, Fold, MembersAccepted, SumAt;
    DecodeIsFold(MessageCodec(), m, b);
    if Parse(MessageWants, b).Ok? {
      MessageFolds(m, Parse(MessageWants, b).value);
    }
  }
}
