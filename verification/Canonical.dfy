/**
  The sign-bytes messages of proto/tendermint/types/canonical.pb.go on values.  A timestamp stands
  for the bytes that gogoproto's StdTimeMarshalTo makes of it, which are not part of this model.
*/
module Canonical {
  import opened Wire
  import opened Decoding
  import opened Fields
  import opened Occurrences

  datatype PartSetHeaderMsg = PartSetHeaderMsg(total: uint32, hash: Buf)
  datatype BlockIDMsg = BlockIDMsg(hash: Buf, partSetHeader: PartSetHeaderMsg)
  datatype VoteExtensionMsg = VoteExtensionMsg(extension: Buf, height: int64, round: int64, chainId: bytes)
  datatype VoteMsg =
    VoteMsg(typ: int32, height: int64, round: int64, blockID: Option<BlockIDMsg>, timestamp: bytes, chainID: bytes)
  datatype ProposalMsg =
    ProposalMsg(typ: int32, height: int64, round: int64, polRound: int64, blockID: Option<BlockIDMsg>,
                timestamp: bytes, chainID: bytes)

  const EMPTY_PART_SET_HEADER := PartSetHeaderMsg(0, Nil)
  const EMPTY_BLOCK_ID := BlockIDMsg(Nil, EMPTY_PART_SET_HEADER)
  const EMPTY_VOTE_EXTENSION := VoteExtensionMsg(Nil, 0, 0, [])

  // ---------------------------------------------------------------------------------------
  // Decoders
  // ---------------------------------------------------------------------------------------

  function PartSetHeaderWants(field: int): Option<nat> {
    if field == 1 then Some(0) else if field == 2 then Some(2) else None
  }

  function PartSetHeaderApply(m: PartSetHeaderMsg, field: int, p: Payload): Result<PartSetHeaderMsg> {
    match p
    case VarintP(v) => Ok(m.(total := Unsigned32(v)))
    case BytesP(b) => Ok(m.(hash := Buf(b)))
    case FixedP(_) => Ok(m)
  }

  function PartSetHeaderCodec(): (c: Codec<PartSetHeaderMsg>)
    ensures c.Valid()
  {
    Codec(PartSetHeaderWants, PartSetHeaderApply)
  }

  function BlockIDWants(field: int): Option<nat> {
    if field == 1 || field == 2 then Some(2) else None
  }

  function BlockIDApply(m: BlockIDMsg, field: int, p: Payload): Result<BlockIDMsg> {
    match p
    case BytesP(b) =>
      if field == 1 then Ok(m.(hash := Buf(b)))
      else
        (match Decode(PartSetHeaderCodec(), m.partSetHeader, b)
         case Err(e) => Err(e)
         case Ok(h) => Ok(m.(partSetHeader := h)))
    case _ => Ok(m)
  }

  function BlockIDCodec(): (c: Codec<BlockIDMsg>)
    ensures c.Valid()
  {
    Codec(BlockIDWants, BlockIDApply)
  }

  function VoteExtensionWants(field: int): Option<nat> {
    if field == 1 || field == 4 then Some(2) else if field == 2 || field == 3 then Some(1) else None
  }

  function VoteExtensionApply(m: VoteExtensionMsg, field: int, p: Payload): Result<VoteExtensionMsg> {
    match p
    case FixedP(v) => if field == 2 then Ok(m.(height := Signed64(v))) else Ok(m.(round := Signed64(v)))
    case BytesP(b) => if field == 1 then Ok(m.(extension := Buf(b))) else Ok(m.(chainId := b))
    case VarintP(_) => Ok(m)
  }

  function VoteExtensionCodec(): (c: Codec<VoteExtensionMsg>)
    ensures c.Valid()
  {
    Codec(VoteExtensionWants, VoteExtensionApply)
  }

  /** `if m.BlockID == nil { … }` and the nested decoder. */
  function MergeBlockID(had: Option<BlockIDMsg>, b: bytes): Result<Option<BlockIDMsg>> {
    match Decode(BlockIDCodec(), if had.None? then EMPTY_BLOCK_ID else had.value, b)
    case Err(e) => Err(e)
    case Ok(id) => Ok(Some(id))
  }

  function VoteWants(field: int): Option<nat> {
    if field == 1 then Some(0) else if field == 2 || field == 3 then Some(1)
    else if 4 <= field <= 6 then Some(2) else None
  }

  function VoteApply(m: VoteMsg, field: int, p: Payload): Result<VoteMsg> {
    match p
    case VarintP(v) => Ok(m.(typ := Signed32(v)))
    case FixedP(v) => if field == 2 then Ok(m.(height := Signed64(v))) else Ok(m.(round := Signed64(v)))
    case BytesP(b) =>
      if field == 4 then
        (match MergeBlockID(m.blockID, b) case Err(e) => Err(e) case Ok(id) => Ok(m.(blockID := id)))
      else if field == 5 then Ok(m.(timestamp := b))
      else Ok(m.(chainID := b))
  }

  function VoteCodec(): (c: Codec<VoteMsg>)
    ensures c.Valid()
  {
    Codec(VoteWants, VoteApply)
  }

  function ProposalWants(field: int): Option<nat> {
    if field == 1 || field == 4 then Some(0) else if field == 2 || field == 3 then Some(1)
    else if 5 <= field <= 7 then Some(2) else None
  }

  function ProposalApply(m: ProposalMsg, field: int, p: Payload): Result<ProposalMsg> {
    match p
    case VarintP(v) => if field == 1 then Ok(m.(typ := Signed32(v))) else Ok(m.(polRound := Signed64(v)))
    case FixedP(v) => if field == 2 then Ok(m.(height := Signed64(v))) else Ok(m.(round := Signed64(v)))
    case BytesP(b) =>
      if field == 5 then
        (match MergeBlockID(m.blockID, b) case Err(e) => Err(e) case Ok(id) => Ok(m.(blockID := id)))
      else if field == 6 then Ok(m.(timestamp := b))
      else Ok(m.(chainID := b))
  }

  function ProposalCodec(): (c: Codec<ProposalMsg>)
    ensures c.Valid()
  {
    Codec(ProposalWants, ProposalApply)
  }

  // ---------------------------------------------------------------------------------------
  // Marshallers
  // ---------------------------------------------------------------------------------------

  function PartSetHeaderFields(m: PartSetHeaderMsg): seq<Record> {
    VarintField(1, m.total) + BytesField(2, m.hash.Data())
  }

  function PartSetHeaderBytes(m: PartSetHeaderMsg): bytes { Encode(PartSetHeaderFields(m)) }

  /** The header is a struct, not a pointer: it is written even when it is empty. */
  function BlockIDFields(m: BlockIDMsg): seq<Record> {
    BytesField(1, m.hash.Data()) + [Record(2, BytesP(PartSetHeaderBytes(m.partSetHeader)))]
  }

  function BlockIDBytes(m: BlockIDMsg): bytes { Encode(BlockIDFields(m)) }

  function VoteExtensionFields(m: VoteExtensionMsg): seq<Record> {
    BytesField(1, m.extension.Data()) + FixedField(2, m.height) + FixedField(3, m.round) + BytesField(4, m.chainId)
  }

  function VoteExtensionBytes(m: VoteExtensionMsg): bytes { Encode(VoteExtensionFields(m)) }

  function BlockIDField(field: nat, id: Option<BlockIDMsg>): seq<Record> {
    if id.None? then [] else [Record(field, BytesP(BlockIDBytes(id.value)))]
  }

  function VoteFields(m: VoteMsg): seq<Record> {
    VarintField(1, m.typ) + FixedField(2, m.height) + FixedField(3, m.round) + BlockIDField(4, m.blockID)
    + ([Record(5, BytesP(m.timestamp))] + BytesField(6, m.chainID))
  }

  function VoteBytes(m: VoteMsg): bytes { Encode(VoteFields(m)) }

  function ProposalFields(m: ProposalMsg): seq<Record> {
    VarintField(1, m.typ) + FixedField(2, m.height) + FixedField(3, m.round) + VarintField(4, m.polRound)
    + BlockIDField(5, m.blockID) + [Record(6, BytesP(m.timestamp))] + BytesField(7, m.chainID)
  }

  function ProposalBytes(m: ProposalMsg): bytes { Encode(ProposalFields(m)) }

  lemma BlockIDFieldBytes(field: nat, id: Option<BlockIDMsg>)
    ensures Encode(BlockIDField(field, id)) ==
            if id.None? then [] else Record(field, BytesP(BlockIDBytes(id.value))).Bytes()
    ensures id.Some? ==> |BlockIDBytes(id.value)| <= |Encode(BlockIDField(field, id))|
  {
    if id.Some? {
      OneRecord(Record(field, BytesP(BlockIDBytes(id.value))));
    }
  }

  lemma BlockIDFieldSize(field: nat, id: Option<BlockIDMsg>)
    requires 0 < field < 16
    ensures |Encode(BlockIDField(field, id))| == if id.None? then 0 else Delimited(|BlockIDBytes(id.value)|)
  {
    hide Encode, Delimited;
    BlockIDFieldBytes(field, id);
    if id.Some? {
      RecordSize(Record(field, BytesP(BlockIDBytes(id.value))));
    }
  }

  lemma VoteBytesParts(m: VoteMsg)
    ensures VoteBytes(m) ==
            Encode(VarintField(1, m.typ)) + (Encode(FixedField(2, m.height)) + (Encode(FixedField(3, m.round))
            + (Encode(BlockIDField(4, m.blockID)) + (Encode([Record(5, BytesP(m.timestamp))])
            + Encode(BytesField(6, m.chainID))))))
  {
    hide Encode, BlockIDField, BytesField, FixedField, VarintField;
    var e, f := [Record(5, BytesP(m.timestamp))], BytesField(6, m.chainID);
    EncodeConcat(e, f);
    EncodeFive(VarintField(1, m.typ), FixedField(2, m.height), FixedField(3, m.round), BlockIDField(4, m.blockID), e + f);
  }

  // ---------------------------------------------------------------------------------------
  // Round trips and injectivity
  // ---------------------------------------------------------------------------------------

  function NormalHeader(m: PartSetHeaderMsg): PartSetHeaderMsg { m.(hash := m.hash.Normal()) }

  function NormalBlockID(m: BlockIDMsg): BlockIDMsg {
    BlockIDMsg(m.hash.Normal(), NormalHeader(m.partSetHeader))
  }

  function NormalID(id: Option<BlockIDMsg>): Option<BlockIDMsg> {
    if id.None? then None else Some(NormalBlockID(id.value))
  }

  function NormalExtension(m: VoteExtensionMsg): VoteExtensionMsg { m.(extension := m.extension.Normal()) }

  lemma HeaderRoundTrip(m: PartSetHeaderMsg)
    requires |PartSetHeaderBytes(m)| <= MAX_LEN
    ensures Decode(PartSetHeaderCodec(), EMPTY_PART_SET_HEADER, PartSetHeaderBytes(m)) == Ok(NormalHeader(m))
  {
    hide Fold, Decode, Encode;
    var codec, m0 := PartSetHeaderCodec(), EMPTY_PART_SET_HEADER;
    var a, b := VarintField(1, m.total), BytesField(2, m.hash.Data());
    var m1 := m0.(total := m.total);
    DecodeFields(codec, m0, PartSetHeaderFields(m));
    FoldFirst(codec, m0, a, m1);
    FoldPush(codec, m0, a, m1, b, NormalHeader(m));
  }

  lemma BlockIDRoundTrip(m: BlockIDMsg)
    requires |BlockIDBytes(m)| <= MAX_LEN
    ensures Decode(BlockIDCodec(), EMPTY_BLOCK_ID, BlockIDBytes(m)) == Ok(NormalBlockID(m))
  {
    hide Fold, Decode, Encode, PartSetHeaderFields;
    var codec, m0 := BlockIDCodec(), EMPTY_BLOCK_ID;
    var a, header := BytesField(1, m.hash.Data()), PartSetHeaderBytes(m.partSetHeader);
    var r := Record(2, BytesP(header));
    var m1 := m0.(hash := m.hash.Normal());
    DecodeFields(codec, m0, BlockIDFields(m));
    RecordNotLonger(BlockIDFields(m), r);
    PayloadShorter(2, header);
    HeaderRoundTrip(m.partSetHeader);
    FoldFirst(codec, m0, a, m1);
    FoldPush(codec, m0, a, m1, [r], NormalBlockID(m));
  }

  lemma VoteExtensionRoundTrip(m: VoteExtensionMsg)
    requires |VoteExtensionBytes(m)| <= MAX_LEN
    ensures Decode(VoteExtensionCodec(), EMPTY_VOTE_EXTENSION, VoteExtensionBytes(m)) == Ok(NormalExtension(m))
  {
    hide Fold, Decode, Encode, Signed64, Unsigned64;
    var codec, m0 := VoteExtensionCodec(), EMPTY_VOTE_EXTENSION;
    var a, b := BytesField(1, m.extension.Data()), FixedField(2, m.height);
    var c, d := FixedField(3, m.round), BytesField(4, m.chainId);
    var m1 := m0.(extension := m.extension.Normal());
    var m2 := m1.(height := m.height);
    var m3 := m2.(round := m.round);
    SignedRoundTrip(m.height);
    SignedRoundTrip(m.round);
    DecodeFields(codec, m0, VoteExtensionFields(m));
    FoldFirst(codec, m0, a, m1);
    FoldPush(codec, m0, a, m1, b, m2);
    FoldPush(codec, m0, a + b, m2, c, m3);
    FoldPush(codec, m0, a + b + c, m3, d, NormalExtension(m));
  }

  lemma BlockIDFieldMerges(field: nat, id: Option<BlockIDMsg>, rs: seq<Record>)
    requires id.Some? && Record(field, BytesP(BlockIDBytes(id.value))) in rs && |Encode(rs)| <= MAX_LEN
    ensures MergeBlockID(None, BlockIDBytes(id.value)) == Ok(NormalID(id))
  {
    RecordNotLonger(rs, Record(field, BytesP(BlockIDBytes(id.value))));
    PayloadShorter(field, BlockIDBytes(id.value));
    BlockIDRoundTrip(id.value);
  }

  /** A vote is decoded whole; the receiver's timestamp does not matter, since one is always sent. */
  lemma VoteRoundTrip(m: VoteMsg, timestamp: bytes)
    requires |VoteBytes(m)| <= MAX_LEN
    ensures Decode(VoteCodec(), VoteMsg(0, 0, 0, None, timestamp, []), VoteBytes(m))
            == Ok(m.(blockID := NormalID(m.blockID)))
  {
    hide Fold, Decode, Encode;
    DecodeVoteFields(m, timestamp);
    VoteFold(m, timestamp);
  }

  lemma DecodeVoteFields(m: VoteMsg, timestamp: bytes)
    requires |VoteBytes(m)| <= MAX_LEN
    ensures Decode(VoteCodec(), VoteMsg(0, 0, 0, None, timestamp, []), VoteBytes(m))
            == Fold(VoteCodec(), VoteMsg(0, 0, 0, None, timestamp, []), VoteFields(m))
  {
    hide Fold, Decode, Encode, BlockIDFields;
    DecodeFields(VoteCodec(), VoteMsg(0, 0, 0, None, timestamp, []), VoteFields(m));
  }

  lemma VoteFold(m: VoteMsg, timestamp: bytes)
    requires |VoteBytes(m)| <= MAX_LEN
    ensures Fold(VoteCodec(), VoteMsg(0, 0, 0, None, timestamp, []), VoteFields(m))
            == Ok(m.(blockID := NormalID(m.blockID)))
  {
    hide Fold, Encode, Signed64, Signed32, Unsigned64, BlockIDFields, MergeBlockID, NormalID;
    var codec, m0 := VoteCodec(), VoteMsg(0, 0, 0, None, timestamp, []);
    var a, b, c := VarintField(1, m.typ), FixedField(2, m.height), FixedField(3, m.round);
    var d, e, f := BlockIDField(4, m.blockID), [Record(5, BytesP(m.timestamp))], BytesField(6, m.chainID);
    var m1 := m0.(typ := m.typ);
    var m2 := m1.(height := m.height);
    var m3 := m2.(round := m.round);
    var m4 := m3.(blockID := NormalID(m.blockID));
    var m5 := m4.(timestamp := m.timestamp);
    NarrowSigned(m.typ);
    SignedRoundTrip(m.height);
    SignedRoundTrip(m.round);
    NormalNone();
    if m.blockID.Some? {
      assert d[0] in VoteFields(m);
      BlockIDFieldMerges(4, m.blockID, VoteFields(m));
    }
    FoldFirst(codec, m0, a, m1);
    FoldPush(codec, m0, a, m1, b, m2);
    FoldPush(codec, m0, a + b, m2, c, m3);
    FoldPush(codec, m0, a + b + c, m3, d, m4);
    FoldPush(codec, m0, a + b + c + d, m4, e, m5);
    FoldPush(codec, m0, a + b + c + d + e, m5, f, m5.(chainID := m.chainID));
    assert a + b + c + d + (e + f) == a + b + c + d + e + f;
  }

  lemma NarrowSigned(v: int32)
    ensures Signed32(Unsigned64(v)) == v
  {
    SignedRoundTrip(v);
  }

  lemma NormalNone()
    ensures NormalID(None) == None
  {
  }

  lemma ProposalRoundTrip(m: ProposalMsg, timestamp: bytes)
    requires |ProposalBytes(m)| <= MAX_LEN
    ensures Decode(ProposalCodec(), ProposalMsg(0, 0, 0, 0, None, timestamp, []), ProposalBytes(m))
            == Ok(m.(blockID := NormalID(m.blockID)))
  {
    hide Fold, Decode, Encode;
    DecodeProposalFields(m, timestamp);
    ProposalFold(m, timestamp);
  }

  lemma DecodeProposalFields(m: ProposalMsg, timestamp: bytes)
    requires |ProposalBytes(m)| <= MAX_LEN
    ensures Decode(ProposalCodec(), ProposalMsg(0, 0, 0, 0, None, timestamp, []), ProposalBytes(m))
            == Fold(ProposalCodec(), ProposalMsg(0, 0, 0, 0, None, timestamp, []), ProposalFields(m))
  {
    hide Fold, Decode, Encode, BlockIDFields;
    DecodeFields(ProposalCodec(), ProposalMsg(0, 0, 0, 0, None, timestamp, []), ProposalFields(m));
  }

  lemma ProposalFold(m: ProposalMsg, timestamp: bytes)
    requires |ProposalBytes(m)| <= MAX_LEN
    ensures Fold(ProposalCodec(), ProposalMsg(0, 0, 0, 0, None, timestamp, []), ProposalFields(m))
            == Ok(m.(blockID := NormalID(m.blockID)))
  {
    hide Fold, Encode, Signed64, Signed32, Unsigned64, BlockIDFields, MergeBlockID, NormalID;
    var codec, m0 := ProposalCodec(), ProposalMsg(0, 0, 0, 0, None, timestamp, []);
    var a, b, c := VarintField(1, m.typ), FixedField(2, m.height), FixedField(3, m.round);
    var d, e := VarintField(4, m.polRound), BlockIDField(5, m.blockID);
    var f, g := [Record(6, BytesP(m.timestamp))], BytesField(7, m.chainID);
    var m1 := m0.(typ := m.typ);
    var m2 := m1.(height := m.height);
    var m3 := m2.(round := m.round);
    var m4 := m3.(polRound := m.polRound);
    var m5 := m4.(blockID := NormalID(m.blockID));
    var m6 := m5.(timestamp := m.timestamp);
    NarrowSigned(m.typ);
    SignedRoundTrip(m.height);
    SignedRoundTrip(m.round);
    SignedRoundTrip(m.polRound);
    NormalNone();
    if m.blockID.Some? {
      assert e[0] in ProposalFields(m);
      BlockIDFieldMerges(5, m.blockID, ProposalFields(m));
    }
    FoldFirst(codec, m0, a, m1);
    FoldPush(codec, m0, a, m1, b, m2);
    FoldPush(codec, m0, a + b, m2, c, m3);
    FoldPush(codec, m0, a + b + c, m3, d, m4);
    FoldPush(codec, m0, a + b + c + d, m4, e, m5);
    FoldPush(codec, m0, a + b + c + d + e, m5, f, m6);
    FoldPush(codec, m0, a + b + c + d + e + f, m6, g, m6.(chainID := m.chainID));
  }

  /** Sign bytes are injective: two vote extensions have the same bytes exactly when they differ at
      most in nil against empty extension. */
  lemma VoteExtensionBytesInjective(m: VoteExtensionMsg, x: VoteExtensionMsg)
    requires |VoteExtensionBytes(m)| <= MAX_LEN
    ensures VoteExtensionBytes(m) == VoteExtensionBytes(x) <==> NormalExtension(m) == NormalExtension(x)
  {
    hide Decode, Encode;
    if VoteExtensionBytes(m) == VoteExtensionBytes(x) {
      VoteExtensionRoundTrip(m);
      VoteExtensionRoundTrip(x);
    }
    assert VoteExtensionFields(m) == VoteExtensionFields(NormalExtension(m));
    assert VoteExtensionFields(x) == VoteExtensionFields(NormalExtension(x));
  }

  lemma BlockIDBytesInjective(m: BlockIDMsg, x: BlockIDMsg)
    requires |BlockIDBytes(m)| <= MAX_LEN
    ensures BlockIDBytes(m) == BlockIDBytes(x) <==> NormalBlockID(m) == NormalBlockID(x)
  {
    hide Decode, Encode;
    if BlockIDBytes(m) == BlockIDBytes(x) {
      BlockIDRoundTrip(m);
      BlockIDRoundTrip(x);
    }
    NormalSameBytes(m);
    NormalSameBytes(x);
  }

  lemma NormalSameBytes(m: BlockIDMsg)
    ensures BlockIDBytes(NormalBlockID(m)) == BlockIDBytes(m)
  {
  }

  /** Votes, the timestamp counting as its payload bytes. */
  lemma VoteBytesInjective(m: VoteMsg, x: VoteMsg)
    requires |VoteBytes(m)| <= MAX_LEN
    ensures VoteBytes(m) == VoteBytes(x) <==> m.(blockID := NormalID(m.blockID)) == x.(blockID := NormalID(x.blockID))
  {
    hide Decode, Encode, BlockIDFields;
    if VoteBytes(m) == VoteBytes(x) {
      VoteRoundTrip(m, []);
      VoteRoundTrip(x, []);
    }
    VoteNormalBytes(m);
    VoteNormalBytes(x);
  }

  lemma VoteNormalBytes(m: VoteMsg)
    ensures VoteBytes(m.(blockID := NormalID(m.blockID))) == VoteBytes(m)
  {
    hide Encode, BlockIDFields, NormalBlockID;
    if m.blockID.Some? {
      NormalSameBytes(m.blockID.value);
    }
  }

  lemma ProposalBytesInjective(m: ProposalMsg, x: ProposalMsg)
    requires |ProposalBytes(m)| <= MAX_LEN
    ensures ProposalBytes(m) == ProposalBytes(x) <==>
            m.(blockID := NormalID(m.blockID)) == x.(blockID := NormalID(x.blockID))
  {
    hide Decode, Encode, BlockIDFields;
    if ProposalBytes(m) == ProposalBytes(x) {
      ProposalRoundTrip(m, []);
      ProposalRoundTrip(x, []);
    }
    ProposalNormalBytes(m);
    ProposalNormalBytes(x);
  }

  lemma ProposalNormalBytes(m: ProposalMsg)
    ensures ProposalBytes(m.(blockID := NormalID(m.blockID))) == ProposalBytes(m)
  {
    hide Encode, BlockIDFields, NormalBlockID;
    if m.blockID.Some? {
      NormalSameBytes(m.blockID.value);
    }
  }

  // ---------------------------------------------------------------------------------------
  // What decoding depends on
  // ---------------------------------------------------------------------------------------

  /** Whether an input is accepted does not depend on the receiver. */
  lemma LeavesAreBlind()
    ensures Blind(PartSetHeaderCodec()) && Blind(VoteExtensionCodec())
  {
  }

  lemma BlockIDIsBlind()
    ensures Blind(BlockIDCodec())
  {
    hide Decode, Blind;
    var c := BlockIDCodec();
    LeavesAreBlind();
    forall m: BlockIDMsg, x: BlockIDMsg, f: int, p: Payload
      ensures Fate(c.apply(m, f, p)) == Fate(c.apply(x, f, p))
    {
      if p.BytesP? && f != 1 {
        ReceiverDoesNotMatter(PartSetHeaderCodec(), m.partSetHeader, x.partSetHeader, p.b);
      }
    }
    BlindIf(c);
  }

  lemma MergeIsBlind(had: Option<BlockIDMsg>, has: Option<BlockIDMsg>, b: bytes)
    ensures Fate(MergeBlockID(had, b)) == Fate(MergeBlockID(has, b))
  {
    hide Decode, Blind;
    BlockIDIsBlind();
    ReceiverDoesNotMatter(BlockIDCodec(), if had.None? then EMPTY_BLOCK_ID else had.value,
                          if has.None? then EMPTY_BLOCK_ID else has.value, b);
  }

  lemma VoteIsBlind()
    ensures Blind(VoteCodec())
  {
    hide MergeBlockID, Blind;
    var c := VoteCodec();
    forall m: VoteMsg, x: VoteMsg, f: int, p: Payload
      ensures Fate(c.apply(m, f, p)) == Fate(c.apply(x, f, p))
    {
      if p.BytesP? {
        MergeIsBlind(m.blockID, x.blockID, p.b);
      }
    }
    BlindIf(c);
  }

  lemma ProposalIsBlind()
    ensures Blind(ProposalCodec())
  {
    hide MergeBlockID, Blind;
    var c := ProposalCodec();
    forall m: ProposalMsg, x: ProposalMsg, f: int, p: Payload
      ensures Fate(c.apply(m, f, p)) == Fate(c.apply(x, f, p))
    {
      if p.BytesP? {
        MergeIsBlind(m.blockID, x.blockID, p.b);
      }
    }
    BlindIf(c);
  }

  // ---------------------------------------------------------------------------------------
  // What a decoded message owes to its input
  // ---------------------------------------------------------------------------------------

  function PartSetHeaderAt(m: PartSetHeaderMsg, rs: seq<Record>): PartSetHeaderMsg {
    PartSetHeaderMsg(Uint32At(rs, 1, m.total), BytesAt(rs, 2, m.hash))
  }

  lemma {:induction false} PartSetHeaderFolds(m: PartSetHeaderMsg, rs: seq<Record>)
    requires Typed(PartSetHeaderWants, rs)
    ensures Fold(PartSetHeaderCodec(), m, rs) == Ok(PartSetHeaderAt(m, rs))
    decreases |rs|
  {
    if rs != [] {
      hide Fold, Unsigned32;
      var init, r := rs[..|rs| - 1], rs[|rs| - 1];
      assert rs == init + [r];
      PartSetHeaderFolds(m, init);
      FoldOneMore(PartSetHeaderCodec(), m, init, r);
    }
  }

  /** Whatever the input and the receiver, every field is the last one of its number, an explicit 0 and
      empty bytes included, or else stays. */
  lemma PartSetHeaderReads(m: PartSetHeaderMsg, b: bytes)
    ensures Parse(PartSetHeaderWants, b).Err? ==>
              Decode(PartSetHeaderCodec(), m, b) == Err(Parse(PartSetHeaderWants, b).error)
    ensures Parse(PartSetHeaderWants, b).Ok? ==>
              var rs := Parse(PartSetHeaderWants, b).value;
              Decode(PartSetHeaderCodec(), m, b) == Ok(PartSetHeaderAt(m, rs))
  {
    hide Decode, Parse, Fold;
    DecodeNeverRefuses(PartSetHeaderCodec(), m, b);
    if Parse(PartSetHeaderWants, b).Ok? {
      PartSetHeaderFolds(m, Parse(PartSetHeaderWants, b).value);
    }
  }

  function VoteExtensionAt(m: VoteExtensionMsg, rs: seq<Record>): VoteExtensionMsg {
    VoteExtensionMsg(BytesAt(rs, 1, m.extension), Int64At(rs, 2, m.height), Int64At(rs, 3, m.round),
                     StringAt(rs, 4, m.chainId))
  }

  lemma {:induction false} VoteExtensionFolds(m: VoteExtensionMsg, rs: seq<Record>)
    requires Typed(VoteExtensionWants, rs)
    ensures Fold(VoteExtensionCodec(), m, rs) == Ok(VoteExtensionAt(m, rs))
    decreases |rs|
  {
    if rs != [] {
      hide Fold, Signed64;
      var init, r := rs[..|rs| - 1], rs[|rs| - 1];
      assert rs == init + [r];
      VoteExtensionFolds(m, init);
      FoldOneMore(VoteExtensionCodec(), m, init, r);
    }
  }

  /** The same for a vote extension. */
  lemma VoteExtensionReads(m: VoteExtensionMsg, b: bytes)
    ensures Parse(VoteExtensionWants, b).Err? ==>
              Decode(VoteExtensionCodec(), m, b) == Err(Parse(VoteExtensionWants, b).error)
    ensures Parse(VoteExtensionWants, b).Ok? ==>
              var rs := Parse(VoteExtensionWants, b).value;
              Decode(VoteExtensionCodec(), m, b) == Ok(VoteExtensionAt(m, rs))
  {
    hide Decode, Parse, Fold;
    DecodeNeverRefuses(VoteExtensionCodec(), m, b);
    if Parse(VoteExtensionWants, b).Ok? {
      VoteExtensionFolds(m, Parse(VoteExtensionWants, b).value);
    }
  }

  /** The header inside a block id is always there. */
  function HeaderAt(h: PartSetHeaderMsg, bs: seq<bytes>): PartSetHeaderMsg {
    var merged := MergedAt(PartSetHeaderCodec(), EMPTY_PART_SET_HEADER, Some(h), bs);
    if merged.Some? then merged.value else h
  }

  lemma {:induction false} BlockIDFolds(m: BlockIDMsg, rs: seq<Record>)
    requires Typed(BlockIDWants, rs)
    ensures Fold(BlockIDCodec(), m, rs).Ok? <==> Accepts(PartSetHeaderCodec(), EMPTY_PART_SET_HEADER, All(rs, 2))
    ensures Fold(BlockIDCodec(), m, rs).Ok? ==> Fold(BlockIDCodec(), m, rs) == Ok(BlockIDAt(m, rs))
    decreases |rs|
  {
    if rs != [] {
      hide Fold, Decode, MergedAt, Accepts, Blind;
      var init, r := rs[..|rs| - 1], rs[|rs| - 1];
      assert rs == init + [r];
      BlockIDFolds(m, init);
      FoldOneMore(BlockIDCodec(), m, init, r);
      if r.field == 2 {
        AcceptsMore(PartSetHeaderCodec(), EMPTY_PART_SET_HEADER, All(init, 2), r.payload.b);
        if Fold(BlockIDCodec(), m, init).Ok? {
          LeavesAreBlind();
          MergedIsThere(PartSetHeaderCodec(), EMPTY_PART_SET_HEADER, m.partSetHeader, All(init, 2));
          MergedMore(PartSetHeaderCodec(), EMPTY_PART_SET_HEADER, Some(m.partSetHeader), All(init, 2), r.payload.b);
        }
      } else {
        assert All(rs, 2) == All(init, 2);
      }
    }
  }

  function BlockIDAt(m: BlockIDMsg, rs: seq<Record>): BlockIDMsg {
    BlockIDMsg(BytesAt(rs, 1, m.hash), HeaderAt(m.partSetHeader, All(rs, 2)))
  }

  /** A block id is accepted exactly when its fields can be listed and every header payload is accepted by
      itself; the hash is the last one, and the payloads are merged into the header as if they had come as
      one. */
  lemma BlockIDReads(m: BlockIDMsg, b: bytes)
    ensures Decode(BlockIDCodec(), m, b).Ok? <==>
            Parse(BlockIDWants, b).Ok? &&
            Accepts(PartSetHeaderCodec(), EMPTY_PART_SET_HEADER, All(Parse(BlockIDWants, b).value, 2))
    ensures Decode(BlockIDCodec(), m, b).Ok? ==>
              var rs := Parse(BlockIDWants, b).value;
              Decode(BlockIDCodec(), m, b) == Ok(BlockIDAt(m, rs))
  {
    hide Decode, Parse, Fold, MergedAt, Accepts;
    DecodeIsFold(BlockIDCodec(), m, b);
    if Parse(BlockIDWants, b).Ok? {
      BlockIDFolds(m, Parse(BlockIDWants, b).value);
    }
  }

  lemma MergedIsThere<M(!new)>(c: Codec<M>, empty: M, had: M, bs: seq<bytes>)
    requires c.Valid() && Blind(c) && Accepts(c, empty, bs)
    ensures MergedAt(c, empty, Some(had), bs).Some?
  {
    hide Decode, Blind;
    if bs != [] {
      JoinDecodes(c, empty, had, bs);
    }
  }

  lemma {:induction false} VoteFolds(m: VoteMsg, rs: seq<Record>)
    requires Typed(VoteWants, rs)
    ensures Fold(VoteCodec(), m, rs).Ok? <==> Accepts(BlockIDCodec(), EMPTY_BLOCK_ID, All(rs, 4))
    ensures Fold(VoteCodec(), m, rs).Ok? ==> Fold(VoteCodec(), m, rs) == Ok(VoteAt(m, rs))
    decreases |rs|
  {
    if rs != [] {
      hide Fold, Decode, MergedAt, Accepts, Blind, Signed32, Signed64;
      var init, r := rs[..|rs| - 1], rs[|rs| - 1];
      assert rs == init + [r];
      VoteFolds(m, init);
      FoldOneMore(VoteCodec(), m, init, r);
      if r.field == 4 {
        AcceptsMore(BlockIDCodec(), EMPTY_BLOCK_ID, All(init, 4), r.payload.b);
        if Fold(VoteCodec(), m, init).Ok? {
          BlockIDIsBlind();
          MergedMore(BlockIDCodec(), EMPTY_BLOCK_ID, m.blockID, All(init, 4), r.payload.b);
        }
      } else {
        assert All(rs, 4) == All(init, 4);
      }
    }
  }

  function VoteAt(m: VoteMsg, rs: seq<Record>): VoteMsg {
    VoteMsg(Int32At(rs, 1, m.typ), Int64At(rs, 2, m.height), Int64At(rs, 3, m.round),
            MergedAt(BlockIDCodec(), EMPTY_BLOCK_ID, m.blockID, All(rs, 4)),
            StringAt(rs, 5, m.timestamp), StringAt(rs, 6, m.chainID))
  }

  /** The same for a vote, whose block id payloads are merged into the one it has, or a new one. */
  lemma VoteReads(m: VoteMsg, b: bytes)
    ensures Decode(VoteCodec(), m, b).Ok? <==>
            Parse(VoteWants, b).Ok? && Accepts(BlockIDCodec(), EMPTY_BLOCK_ID, All(Parse(VoteWants, b).value, 4))
    ensures Decode(VoteCodec(), m, b).Ok? ==>
              var rs := Parse(VoteWants, b).value;
              Decode(VoteCodec(), m, b) == Ok(VoteAt(m, rs))
  {
    hide Decode, Parse, Fold, MergedAt, Accepts;
    DecodeIsFold(VoteCodec(), m, b);
    if Parse(VoteWants, b).Ok? {
      VoteFolds(m, Parse(VoteWants, b).value);
    }
  }

  lemma {:induction false} ProposalFolds(m: ProposalMsg, rs: seq<Record>)
    requires Typed(ProposalWants, rs)
    ensures Fold(ProposalCodec(), m, rs).Ok? <==> Accepts(BlockIDCodec(), EMPTY_BLOCK_ID, All(rs, 5))
    ensures Fold(ProposalCodec(), m, rs).Ok? ==> Fold(ProposalCodec(), m, rs) == Ok(ProposalAt(m, rs))
    decreases |rs|
  {
    if rs != [] {
      hide Fold, Decode, MergedAt, Accepts, Blind, Signed32, Signed64;
      var init, r := rs[..|rs| - 1], rs[|rs| - 1];
      assert rs == init + [r];
      ProposalFolds(m, init);
      FoldOneMore(ProposalCodec(), m, init, r);
      if r.field == 5 {
        AcceptsMore(BlockIDCodec(), EMPTY_BLOCK_ID, All(init, 5), r.payload.b);
        if Fold(ProposalCodec(), m, init).Ok? {
          BlockIDIsBlind();
          MergedMore(BlockIDCodec(), EMPTY_BLOCK_ID, m.blockID, All(init, 5), r.payload.b);
        }
      } else {
        assert All(rs, 5) == All(init, 5);
      }
    }
  }

  function ProposalAt(m: ProposalMsg, rs: seq<Record>): ProposalMsg {
    ProposalMsg(Int32At(rs, 1, m.typ), Int64At(rs, 2, m.height), Int64At(rs, 3, m.round),
                Int64At(rs, 4, m.polRound), MergedAt(BlockIDCodec(), EMPTY_BLOCK_ID, m.blockID, All(rs, 5)),
                StringAt(rs, 6, m.timestamp), StringAt(rs, 7, m.chainID))
  }

  /** The same for a proposal. */
  lemma ProposalReads(m: ProposalMsg, b: bytes)
    ensures Decode(ProposalCodec(), m, b).Ok? <==>
            Parse(ProposalWants, b).Ok? && Accepts(BlockIDCodec(), EMPTY_BLOCK_ID, All(Parse(ProposalWants, b).value, 5))
    ensures Decode(ProposalCodec(), m, b).Ok? ==>
              var rs := Parse(ProposalWants, b).value;
              Decode(ProposalCodec(), m, b) == Ok(ProposalAt(m, rs))
  {
    hide Decode, Parse, Fold, MergedAt, Accepts;
    DecodeIsFold(ProposalCodec(), m, b);
    if Parse(ProposalWants, b).Ok? {
      ProposalFolds(m, Parse(ProposalWants, b).value);
    }
  }

  lemma BlockIDMergesHeader()
    ensures Merges(BlockIDCodec(), 2)
  {
    hide Decode, Blind;
    var c := BlockIDCodec();
    BlockIDIsBlind();
    forall m: BlockIDMsg, a: bytes, b: bytes | c.apply(m, 2, BytesP(a)).Ok?
      ensures c.apply(c.apply(m, 2, BytesP(a)).value, 2, BytesP(b)) == c.apply(m, 2, BytesP(a + b))
    {
      DecodeConcat(PartSetHeaderCodec(), m.partSetHeader, a, b);
    }
  }

  lemma MergeTwice(had: Option<BlockIDMsg>, a: bytes, b: bytes)
    requires MergeBlockID(had, a).Ok?
    ensures MergeBlockID(MergeBlockID(had, a).value, b) == MergeBlockID(had, a + b)
  {
    hide Decode;
    DecodeConcat(BlockIDCodec(), if had.None? then EMPTY_BLOCK_ID else had.value, a, b);
  }

  lemma VoteMergesBlockID()
    ensures Merges(VoteCodec(), 4)
  {
    hide MergeBlockID, Blind, Signed32, Signed64;
    var c := VoteCodec();
    VoteIsBlind();
    forall m: VoteMsg, a: bytes, b: bytes | c.apply(m, 4, BytesP(a)).Ok?
      ensures c.apply(c.apply(m, 4, BytesP(a)).value, 4, BytesP(b)) == c.apply(m, 4, BytesP(a + b))
    {
      MergeTwice(m.blockID, a, b);
    }
  }

  lemma ProposalMergesBlockID()
    ensures Merges(ProposalCodec(), 5)
  {
    hide MergeBlockID, Blind, Signed32, Signed64;
    var c := ProposalCodec();
    ProposalIsBlind();
    forall m: ProposalMsg, a: bytes, b: bytes | c.apply(m, 5, BytesP(a)).Ok?
      ensures c.apply(c.apply(m, 5, BytesP(a)).value, 5, BytesP(b)) == c.apply(m, 5, BytesP(a + b))
    {
      MergeTwice(m.blockID, a, b);
    }
  }

  /** Two occurrences of the header of a block id, with other fields before, between and behind them,
      decode as one occurrence of the concatenated payloads in the place of the first. */
  lemma HeaderOccurrencesMerge(m: BlockIDMsg, u: bytes, a: bytes, mid: bytes, v: bytes, b: bytes, w: bytes, post: bytes)
    requires Occurs(BlockIDWants, u, 2, a) && Occurs(BlockIDWants, v, 2, b) && Occurs(BlockIDWants, w, 2, a + b)
    requires Avoids(BlockIDWants, mid, 2) && Decode(PartSetHeaderCodec(), m.partSetHeader, a).Ok?
    ensures Decode(BlockIDCodec(), m, u + (mid + (v + post))) == Decode(BlockIDCodec(), m, w + (mid + post))
  {
    hide Decode, Next, Occurs, Avoids, Merges;
    BlockIDMergesHeader();
    OccurrencesMerge(BlockIDCodec(), 2, m, u, a, mid, v, b, w, post);
  }

  /** The same for the block id of a vote, allocated for the first if there is none, ... */
  lemma VoteOccurrencesMerge(m: VoteMsg, u: bytes, a: bytes, mid: bytes, v: bytes, b: bytes, w: bytes, post: bytes)
    requires Occurs(VoteWants, u, 4, a) && Occurs(VoteWants, v, 4, b) && Occurs(VoteWants, w, 4, a + b)
    requires Avoids(VoteWants, mid, 4) && MergeBlockID(m.blockID, a).Ok?
    ensures Decode(VoteCodec(), m, u + (mid + (v + post))) == Decode(VoteCodec(), m, w + (mid + post))
  {
    hide Decode, Next, Occurs, Avoids, Merges, MergeBlockID;
    VoteMergesBlockID();
    OccurrencesMerge(VoteCodec(), 4, m, u, a, mid, v, b, w, post);
  }

  /** ... and for that of a proposal. */
  lemma ProposalOccurrencesMerge(m: ProposalMsg, u: bytes, a: bytes, mid: bytes, v: bytes, b: bytes,
                                 w: bytes, post: bytes)
    requires Occurs(ProposalWants, u, 5, a) && Occurs(ProposalWants, v, 5, b) && Occurs(ProposalWants, w, 5, a + b)
    requires Avoids(ProposalWants, mid, 5) && MergeBlockID(m.blockID, a).Ok?
    ensures Decode(ProposalCodec(), m, u + (mid + (v + post))) == Decode(ProposalCodec(), m, w + (mid + post))
  {
    hide Decode, Next, Occurs, Avoids, Merges, MergeBlockID;
    ProposalMergesBlockID();
    OccurrencesMerge(ProposalCodec(), 5, m, u, a, mid, v, b, w, post);
  }
}
