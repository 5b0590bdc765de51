/**
  Which of the sign-bytes messages can take more bytes when they are decoded and written again.  A
  struct that is not a pointer and a timestamp are written even if the input did not have them, and
  an int32 is written in ten bytes where five are enough.
*/
module CanonicalGrowth {
  import opened Wire
  import opened Varints
  import opened Decoding
  import opened Fields
  import opened Int32
  import opened Canonical

  // ---------------------------------------------------------------------------------------
  // The shortest input for a message
  // ---------------------------------------------------------------------------------------

  // A receiver holds nil bytes only if the field never came, and empty ones only if it came empty.

  function HeldField(field: nat, b: Buf): seq<Record> {
    if b.Nil? then [] else [Record(field, BytesP(b.data))]
  }

  function HeldSize(b: Buf): nat { if b.Nil? then 0 else Delimited(|b.data|) }

  lemma HeldFieldSize(field: nat, b: Buf)
    requires 0 < field < 16
    ensures |Encode(HeldField(field, b))| == HeldSize(b)
  {
    hide Delimited;
    if b.Buf? {
      OneRecord(Record(field, BytesP(b.data)));
      RecordSize(Record(field, BytesP(b.data)));
    }
  }

  function LeastHeader(h: PartSetHeaderMsg): nat { VarintSize(h.total) + HeldSize(h.hash) }

  /** An empty header need not be sent at all. */
  function HeaderCost(h: PartSetHeaderMsg): nat {
    if h == EMPTY_PART_SET_HEADER then 0 else Delimited(LeastHeader(h))
  }

  function LeastBlockID(m: BlockIDMsg): nat { HeldSize(m.hash) + HeaderCost(m.partSetHeader) }

  function IDCost(id: Option<BlockIDMsg>): nat {
    if id.None? then 0 else Delimited(LeastBlockID(id.value))
  }

  /** The receiver's own timestamp `was` need not be sent. */
  function TimeCost(timestamp: bytes, was: bytes): nat {
    if timestamp == was then 0 else Delimited(|timestamp|)
  }

  function LeastVote(m: VoteMsg, was: bytes): nat {
    Shortest(m.typ) + FixedSize(m.height) + FixedSize(m.round) + IDCost(m.blockID) + TimeCost(m.timestamp, was)
    + BytesSize(m.chainID)
  }

  function LeastProposal(m: ProposalMsg, was: bytes): nat {
    Shortest(m.typ) + FixedSize(m.height) + FixedSize(m.round) + VarintSize(m.polRound) + IDCost(m.blockID)
    + TimeCost(m.timestamp, was) + BytesSize(m.chainID)
  }

  function LeastExtension(m: VoteExtensionMsg): nat {
    HeldSize(m.extension) + FixedSize(m.height) + FixedSize(m.round) + BytesSize(m.chainId)
  }

  // ---------------------------------------------------------------------------------------
  // No input is shorter
  // ---------------------------------------------------------------------------------------

  lemma HeaderField(m: PartSetHeaderMsg, field: nat, p: Payload)
    requires field > 0 && PartSetHeaderWants(field) == Some(p.WireType())
    ensures LeastHeader(PartSetHeaderApply(m, field, p).value) <= LeastHeader(m) + |Record(field, p).Bytes()|
  {
    hide Sov, Delimited, VarintSize, Unsigned32;
    RecordSize(Record(field, p));
    if p.VarintP? {
      ReadingShrinks(p.v);
    }
  }

  lemma HeaderIsLeast(m: PartSetHeaderMsg, b: bytes)
    requires Decode(PartSetHeaderCodec(), m, b).Ok?
    ensures LeastHeader(Decode(PartSetHeaderCodec(), m, b).value) <= LeastHeader(m) + |b|
  {
    hide Decode, LeastHeader;
    forall m: PartSetHeaderMsg, f: nat, p: Payload |
      PartSetHeaderCodec().apply(m, f, p).Ok? && PartSetHeaderCodec().wants(f) == Some(p.WireType()) && f > 0
      ensures LeastHeader(PartSetHeaderCodec().apply(m, f, p).value) <= LeastHeader(m) + |Record(f, p).Bytes()|
    {
      HeaderField(m, f, p);
    }
    DecodeDoesNotGrow(PartSetHeaderCodec(), LeastHeader, m, b);
  }

  /** A header that is merged into. */
  lemma HeaderCostMerges(h: PartSetHeaderMsg, b: bytes)
    requires Decode(PartSetHeaderCodec(), h, b).Ok?
    ensures HeaderCost(Decode(PartSetHeaderCodec(), h, b).value) <= HeaderCost(h) + Delimited(|b|)
  {
    hide Decode, LeastHeader, Delimited;
    var merged := Decode(PartSetHeaderCodec(), h, b).value;
    HeaderIsLeast(h, b);
    if h == EMPTY_PART_SET_HEADER {
      assert LeastHeader(h) == 0 by { NothingHeld(); }
      DelimitedMonotone(LeastHeader(merged), |b|);
    } else {
      DelimitedMerge(LeastHeader(h), |b|, LeastHeader(merged));
    }
  }

  lemma NothingHeld()
    ensures LeastHeader(EMPTY_PART_SET_HEADER) == 0 && LeastBlockID(EMPTY_BLOCK_ID) == 0
  {
  }

  lemma DelimitedNothing(n: nat)
    requires n == 0
    ensures Delimited(n) == 2
  {
    SovIsVarintLength(n);
  }

  lemma BlockIDGrows(m: BlockIDMsg, field: nat, p: Payload)
    requires field > 0 && BlockIDWants(field) == Some(p.WireType()) && BlockIDApply(m, field, p).Ok?
    ensures LeastBlockID(BlockIDApply(m, field, p).value) <= LeastBlockID(m) + |Record(field, p).Bytes()|
  {
    hide Decode, Delimited, HeaderCost;
    RecordSize(Record(field, p));
    if field == 2 {
      HeaderCostMerges(m.partSetHeader, p.b);
    }
  }

  lemma BlockIDIsLeast(m: BlockIDMsg, b: bytes)
    requires Decode(BlockIDCodec(), m, b).Ok?
    ensures LeastBlockID(Decode(BlockIDCodec(), m, b).value) <= LeastBlockID(m) + |b|
  {
    hide Decode, LeastBlockID;
    forall m: BlockIDMsg, f: nat, p: Payload |
      BlockIDCodec().apply(m, f, p).Ok? && BlockIDCodec().wants(f) == Some(p.WireType()) && f > 0
      ensures LeastBlockID(BlockIDCodec().apply(m, f, p).value) <= LeastBlockID(m) + |Record(f, p).Bytes()|
    {
      BlockIDGrows(m, f, p);
    }
    DecodeDoesNotGrow(BlockIDCodec(), LeastBlockID, m, b);
  }

  lemma IDCostMerges(had: Option<BlockIDMsg>, b: bytes)
    requires MergeBlockID(had, b).Ok?
    ensures IDCost(MergeBlockID(had, b).value) <= IDCost(had) + Delimited(|b|)
  {
    hide Decode, LeastBlockID, Delimited;
    var id := if had.None? then EMPTY_BLOCK_ID else had.value;
    var merged := Decode(BlockIDCodec(), id, b).value;
    BlockIDIsLeast(id, b);
    if had.None? {
      NothingHeld();
      DelimitedMonotone(LeastBlockID(merged), |b|);
    } else {
      DelimitedMerge(LeastBlockID(id), |b|, LeastBlockID(merged));
    }
  }

  lemma VoteField(m: VoteMsg, was: bytes, field: nat, p: Payload)
    requires field > 0 && VoteWants(field) == Some(p.WireType()) && VoteApply(m, field, p).Ok?
    ensures LeastVote(VoteApply(m, field, p).value, was) <= LeastVote(m, was) + |Record(field, p).Bytes()|
  {
    hide MergeBlockID, Delimited, Sov, Shortest, Signed32, Signed64, IDCost;
    RecordSize(Record(field, p));
    if p.VarintP? {
      ReadingShrinks(p.v);
    } else if field == 4 {
      IDCostMerges(m.blockID, p.b);
    }
  }

  lemma VoteIsLeast(m: VoteMsg, was: bytes, b: bytes)
    requires Decode(VoteCodec(), VoteMsg(0, 0, 0, None, was, []), b) == Ok(m)
    ensures LeastVote(m, was) <= |b|
  {
    hide Decode, Delimited;
    var size := (m: VoteMsg) => LeastVote(m, was);
    forall m: VoteMsg, f: nat, p: Payload |
      VoteCodec().apply(m, f, p).Ok? && VoteCodec().wants(f) == Some(p.WireType()) && f > 0
      ensures size(VoteCodec().apply(m, f, p).value) <= size(m) + |Record(f, p).Bytes()|
    {
      VoteField(m, was, f, p);
    }
    DecodeDoesNotGrow(VoteCodec(), size, VoteMsg(0, 0, 0, None, was, []), b);
  }

  lemma ProposalField(m: ProposalMsg, was: bytes, field: nat, p: Payload)
    requires field > 0 && ProposalWants(field) == Some(p.WireType()) && ProposalApply(m, field, p).Ok?
    ensures LeastProposal(ProposalApply(m, field, p).value, was) <= LeastProposal(m, was) + |Record(field, p).Bytes()|
  {
    hide MergeBlockID, Delimited, Sov, Shortest, VarintSize, Signed32, Signed64, IDCost;
    RecordSize(Record(field, p));
    if p.VarintP? {
      ReadingShrinks(p.v);
    } else if field == 5 {
      IDCostMerges(m.blockID, p.b);
    }
  }

  lemma ProposalIsLeast(m: ProposalMsg, was: bytes, b: bytes)
    requires Decode(ProposalCodec(), ProposalMsg(0, 0, 0, 0, None, was, []), b) == Ok(m)
    ensures LeastProposal(m, was) <= |b|
  {
    hide Decode, Delimited;
    var size := (m: ProposalMsg) => LeastProposal(m, was);
    forall m: ProposalMsg, f: nat, p: Payload |
      ProposalCodec().apply(m, f, p).Ok? && ProposalCodec().wants(f) == Some(p.WireType()) && f > 0
      ensures size(ProposalCodec().apply(m, f, p).value) <= size(m) + |Record(f, p).Bytes()|
    {
      ProposalField(m, was, f, p);
    }
    DecodeDoesNotGrow(ProposalCodec(), size, ProposalMsg(0, 0, 0, 0, None, was, []), b);
  }

  lemma ExtensionField(m: VoteExtensionMsg, field: nat, p: Payload)
    requires field > 0 && VoteExtensionWants(field) == Some(p.WireType())
    ensures LeastExtension(VoteExtensionApply(m, field, p).value) <= LeastExtension(m) + |Record(field, p).Bytes()|
  {
    hide Delimited, Signed64;
    RecordSize(Record(field, p));
  }

  // ---------------------------------------------------------------------------------------
  // And some input is that short
  // ---------------------------------------------------------------------------------------

  function HeaderHeld(h: PartSetHeaderMsg): seq<Record> { VarintField(1, h.total) + HeldField(2, h.hash) }

  lemma HeaderHeldSize(h: PartSetHeaderMsg)
    ensures |Encode(HeaderHeld(h))| == LeastHeader(h)
  {
    hide Encode, VarintField, HeldField, VarintSize, HeldSize;
    EncodeConcat(VarintField(1, h.total), HeldField(2, h.hash));
    ScalarSizes(1, 0, h.total, []);
    HeldFieldSize(2, h.hash);
  }

  lemma HeaderIsReached(h: PartSetHeaderMsg)
    requires LeastHeader(h) <= MAX_LEN
    ensures Decode(PartSetHeaderCodec(), EMPTY_PART_SET_HEADER, Encode(HeaderHeld(h))) == Ok(h)
  {
    hide Decode, Encode, Fold, LeastHeader;
    var c, m0 := PartSetHeaderCodec(), EMPTY_PART_SET_HEADER;
    HeaderHeldSize(h);
    DecodeFields(c, m0, HeaderHeld(h));
    FoldFirst(c, m0, VarintField(1, h.total), m0.(total := h.total));
    FoldPush(c, m0, VarintField(1, h.total), m0.(total := h.total), HeldField(2, h.hash), h);
  }

  function HeaderSent(h: PartSetHeaderMsg): seq<Record> {
    if h == EMPTY_PART_SET_HEADER then [] else [Record(2, BytesP(Encode(HeaderHeld(h))))]
  }

  function BlockIDHeld(m: BlockIDMsg): seq<Record> { HeldField(1, m.hash) + HeaderSent(m.partSetHeader) }

  lemma HeaderSentSize(h: PartSetHeaderMsg)
    ensures |Encode(HeaderSent(h))| == HeaderCost(h)
  {
    hide Encode, Delimited, HeaderHeld, LeastHeader;
    if h != EMPTY_PART_SET_HEADER {
      HeaderHeldSize(h);
      OneRecord(HeaderSent(h)[0]);
      RecordSize(HeaderSent(h)[0]);
    } else {
      EncodeNothing();
    }
  }

  lemma BlockIDHeldSize(m: BlockIDMsg)
    ensures |Encode(BlockIDHeld(m))| == LeastBlockID(m)
  {
    hide Encode, HeaderCost, HeldSize, HeldField, HeaderSent;
    EncodeConcat(HeldField(1, m.hash), HeaderSent(m.partSetHeader));
    HeldFieldSize(1, m.hash);
    HeaderSentSize(m.partSetHeader);
  }

  lemma BlockIDIsReached(m: BlockIDMsg)
    requires LeastBlockID(m) <= MAX_LEN
    ensures Decode(BlockIDCodec(), EMPTY_BLOCK_ID, Encode(BlockIDHeld(m))) == Ok(m)
  {
    hide Decode, Encode, Fold, LeastHeader, HeaderHeld, Delimited;
    var c, m0 := BlockIDCodec(), EMPTY_BLOCK_ID;
    var a, b := HeldField(1, m.hash), HeaderSent(m.partSetHeader);
    var m1 := m0.(hash := m.hash);
    BlockIDHeldSize(m);
    DecodeFields(c, m0, BlockIDHeld(m));
    FoldFirst(c, m0, a, m1);
    if b != [] {
      HeaderHeldSize(m.partSetHeader);
      DelimitedLonger(LeastHeader(m.partSetHeader));
      HeaderIsReached(m.partSetHeader);
    }
    FoldPush(c, m0, a, m1, b, m);
  }

  lemma DelimitedLonger(n: nat)
    ensures Delimited(n) >= n + 2
  {
    SovIsVarintLength(n);
  }

  function IDSent(field: nat, id: Option<BlockIDMsg>): seq<Record> {
    if id.None? then [] else [Record(field, BytesP(Encode(BlockIDHeld(id.value))))]
  }

  function TimeSent(field: nat, timestamp: bytes, was: bytes): seq<Record> {
    if timestamp == was then [] else [Record(field, BytesP(timestamp))]
  }

  lemma SentSizes(field: nat, id: Option<BlockIDMsg>, timestamp: bytes, was: bytes)
    requires 0 < field < 15
    ensures |Encode(IDSent(field, id))| == IDCost(id)
    ensures |Encode(TimeSent(field + 1, timestamp, was))| == TimeCost(timestamp, was)
  {
    hide Encode, Delimited, BlockIDHeld, LeastBlockID;
    EncodeNothing();
    if id.Some? {
      BlockIDHeldSize(id.value);
      OneRecord(IDSent(field, id)[0]);
      RecordSize(IDSent(field, id)[0]);
    }
    if timestamp != was {
      OneRecord(Record(field + 1, BytesP(timestamp)));
      RecordSize(Record(field + 1, BytesP(timestamp)));
    }
  }

  lemma IDSentMerges(field: nat, id: Option<BlockIDMsg>)
    requires id.Some? && IDCost(id) <= MAX_LEN
    ensures MergeBlockID(None, Encode(BlockIDHeld(id.value))) == Ok(id)
  {
    hide Decode, Encode, BlockIDHeld, LeastBlockID, Delimited;
    DelimitedLonger(LeastBlockID(id.value));
    BlockIDIsReached(id.value);
  }

  /** The fields of a vote in their shortest form, nothing that the receiver holds already. */
  function VoteHeld(m: VoteMsg, was: bytes): seq<Record> {
    VarintField(1, Unsigned32(m.typ)) + FixedField(2, m.height) + FixedField(3, m.round) + IDSent(4, m.blockID)
    + (TimeSent(5, m.timestamp, was) + BytesField(6, m.chainID))
  }

  lemma VoteHeldSize(m: VoteMsg, was: bytes)
    ensures |Encode(VoteHeld(m, was))| == LeastVote(m, was)
  {
    hide Encode, VarintField, FixedField, BytesField, IDSent, TimeSent, VarintSize, Shortest, IDCost, TimeCost;
    hide Spells, Unsigned32;
    var e, f := TimeSent(5, m.timestamp, was), BytesField(6, m.chainID);
    EncodeConcat(e, f);
    EncodeFive(VarintField(1, Unsigned32(m.typ)), FixedField(2, m.height), FixedField(3, m.round),
               IDSent(4, m.blockID), e + f);
    LowWord(m.typ);
    ScalarSizes(1, 0, Unsigned32(m.typ), []);
    ScalarSizes(2, m.height, 0, []);
    ScalarSizes(3, m.round, 0, []);
    SentSizes(4, m.blockID, m.timestamp, was);
    ScalarSizes(6, 0, 0, m.chainID);
  }

  lemma VoteHeldDecodes(m: VoteMsg, was: bytes)
    requires |Encode(VoteHeld(m, was))| <= MAX_LEN
    ensures Decode(VoteCodec(), VoteMsg(0, 0, 0, None, was, []), Encode(VoteHeld(m, was)))
            == Fold(VoteCodec(), VoteMsg(0, 0, 0, None, was, []), VoteHeld(m, was))
  {
    hide Decode, Encode, Fold, BlockIDHeld, MergeBlockID, Unsigned32, Unsigned64;
    DecodeFields(VoteCodec(), VoteMsg(0, 0, 0, None, was, []), VoteHeld(m, was));
  }

  lemma VoteIDCost(m: VoteMsg, was: bytes)
    ensures IDCost(m.blockID) <= LeastVote(m, was)
  {
    hide IDCost, TimeCost, Shortest, VarintSize, BytesSize;
  }

  lemma VoteIsReached(m: VoteMsg, was: bytes)
    requires LeastVote(m, was) <= MAX_LEN
    ensures Decode(VoteCodec(), VoteMsg(0, 0, 0, None, was, []), Encode(VoteHeld(m, was))) == Ok(m)
  {
    hide Decode, Encode, Fold, VoteHeld, IDCost, LeastVote;
    VoteHeldSize(m, was);
    VoteHeldDecodes(m, was);
    VoteIDCost(m, was);
    VoteHeldFold(m, was);
  }

  lemma VoteHeldFold(m: VoteMsg, was: bytes)
    requires IDCost(m.blockID) <= MAX_LEN
    ensures Fold(VoteCodec(), VoteMsg(0, 0, 0, None, was, []), VoteHeld(m, was)) == Ok(m)
  {
    hide Fold, Encode, Signed64, Signed32, Unsigned32, Unsigned64, BlockIDHeld, MergeBlockID, IDCost;
    hide VarintSize, Shortest;
    var codec, m0 := VoteCodec(), VoteMsg(0, 0, 0, None, was, []);
    var a, b, c := VarintField(1, Unsigned32(m.typ)), FixedField(2, m.height), FixedField(3, m.round);
    var d, e, f := IDSent(4, m.blockID), TimeSent(5, m.timestamp, was), BytesField(6, m.chainID);
    var m1 := m0.(typ := m.typ);
    var m2 := m1.(height := m.height);
    var m3 := m2.(round := m.round);
    var m4 := m3.(blockID := m.blockID);
    var m5 := m4.(timestamp := m.timestamp);
    LowWord(m.typ);
    SignedRoundTrip(m.height);
    SignedRoundTrip(m.round);
    if m.blockID.Some? {
      IDSentMerges(4, m.blockID);
    }
    FoldFirst(codec, m0, a, m1);
    FoldPush(codec, m0, a, m1, b, m2);
    FoldPush(codec, m0, a + b, m2, c, m3);
    FoldPush(codec, m0, a + b + c, m3, d, m4);
    FoldPush(codec, m0, a + b + c + d, m4, e, m5);
    FoldPush(codec, m0, a + b + c + d + e, m5, f, m);
    assert a + b + c + d + (e + f) == a + b + c + d + e + f;
  }

  /** The same for a proposal. */
  function ProposalHeld(m: ProposalMsg, was: bytes): seq<Record> {
    VarintField(1, Unsigned32(m.typ)) + FixedField(2, m.height) + FixedField(3, m.round) + VarintField(4, m.polRound)
    + (IDSent(5, m.blockID) + TimeSent(6, m.timestamp, was) + BytesField(7, m.chainID))
  }

  lemma ProposalHeldSize(m: ProposalMsg, was: bytes)
    ensures |Encode(ProposalHeld(m, was))| == LeastProposal(m, was)
  {
    hide Encode, VarintField, FixedField, BytesField, IDSent, TimeSent, VarintSize, Shortest, IDCost, TimeCost;
    hide Spells, Unsigned32;
    var e, f, g := IDSent(5, m.blockID), TimeSent(6, m.timestamp, was), BytesField(7, m.chainID);
    EncodeThree(e, f, g);
    EncodeFive(VarintField(1, Unsigned32(m.typ)), FixedField(2, m.height), FixedField(3, m.round),
               VarintField(4, m.polRound), e + f + g);
    LowWord(m.typ);
    ScalarSizes(1, 0, Unsigned32(m.typ), []);
    ScalarSizes(2, m.height, 0, []);
    ScalarSizes(3, m.round, 0, []);
    ScalarSizes(4, 0, m.polRound, []);
    SentSizes(5, m.blockID, m.timestamp, was);
    ScalarSizes(7, 0, 0, m.chainID);
  }

  lemma ProposalHeldDecodes(m: ProposalMsg, was: bytes)
    requires |Encode(ProposalHeld(m, was))| <= MAX_LEN
    ensures Decode(ProposalCodec(), ProposalMsg(0, 0, 0, 0, None, was, []), Encode(ProposalHeld(m, was)))
            == Fold(ProposalCodec(), ProposalMsg(0, 0, 0, 0, None, was, []), ProposalHeld(m, was))
  {
    hide Decode, Encode, Fold, BlockIDHeld, MergeBlockID, Unsigned32, Unsigned64;
    DecodeFields(ProposalCodec(), ProposalMsg(0, 0, 0, 0, None, was, []), ProposalHeld(m, was));
  }

  lemma ProposalIDCost(m: ProposalMsg, was: bytes)
    ensures IDCost(m.blockID) <= LeastProposal(m, was)
  {
    hide IDCost, TimeCost, Shortest, VarintSize, BytesSize;
  }

  lemma ProposalIsReached(m: ProposalMsg, was: bytes)
    requires LeastProposal(m, was) <= MAX_LEN
    ensures Decode(ProposalCodec(), ProposalMsg(0, 0, 0, 0, None, was, []), Encode(ProposalHeld(m, was))) == Ok(m)
  {
    hide Decode, Encode, Fold, ProposalHeld, IDCost, LeastProposal;
    ProposalHeldSize(m, was);
    ProposalHeldDecodes(m, was);
    ProposalIDCost(m, was);
    ProposalHeldFold(m, was);
  }

  function ProposalNumbers(m: ProposalMsg): seq<Record> {
    VarintField(1, Unsigned32(m.typ)) + FixedField(2, m.height) + FixedField(3, m.round) + VarintField(4, m.polRound)
  }

  lemma ProposalNumbersFold(m: ProposalMsg, was: bytes)
    ensures Fold(ProposalCodec(), ProposalMsg(0, 0, 0, 0, None, was, []), ProposalNumbers(m))
            == Ok(ProposalMsg(m.typ, m.height, m.round, m.polRound, None, was, []))
  {
    hide Fold, Signed64, Signed32, Unsigned32, Unsigned64, MergeBlockID, VarintSize, Shortest;
    var codec, m0 := ProposalCodec(), ProposalMsg(0, 0, 0, 0, None, was, []);
    var a, b, c := VarintField(1, Unsigned32(m.typ)), FixedField(2, m.height), FixedField(3, m.round);
    var d := VarintField(4, m.polRound);
    var m1 := m0.(typ := m.typ);
    var m2 := m1.(height := m.height);
    var m3 := m2.(round := m.round);
    LowWord(m.typ);
    SignedRoundTrip(m.height);
    SignedRoundTrip(m.round);
    SignedRoundTrip(m.polRound);
    FoldFirst(codec, m0, a, m1);
    FoldPush(codec, m0, a, m1, b, m2);
    FoldPush(codec, m0, a + b, m2, c, m3);
    FoldPush(codec, m0, a + b + c, m3, d, m3.(polRound := m.polRound));
  }

  lemma ProposalHeldFold(m: ProposalMsg, was: bytes)
    requires IDCost(m.blockID) <= MAX_LEN
    ensures Fold(ProposalCodec(), ProposalMsg(0, 0, 0, 0, None, was, []), ProposalHeld(m, was)) == Ok(m)
  {
    hide Fold, Encode, BlockIDHeld, MergeBlockID, IDCost, ProposalNumbers;
    var codec, m0 := ProposalCodec(), ProposalMsg(0, 0, 0, 0, None, was, []);
    var d, e := ProposalNumbers(m), IDSent(5, m.blockID);
    var f, g := TimeSent(6, m.timestamp, was), BytesField(7, m.chainID);
    var m4 := ProposalMsg(m.typ, m.height, m.round, m.polRound, None, was, []);
    var m5 := m4.(blockID := m.blockID);
    var m6 := m5.(timestamp := m.timestamp);
    ProposalNumbersFold(m, was);
    if m.blockID.Some? {
      IDSentMerges(5, m.blockID);
    }
    FoldPush(codec, m0, d, m4, e, m5);
    FoldPush(codec, m0, d + e, m5, f, m6);
    FoldPush(codec, m0, d + e + f, m6, g, m);
    assert ProposalHeld(m, was) == d + (e + f + g) by { ProposalParts(m, was); }
    assert d + (e + f + g) == d + e + f + g;
  }

  lemma ProposalParts(m: ProposalMsg, was: bytes)
    ensures ProposalHeld(m, was) ==
            ProposalNumbers(m) + (IDSent(5, m.blockID) + TimeSent(6, m.timestamp, was) + BytesField(7, m.chainID))
  {
  }

  // ---------------------------------------------------------------------------------------
  // What the marshallers write
  // ---------------------------------------------------------------------------------------

  lemma HeaderSize(h: PartSetHeaderMsg)
    ensures |PartSetHeaderBytes(h)| == VarintSize(h.total) + BytesSize(h.hash.Data())
  {
    hide Encode, VarintField, BytesField, VarintSize, BytesSize;
    EncodeConcat(VarintField(1, h.total), BytesField(2, h.hash.Data()));
    ScalarSizes(1, 0, h.total, []);
    ScalarSizes(2, 0, 0, h.hash.Data());
  }

  lemma BlockIDSize(m: BlockIDMsg)
    ensures |BlockIDBytes(m)| == BytesSize(m.hash.Data()) + Delimited(|PartSetHeaderBytes(m.partSetHeader)|)
  {
    hide Encode, BytesField, BytesSize, Delimited, PartSetHeaderFields;
    var header := Record(2, BytesP(PartSetHeaderBytes(m.partSetHeader)));
    EncodeConcat(BytesField(1, m.hash.Data()), [header]);
    ScalarSizes(1, 0, 0, m.hash.Data());
    OneRecord(header);
    RecordSize(header);
  }

  function IDSize(id: Option<BlockIDMsg>): nat {
    if id.None? then 0 else Delimited(|BlockIDBytes(id.value)|)
  }

  lemma VoteSize(m: VoteMsg)
    ensures |VoteBytes(m)| == VarintSize(m.typ) + FixedSize(m.height) + FixedSize(m.round) + IDSize(m.blockID)
                              + Delimited(|m.timestamp|) + BytesSize(m.chainID)
  {
    hide Encode, VarintField, FixedField, BytesField, BlockIDField, VarintSize, BytesSize, Delimited, BlockIDFields;
    VoteBytesParts(m);
    ScalarSizes(1, 0, m.typ, []);
    ScalarSizes(2, m.height, 0, []);
    ScalarSizes(3, m.round, 0, []);
    BlockIDFieldSize(4, m.blockID);
    OneRecord(Record(5, BytesP(m.timestamp)));
    RecordSize(Record(5, BytesP(m.timestamp)));
    ScalarSizes(6, 0, 0, m.chainID);
  }

  lemma ProposalSize(m: ProposalMsg)
    ensures |ProposalBytes(m)| == VarintSize(m.typ) + FixedSize(m.height) + FixedSize(m.round) + VarintSize(m.polRound)
                                  + IDSize(m.blockID) + Delimited(|m.timestamp|) + BytesSize(m.chainID)
  {
    hide Encode, VarintField, FixedField, BytesField, BlockIDField, VarintSize, BytesSize, Delimited, BlockIDFields;
    var e, f, g := BlockIDField(5, m.blockID), [Record(6, BytesP(m.timestamp))], BytesField(7, m.chainID);
    var a, b, c, d := VarintField(1, m.typ), FixedField(2, m.height), FixedField(3, m.round), VarintField(4, m.polRound);
    EncodeFive(a, b, c, d, e);
    EncodeThree(a + b + c + d + e, f, g);
    ScalarSizes(1, 0, m.typ, []);
    ScalarSizes(2, m.height, 0, []);
    ScalarSizes(3, m.round, 0, []);
    ScalarSizes(4, 0, m.polRound, []);
    BlockIDFieldSize(5, m.blockID);
    OneRecord(Record(6, BytesP(m.timestamp)));
    RecordSize(Record(6, BytesP(m.timestamp)));
    ScalarSizes(7, 0, 0, m.chainID);
  }

  // ---------------------------------------------------------------------------------------
  // Growth
  // ---------------------------------------------------------------------------------------

  /** Bytes that are there but empty cost the input two bytes and the marshaller none. */
  lemma HeldCosts(b: Buf)
    ensures HeldSize(b) == BytesSize(b.Data()) + if b == Buf([]) then 2 else 0
  {
    if b == Buf([]) {
      DelimitedNothing(|b.data|);
    }
  }

  /** A part set header never grows. */
  lemma HeaderReencodes(b: bytes)
    requires Decode(PartSetHeaderCodec(), EMPTY_PART_SET_HEADER, b).Ok?
    ensures |PartSetHeaderBytes(Decode(PartSetHeaderCodec(), EMPTY_PART_SET_HEADER, b).value)| <= |b|
  {
    hide Decode, Encode, HeldSize, BytesSize, VarintSize;
    var h := Decode(PartSetHeaderCodec(), EMPTY_PART_SET_HEADER, b).value;
    HeaderIsLeast(EMPTY_PART_SET_HEADER, b);
    NothingHeld();
    HeaderSize(h);
    HeldCosts(h.hash);
  }

  lemma ExtensionIsLeast(b: bytes)
    requires Decode(VoteExtensionCodec(), EMPTY_VOTE_EXTENSION, b).Ok?
    ensures LeastExtension(Decode(VoteExtensionCodec(), EMPTY_VOTE_EXTENSION, b).value) <= |b|
  {
    hide Decode, LeastExtension;
    forall m: VoteExtensionMsg, f: nat, p: Payload |
      VoteExtensionCodec().apply(m, f, p).Ok? && VoteExtensionCodec().wants(f) == Some(p.WireType()) && f > 0
      ensures LeastExtension(VoteExtensionCodec().apply(m, f, p).value) <= LeastExtension(m) + |Record(f, p).Bytes()|
    {
      ExtensionField(m, f, p);
    }
    DecodeDoesNotGrow(VoteExtensionCodec(), LeastExtension, EMPTY_VOTE_EXTENSION, b);
    EmptyExtension();
  }

  lemma EmptyExtension()
    ensures LeastExtension(EMPTY_VOTE_EXTENSION) == 0
  {
  }

  /** Nor does a vote extension. */
  lemma VoteExtensionReencodes(b: bytes)
    requires Decode(VoteExtensionCodec(), EMPTY_VOTE_EXTENSION, b).Ok?
    ensures |VoteExtensionBytes(Decode(VoteExtensionCodec(), EMPTY_VOTE_EXTENSION, b).value)| <= |b|
  {
    hide Decode, Encode, VarintField, FixedField, BytesField, HeldSize, BytesSize;
    ExtensionIsLeast(b);
    var m := Decode(VoteExtensionCodec(), EMPTY_VOTE_EXTENSION, b).value;
    EncodeFour(BytesField(1, m.extension.Data()), FixedField(2, m.height), FixedField(3, m.round),
               BytesField(4, m.chainId));
    ScalarSizes(1, 0, 0, m.extension.Data());
    ScalarSizes(2, m.height, 0, []);
    ScalarSizes(3, m.round, 0, []);
    ScalarSizes(4, 0, 0, m.chainId);
    HeldCosts(m.extension);
  }

  lemma EmptyHeaderBytes()
    ensures PartSetHeaderBytes(EMPTY_PART_SET_HEADER) == []
  {
  }

  /** The marshaller's header against the cheapest one: dearer by two bytes if it is empty, and cheaper
      if its hash is there but empty. */
  lemma HeaderCosts(h: PartSetHeaderMsg)
    ensures h == EMPTY_PART_SET_HEADER ==> Delimited(|PartSetHeaderBytes(h)|) == HeaderCost(h) + 2
    ensures h != EMPTY_PART_SET_HEADER ==> Delimited(|PartSetHeaderBytes(h)|) <= HeaderCost(h)
    ensures h != EMPTY_PART_SET_HEADER && h.hash != Buf([]) ==> Delimited(|PartSetHeaderBytes(h)|) == HeaderCost(h)
  {
    hide Encode, HeldSize, BytesSize, VarintSize, Delimited;
    HeaderSize(h);
    HeldCosts(h.hash);
    DelimitedMonotone(|PartSetHeaderBytes(h)|, LeastHeader(h));
    if h == EMPTY_PART_SET_HEADER {
      EmptyHeaderBytes();
      DelimitedNothing(|PartSetHeaderBytes(h)|);
    }
  }

  lemma BlockIDCosts(m: BlockIDMsg)
    ensures LeastBlockID(m) < |BlockIDBytes(m)| <==> m.partSetHeader == EMPTY_PART_SET_HEADER && m.hash != Buf([])
    ensures m.partSetHeader == EMPTY_PART_SET_HEADER && m.hash != Buf([]) ==> |BlockIDBytes(m)| == LeastBlockID(m) + 2
    ensures m.partSetHeader != EMPTY_PART_SET_HEADER && NormalBlockID(m) == m ==> |BlockIDBytes(m)| == LeastBlockID(m)
  {
    hide HeldSize, BytesSize, Delimited, HeaderCost, PartSetHeaderBytes, BlockIDBytes;
    BlockIDSize(m);
    HeldCosts(m.hash);
    HeaderCosts(m.partSetHeader);
  }

  /** A block id can grow if and only if its header is the empty one, which no input needs to send and the
      marshaller always does, and its hash is not there but empty, which costs the input as much. */
  lemma BlockIDGrowsIff(m: BlockIDMsg)
    requires |BlockIDBytes(m)| <= MAX_LEN
    ensures (exists b: bytes :: Decode(BlockIDCodec(), EMPTY_BLOCK_ID, b) == Ok(m) && |b| < |BlockIDBytes(m)|)
            <==> m.partSetHeader == EMPTY_PART_SET_HEADER && m.hash != Buf([])
  {
    hide Decode, Encode, BlockIDHeld, LeastBlockID, BlockIDBytes;
    BlockIDCosts(m);
    forall b: bytes | Decode(BlockIDCodec(), EMPTY_BLOCK_ID, b) == Ok(m)
      ensures LeastBlockID(m) <= |b|
    {
      BlockIDIsLeast(EMPTY_BLOCK_ID, b);
      NothingHeld();
    }
    if LeastBlockID(m) < |BlockIDBytes(m)| {
      BlockIDHeldSize(m);
      BlockIDIsReached(m);
      var b := Encode(BlockIDHeld(m));
      assert Decode(BlockIDCodec(), EMPTY_BLOCK_ID, b) == Ok(m) && |b| < |BlockIDBytes(m)|;
    }
  }

  /** By at most two bytes: the empty input gives a message of two. */
  lemma BlockIDReencodes(b: bytes)
    requires Decode(BlockIDCodec(), EMPTY_BLOCK_ID, b).Ok?
    ensures |BlockIDBytes(Decode(BlockIDCodec(), EMPTY_BLOCK_ID, b).value)| <= |b| + 2
    ensures Decode(BlockIDCodec(), EMPTY_BLOCK_ID, []) == Ok(EMPTY_BLOCK_ID) && |BlockIDBytes(EMPTY_BLOCK_ID)| == 2
  {
    NothingDecodes();
    hide Decode, BlockIDBytes, LeastBlockID;
    var m := Decode(BlockIDCodec(), EMPTY_BLOCK_ID, b).value;
    BlockIDIsLeast(EMPTY_BLOCK_ID, b);
    NothingHeld();
    BlockIDCosts(m);
    BlockIDCosts(EMPTY_BLOCK_ID);
  }

  lemma NothingDecodes()
    ensures Decode(BlockIDCodec(), EMPTY_BLOCK_ID, []) == Ok(EMPTY_BLOCK_ID)
  {
  }

  /** The id carries a header that no input needs to send. */
  predicate HasEmptyHeader(id: Option<BlockIDMsg>) {
    id.Some? && id.value.partSetHeader == EMPTY_PART_SET_HEADER
  }

  lemma DelimitedTwoMore(n: nat)
    ensures Delimited(n) + 2 <= Delimited(n + 2) <= Delimited(n) + 3
  {
    SovIsVarintLength(n);
    SovIsVarintLength(n + 2);
    VarintLengthSum(n, 2);
    VarintLengthMonotone(n, n + 2);
  }

  /** The marshaller's block id against the cheapest one. */
  lemma IDCosts(id: Option<BlockIDMsg>)
    ensures IDSize(id) <= IDCost(id) + if HasEmptyHeader(id) then 3 else 0
    ensures NormalID(id) == id && !HasEmptyHeader(id) ==> IDSize(id) == IDCost(id)
    ensures NormalID(id) == id && HasEmptyHeader(id) ==> IDSize(id) >= IDCost(id) + 2
  {
    hide Delimited, LeastBlockID, BlockIDBytes;
    if id.Some? {
      var least, size := LeastBlockID(id.value), |BlockIDBytes(id.value)|;
      BlockIDCosts(id.value);
      if size <= least {
        DelimitedMonotone(size, least);
      } else {
        DelimitedTwoMore(least);
      }
    }
  }

  function TimeExcess(timestamp: bytes, was: bytes): nat {
    if timestamp == was then Delimited(|timestamp|) else 0
  }

  /** Re-encoding a vote takes at most five bytes more for a negative type, three for a block id with an
      empty header, and the whole timestamp if the input did not change it. */
  lemma VoteReencodes(b: bytes, was: bytes)
    requires Decode(VoteCodec(), VoteMsg(0, 0, 0, None, was, []), b).Ok?
    ensures var m := Decode(VoteCodec(), VoteMsg(0, 0, 0, None, was, []), b).value;
            |VoteBytes(m)| <= |b| + Excess(m.typ) + TimeExcess(m.timestamp, was)
                               + if HasEmptyHeader(m.blockID) then 3 else 0
  {
    hide Decode, VoteBytes, IDCost, IDSize, Shortest, VarintSize, Excess, Delimited;
    var m := Decode(VoteCodec(), VoteMsg(0, 0, 0, None, was, []), b).value;
    VoteIsLeast(m, was, b);
    VoteSize(m);
    SizeIsShortestAndExcess(m.typ);
    IDCosts(m.blockID);
  }

  /** Some input decodes to the message, into a receiver with the timestamp `was`, and is shorter than it. */
  ghost predicate VoteCanGrow(m: VoteMsg, was: bytes) {
    exists b: bytes :: Decode(VoteCodec(), VoteMsg(0, 0, 0, None, was, []), b) == Ok(m) && |b| < |VoteBytes(m)|
  }

  lemma VoteCosts(m: VoteMsg, was: bytes)
    ensures |VoteBytes(m)| + IDCost(m.blockID) ==
            LeastVote(m, was) + IDSize(m.blockID) + Excess(m.typ) + TimeExcess(m.timestamp, was)
    ensures NormalID(m.blockID) == m.blockID ==>
            (LeastVote(m, was) < |VoteBytes(m)| <==> m.typ < 0 || m.timestamp == was || HasEmptyHeader(m.blockID))
  {
    hide VoteBytes, IDCost, IDSize, Shortest, VarintSize, Delimited, NormalID;
    VoteSize(m);
    SizeIsShortestAndExcess(m.typ);
    IDCosts(m.blockID);
    DelimitedLonger(|m.timestamp|);
  }

  /** A vote can grow if and only if what the marshaller adds for a negative type and an unchanged timestamp
      is more than what it saves on the block id; and so, when no bytes of the id are there but empty, if
      and only if the type is negative, the timestamp is the one the receiver had, or the id's header is
      empty. */
  lemma VoteGrowsIff(m: VoteMsg, was: bytes)
    requires |VoteBytes(m)| <= MAX_LEN
    ensures VoteCanGrow(m, was) <==>
            IDCost(m.blockID) < IDSize(m.blockID) + Excess(m.typ) + TimeExcess(m.timestamp, was)
    ensures NormalID(m.blockID) == m.blockID ==>
            (VoteCanGrow(m, was) <==> m.typ < 0 || m.timestamp == was || HasEmptyHeader(m.blockID))
  {
    hide Decode, Encode, VoteHeld, LeastVote, VoteBytes, IDCost, IDSize, Excess, TimeExcess, NormalID;
    VoteCosts(m, was);
    forall b: bytes | Decode(VoteCodec(), VoteMsg(0, 0, 0, None, was, []), b) == Ok(m)
      ensures LeastVote(m, was) <= |b|
    {
      VoteIsLeast(m, was, b);
    }
    if LeastVote(m, was) < |VoteBytes(m)| {
      VoteHeldSize(m, was);
      VoteIsReached(m, was);
      var b := Encode(VoteHeld(m, was));
      assert Decode(VoteCodec(), VoteMsg(0, 0, 0, None, was, []), b) == Ok(m) && |b| < |VoteBytes(m)|;
    }
  }

  /** The same for a proposal. */
  lemma ProposalReencodes(b: bytes, was: bytes)
    requires Decode(ProposalCodec(), ProposalMsg(0, 0, 0, 0, None, was, []), b).Ok?
    ensures var m := Decode(ProposalCodec(), ProposalMsg(0, 0, 0, 0, None, was, []), b).value;
            |ProposalBytes(m)| <= |b| + Excess(m.typ) + TimeExcess(m.timestamp, was)
                                  + if HasEmptyHeader(m.blockID) then 3 else 0
  {
    hide Decode, ProposalBytes, IDCost, IDSize, Shortest, VarintSize, Excess, Delimited;
    var m := Decode(ProposalCodec(), ProposalMsg(0, 0, 0, 0, None, was, []), b).value;
    ProposalIsLeast(m, was, b);
    ProposalSize(m);
    SizeIsShortestAndExcess(m.typ);
    IDCosts(m.blockID);
  }

  /** Some input decodes to the message, into a receiver with the timestamp `was`, and is shorter than it. */
  ghost predicate ProposalCanGrow(m: ProposalMsg, was: bytes) {
    exists b: bytes :: Decode(ProposalCodec(), ProposalMsg(0, 0, 0, 0, None, was, []), b) == Ok(m)
      && |b| < |ProposalBytes(m)|
  }

  lemma ProposalCosts(m: ProposalMsg, was: bytes)
    ensures |ProposalBytes(m)| + IDCost(m.blockID) ==
            LeastProposal(m, was) + IDSize(m.blockID) + Excess(m.typ) + TimeExcess(m.timestamp, was)
    ensures NormalID(m.blockID) == m.blockID ==>
            (LeastProposal(m, was) < |ProposalBytes(m)| <==> m.typ < 0 || m.timestamp == was || HasEmptyHeader(m.blockID))
  {
    hide ProposalBytes, IDCost, IDSize, Shortest, VarintSize, Delimited, NormalID;
    ProposalSize(m);
    SizeIsShortestAndExcess(m.typ);
    IDCosts(m.blockID);
    DelimitedLonger(|m.timestamp|);
  }

  lemma ProposalGrowsIff(m: ProposalMsg, was: bytes)
    requires |ProposalBytes(m)| <= MAX_LEN
    ensures ProposalCanGrow(m, was) <==>
            IDCost(m.blockID) < IDSize(m.blockID) + Excess(m.typ) + TimeExcess(m.timestamp, was)
    ensures NormalID(m.blockID) == m.blockID ==>
            (ProposalCanGrow(m, was) <==> m.typ < 0 || m.timestamp == was || HasEmptyHeader(m.blockID))
  {
    hide Decode, Encode, ProposalHeld, LeastProposal, ProposalBytes, IDCost, IDSize, Excess, TimeExcess, NormalID;
    ProposalCosts(m, was);
    forall b: bytes | Decode(ProposalCodec(), ProposalMsg(0, 0, 0, 0, None, was, []), b) == Ok(m)
      ensures LeastProposal(m, was) <= |b|
    {
      ProposalIsLeast(m, was, b);
    }
    if LeastProposal(m, was) < |ProposalBytes(m)| {
      ProposalHeldSize(m, was);
      ProposalIsReached(m, was);
      var b := Encode(ProposalHeld(m, was));
      assert Decode(ProposalCodec(), ProposalMsg(0, 0, 0, 0, None, was, []), b) == Ok(m) && |b| < |ProposalBytes(m)|;
    }
  }
}
