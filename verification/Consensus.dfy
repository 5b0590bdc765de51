/**
  NewRoundStep and HasVote of proto/tendermint/consensus/types.pb.go on values: 32-bit fields that
  are written sign-extended to 64 bits and read back through a 32-bit accumulator.
*/
module Consensus {
  import opened Wire
  import opened Decoding
  import opened Fields
  import opened Occurrences
  import opened Int32

  datatype NewRoundStepMsg =
    NewRoundStepMsg(height: int64, round: int32, step: uint32, secondsSinceStartTime: int64, lastCommitRound: int32)
  datatype HasVoteMsg = HasVoteMsg(height: int64, round: int32, typ: int32, index: int32)

  const EMPTY_NEW_ROUND_STEP := NewRoundStepMsg(0, 0, 0, 0, 0)
  const EMPTY_HAS_VOTE := HasVoteMsg(0, 0, 0, 0)

  function NewRoundStepWants(field: int): Option<nat> {
    if 1 <= field <= 5 then Some(0) else None
  }

  function NewRoundStepApply(m: NewRoundStepMsg, field: int, p: Payload): Result<NewRoundStepMsg> {
    match p
    case VarintP(v) =>
      if field == 1 then Ok(m.(height := Signed64(v)))
      else if field == 2 then Ok(m.(round := Signed32(v)))
      else if field == 3 then Ok(m.(step := Unsigned32(v)))
      else if field == 4 then Ok(m.(secondsSinceStartTime := Signed64(v)))
      else Ok(m.(lastCommitRound := Signed32(v)))
    case _ => Ok(m)
  }

  function NewRoundStepCodec(): (c: Codec<NewRoundStepMsg>)
    ensures c.Valid()
  {
    Codec(NewRoundStepWants, NewRoundStepApply)
  }

  function HasVoteWants(field: int): Option<nat> {
    if 1 <= field <= 4 then Some(0) else None
  }

  function HasVoteApply(m: HasVoteMsg, field: int, p: Payload): Result<HasVoteMsg> {
    match p
    case VarintP(v) =>
      if field == 1 then Ok(m.(height := Signed64(v)))
      else if field == 2 then Ok(m.(round := Signed32(v)))
      else if field == 3 then Ok(m.(typ := Signed32(v)))
      else Ok(m.(index := Signed32(v)))
    case _ => Ok(m)
  }

  function HasVoteCodec(): (c: Codec<HasVoteMsg>)
    ensures c.Valid()
  {
    Codec(HasVoteWants, HasVoteApply)
  }

  /** The fields of a NewRoundStep with its two int32s sent as the given words. */
  function StepFields(m: NewRoundStepMsg, round: word, lastCommitRound: word): seq<Record> {
    VarintField(1, m.height) + VarintField(2, round) + VarintField(3, m.step)
    + VarintField(4, m.secondsSinceStartTime) + VarintField(5, lastCommitRound)
  }

  function NewRoundStepFields(m: NewRoundStepMsg): seq<Record> {
    StepFields(m, m.round, m.lastCommitRound)
  }

  /** The fields of a HasVote with its three int32s sent as the given words. */
  function VoteFields(height: int64, round: word, typ: word, index: word): seq<Record> {
    VarintField(1, height) + VarintField(2, round) + VarintField(3, typ) + VarintField(4, index)
  }

  function HasVoteFields(m: HasVoteMsg): seq<Record> {
    VoteFields(m.height, m.round, m.typ, m.index)
  }

  // ---------------------------------------------------------------------------------------
  // Round trips
  // ---------------------------------------------------------------------------------------

  lemma StepFold(m: NewRoundStepMsg, round: word, lastCommitRound: word)
    requires Spells(round, m.round) && Spells(lastCommitRound, m.lastCommitRound)
    ensures Fold(NewRoundStepCodec(), EMPTY_NEW_ROUND_STEP, StepFields(m, round, lastCommitRound)) == Ok(m)
  {
    hide Fold, Signed64, Signed32, Unsigned32, Unsigned64;
    var codec, m0 := NewRoundStepCodec(), EMPTY_NEW_ROUND_STEP;
    var a, b, c := VarintField(1, m.height), VarintField(2, round), VarintField(3, m.step);
    var d, e := VarintField(4, m.secondsSinceStartTime), VarintField(5, lastCommitRound);
    var m1 := m0.(height := m.height);
    var m2 := m1.(round := m.round);
    var m3 := m2.(step := m.step);
    var m4 := m3.(secondsSinceStartTime := m.secondsSinceStartTime);
    NarrowRoundTrip(m.height, 0, m.step);
    NarrowRoundTrip(m.secondsSinceStartTime, 0, 0);
    FoldFirst(codec, m0, a, m1);
    FoldPush(codec, m0, a, m1, b, m2);
    FoldPush(codec, m0, a + b, m2, c, m3);
    FoldPush(codec, m0, a + b + c, m3, d, m4);
    FoldPush(codec, m0, a + b + c + d, m4, e, m);
  }

  /** Every NewRoundStep decodes to itself. */
  lemma NewRoundStepRoundTrip(m: NewRoundStepMsg)
    ensures |Encode(NewRoundStepFields(m))| <= 55
    ensures Decode(NewRoundStepCodec(), EMPTY_NEW_ROUND_STEP, Encode(NewRoundStepFields(m))) == Ok(m)
  {
    hide Fold, Decode, Encode, Sov;
    NewRoundStepSizeIsLength(m);
    SovBound(Unsigned64(m.height), Unsigned64(m.round), Unsigned64(m.step));
    SovBound(Unsigned64(m.secondsSinceStartTime), Unsigned64(m.lastCommitRound), 0);
    DecodeFields(NewRoundStepCodec(), EMPTY_NEW_ROUND_STEP, NewRoundStepFields(m));
    SpellsItself(m.round);
    SpellsItself(m.lastCommitRound);
    StepFold(m, m.round, m.lastCommitRound);
  }

  lemma VoteFold(m: HasVoteMsg, round: word, typ: word, index: word)
    requires Spells(round, m.round) && Spells(typ, m.typ) && Spells(index, m.index)
    ensures Fold(HasVoteCodec(), EMPTY_HAS_VOTE, VoteFields(m.height, round, typ, index)) == Ok(m)
  {
    hide Fold, Signed64, Signed32, Unsigned32, Unsigned64;
    var codec, m0 := HasVoteCodec(), EMPTY_HAS_VOTE;
    var a, b, c, d := VarintField(1, m.height), VarintField(2, round), VarintField(3, typ), VarintField(4, index);
    var m1 := m0.(height := m.height);
    var m2 := m1.(round := m.round);
    var m3 := m2.(typ := m.typ);
    NarrowRoundTrip(m.height, 0, 0);
    FoldFirst(codec, m0, a, m1);
    FoldPush(codec, m0, a, m1, b, m2);
    FoldPush(codec, m0, a + b, m2, c, m3);
    FoldPush(codec, m0, a + b + c, m3, d, m);
  }

  lemma VoteSize(height: int64, round: word, typ: word, index: word)
    ensures VarintSize(height) + VarintSize(round) + VarintSize(typ) + VarintSize(index)
            == |Encode(VoteFields(height, round, typ, index))|
  {
    hide Encode, VarintField, VarintSize;
    ScalarSizes(1, 0, height, []);
    ScalarSizes(2, 0, round, []);
    ScalarSizes(3, 0, typ, []);
    ScalarSizes(4, 0, index, []);
    EncodeFour(VarintField(1, height), VarintField(2, round), VarintField(3, typ), VarintField(4, index));
  }

  lemma HasVoteSizeIsLength(m: HasVoteMsg)
    ensures VarintSize(m.height) + VarintSize(m.round) + VarintSize(m.typ) + VarintSize(m.index)
            == |Encode(HasVoteFields(m))|
  {
    hide Encode, VarintSize, VoteFields;
    VoteSize(m.height, m.round, m.typ, m.index);
  }

  /** Every HasVote decodes to itself. */
  lemma HasVoteRoundTrip(m: HasVoteMsg)
    ensures |Encode(HasVoteFields(m))| <= 44
    ensures Decode(HasVoteCodec(), EMPTY_HAS_VOTE, Encode(HasVoteFields(m))) == Ok(m)
  {
    hide Fold, Decode, Encode, Sov;
    HasVoteSizeIsLength(m);
    SovBound(Unsigned64(m.height), Unsigned64(m.round), Unsigned64(m.typ));
    SovBound(Unsigned64(m.index), 0, 0);
    DecodeFields(HasVoteCodec(), EMPTY_HAS_VOTE, HasVoteFields(m));
    SpellsItself(m.round);
    SpellsItself(m.typ);
    SpellsItself(m.index);
    VoteFold(m, m.round, m.typ, m.index);
  }

  // ---------------------------------------------------------------------------------------
  // Growth
  // ---------------------------------------------------------------------------------------

  function NewRoundStepSize(m: NewRoundStepMsg): nat {
    VarintSize(m.height) + VarintSize(m.round) + VarintSize(m.step)
    + VarintSize(m.secondsSinceStartTime) + VarintSize(m.lastCommitRound)
  }

  lemma StepSize(m: NewRoundStepMsg, round: word, lastCommitRound: word)
    ensures VarintSize(m.height) + VarintSize(round) + VarintSize(m.step)
            + VarintSize(m.secondsSinceStartTime) + VarintSize(lastCommitRound)
            == |Encode(StepFields(m, round, lastCommitRound))|
  {
    hide Encode, VarintField, VarintSize;
    ScalarSizes(1, 0, m.height, []);
    ScalarSizes(2, 0, round, []);
    ScalarSizes(3, 0, m.step, []);
    ScalarSizes(4, 0, m.secondsSinceStartTime, []);
    ScalarSizes(5, 0, lastCommitRound, []);
    EncodeFive(VarintField(1, m.height), VarintField(2, round), VarintField(3, m.step),
               VarintField(4, m.secondsSinceStartTime), VarintField(5, lastCommitRound));
  }

  lemma NewRoundStepSizeIsLength(m: NewRoundStepMsg)
    ensures NewRoundStepSize(m) == |Encode(NewRoundStepFields(m))|
  {
    hide Encode, VarintSize, StepFields;
    StepSize(m, m.round, m.lastCommitRound);
  }

  function ShortestStep(m: NewRoundStepMsg): nat {
    VarintSize(m.height) + Shortest(m.round) + VarintSize(m.step)
    + VarintSize(m.secondsSinceStartTime) + Shortest(m.lastCommitRound)
  }

  function ShortestVote(m: HasVoteMsg): nat {
    VarintSize(m.height) + Shortest(m.round) + Shortest(m.typ) + Shortest(m.index)
  }

  lemma StepGrowsByField(m: NewRoundStepMsg, field: nat, p: Payload)
    requires field > 0 && NewRoundStepWants(field) == Some(p.WireType())
    ensures ShortestStep(NewRoundStepApply(m, field, p).value) <= ShortestStep(m) + |Record(field, p).Bytes()|
  {
    hide Sov, Shortest, VarintSize, Signed32, Signed64, Unsigned32;
    RecordSize(Record(field, p));
    ReadingShrinks(p.v);
  }

  lemma VoteGrowsByField(m: HasVoteMsg, field: nat, p: Payload)
    requires field > 0 && HasVoteWants(field) == Some(p.WireType())
    ensures ShortestVote(HasVoteApply(m, field, p).value) <= ShortestVote(m) + |Record(field, p).Bytes()|
  {
    hide Sov, Shortest, VarintSize, Signed32, Signed64;
    RecordSize(Record(field, p));
    ReadingShrinks(p.v);
  }

  /** `ShortestStep` is the length of the shortest input that decodes to the message. */
  lemma ShortestStepIsLeast(m: NewRoundStepMsg, b: bytes)
    requires Decode(NewRoundStepCodec(), EMPTY_NEW_ROUND_STEP, b) == Ok(m)
    ensures ShortestStep(m) <= |b|
  {
    hide Decode, Sov;
    forall m: NewRoundStepMsg, f: nat, p: Payload |
      NewRoundStepCodec().apply(m, f, p).Ok? && NewRoundStepCodec().wants(f) == Some(p.WireType()) && f > 0
      ensures ShortestStep(NewRoundStepCodec().apply(m, f, p).value) <= ShortestStep(m) + |Record(f, p).Bytes()|
    {
      StepGrowsByField(m, f, p);
    }
    DecodeDoesNotGrow(NewRoundStepCodec(), ShortestStep, EMPTY_NEW_ROUND_STEP, b);
  }

  lemma ShortestStepIsReached(m: NewRoundStepMsg) returns (b: bytes)
    ensures Decode(NewRoundStepCodec(), EMPTY_NEW_ROUND_STEP, b) == Ok(m) && |b| == ShortestStep(m)
  {
    hide Decode, Encode, Fold, VarintSize, Shortest, Spells;
    var r, l := Unsigned32(m.round), Unsigned32(m.lastCommitRound);
    b := Encode(StepFields(m, r, l));
    LowWord(m.round);
    LowWord(m.lastCommitRound);
    StepSize(m, r, l);
    StepIsShort(m);
    StepFold(m, r, l);
    DecodeFields(NewRoundStepCodec(), EMPTY_NEW_ROUND_STEP, StepFields(m, r, l));
  }

  lemma StepIsShort(m: NewRoundStepMsg)
    ensures ShortestStep(m) + Excess(m.round) + Excess(m.lastCommitRound) == |Encode(NewRoundStepFields(m))| <= 55
  {
    hide Decode, Encode, VarintSize, Shortest, Excess;
    NewRoundStepRoundTrip(m);
    NewRoundStepSizeIsLength(m);
    SizeIsShortestAndExcess(m.round);
    SizeIsShortestAndExcess(m.lastCommitRound);
  }

  /** Re-encoding a NewRoundStep takes at most five more bytes for each negative int32 in it. */
  lemma NewRoundStepReencodes(b: bytes)
    requires Decode(NewRoundStepCodec(), EMPTY_NEW_ROUND_STEP, b).Ok?
    ensures var m := Decode(NewRoundStepCodec(), EMPTY_NEW_ROUND_STEP, b).value;
            |Encode(NewRoundStepFields(m))| <= |b| + Excess(m.round) + Excess(m.lastCommitRound)
  {
    hide Decode, Encode, ShortestStep, Excess;
    var m := Decode(NewRoundStepCodec(), EMPTY_NEW_ROUND_STEP, b).value;
    ShortestStepIsLeast(m, b);
    StepIsShort(m);
  }

  /** The bound is reached for every message, and so a message has an input that grows when it is
      written again if and only if one of its int32s is negative. */
  lemma NewRoundStepGrowsIff(m: NewRoundStepMsg)
    ensures exists b: bytes :: Decode(NewRoundStepCodec(), EMPTY_NEW_ROUND_STEP, b) == Ok(m)
              && |Encode(NewRoundStepFields(m))| == |b| + Excess(m.round) + Excess(m.lastCommitRound)
    ensures (exists b: bytes :: Decode(NewRoundStepCodec(), EMPTY_NEW_ROUND_STEP, b) == Ok(m)
               && |b| < |Encode(NewRoundStepFields(m))|)
            <==> m.round < 0 || m.lastCommitRound < 0
  {
    hide Decode, Encode, ShortestStep;
    var least := ShortestStepIsReached(m);
    StepIsShort(m);
    forall b: bytes | Decode(NewRoundStepCodec(), EMPTY_NEW_ROUND_STEP, b) == Ok(m)
      ensures ShortestStep(m) <= |b|
    {
      ShortestStepIsLeast(m, b);
    }
  }

  lemma ShortestVoteIsLeast(m: HasVoteMsg, b: bytes)
    requires Decode(HasVoteCodec(), EMPTY_HAS_VOTE, b) == Ok(m)
    ensures ShortestVote(m) <= |b|
  {
    hide Decode, Sov;
    forall m: HasVoteMsg, f: nat, p: Payload |
      HasVoteCodec().apply(m, f, p).Ok? && HasVoteCodec().wants(f) == Some(p.WireType()) && f > 0
      ensures ShortestVote(HasVoteCodec().apply(m, f, p).value) <= ShortestVote(m) + |Record(f, p).Bytes()|
    {
      VoteGrowsByField(m, f, p);
    }
    DecodeDoesNotGrow(HasVoteCodec(), ShortestVote, EMPTY_HAS_VOTE, b);
  }

  lemma ShortestVoteIsReached(m: HasVoteMsg) returns (b: bytes)
    ensures Decode(HasVoteCodec(), EMPTY_HAS_VOTE, b) == Ok(m) && |b| == ShortestVote(m)
  {
    hide Decode, Encode, Fold, VarintSize, Shortest, Spells;
    var r, t, i := Unsigned32(m.round), Unsigned32(m.typ), Unsigned32(m.index);
    b := Encode(VoteFields(m.height, r, t, i));
    LowWord(m.round);
    LowWord(m.typ);
    LowWord(m.index);
    VoteSize(m.height, r, t, i);
    VoteIsShort(m);
    VoteFold(m, r, t, i);
    DecodeFields(HasVoteCodec(), EMPTY_HAS_VOTE, VoteFields(m.height, r, t, i));
  }

  lemma VoteIsShort(m: HasVoteMsg)
    ensures ShortestVote(m) + Excess(m.round) + Excess(m.typ) + Excess(m.index) == |Encode(HasVoteFields(m))| <= 44
  {
    hide Decode, Encode, VarintSize, Shortest, Excess;
    HasVoteRoundTrip(m);
    HasVoteSizeIsLength(m);
    SizeIsShortestAndExcess(m.round);
    SizeIsShortestAndExcess(m.typ);
    SizeIsShortestAndExcess(m.index);
  }

  /** The same for HasVote: at most five bytes for each negative int32, ... */
  lemma HasVoteReencodes(b: bytes)
    requires Decode(HasVoteCodec(), EMPTY_HAS_VOTE, b).Ok?
    ensures var m := Decode(HasVoteCodec(), EMPTY_HAS_VOTE, b).value;
            |Encode(HasVoteFields(m))| <= |b| + Excess(m.round) + Excess(m.typ) + Excess(m.index)
  {
    hide Decode, Encode, ShortestVote, Excess;
    var m := Decode(HasVoteCodec(), EMPTY_HAS_VOTE, b).value;
    ShortestVoteIsLeast(m, b);
    VoteIsShort(m);
  }

  /** ... reached for every message, and growth if and only if there is a negative one. */
  lemma HasVoteGrowsIff(m: HasVoteMsg)
    ensures exists b: bytes :: Decode(HasVoteCodec(), EMPTY_HAS_VOTE, b) == Ok(m)
              && |Encode(HasVoteFields(m))| == |b| + Excess(m.round) + Excess(m.typ) + Excess(m.index)
    ensures (exists b: bytes :: Decode(HasVoteCodec(), EMPTY_HAS_VOTE, b) == Ok(m)
               && |b| < |Encode(HasVoteFields(m))|)
            <==> m.round < 0 || m.typ < 0 || m.index < 0
  {
    hide Decode, Encode, ShortestVote;
    var least := ShortestVoteIsReached(m);
    VoteIsShort(m);
    forall b: bytes | Decode(HasVoteCodec(), EMPTY_HAS_VOTE, b) == Ok(m)
      ensures ShortestVote(m) <= |b|
    {
      ShortestVoteIsLeast(m, b);
    }
  }

  /** Six bytes that re-encode to eleven: round 2^31 sent as a five-byte varint. */
  lemma NewRoundStepCanGrow()
    ensures var b := [0x10, 0x80, 0x80, 0x80, 0x80, 0x08];
            var r := Decode(NewRoundStepCodec(), EMPTY_NEW_ROUND_STEP, b);
            r == Ok(EMPTY_NEW_ROUND_STEP.(round := -TWO_31))
            && |Encode(NewRoundStepFields(r.value))| == |b| + 5
  {
    hide Decode, Encode, Fold, Sov;
    var r := Record(2, VarintP(TWO_31));
    var m := EMPTY_NEW_ROUND_STEP.(round := -TWO_31);
    assert Varint(8) == [8];
    assert Varint(0x400) == [0x80, 0x08];
    assert Varint(0x2_0000) == [0x80, 0x80, 0x08];
    assert Varint(0x100_0000) == [0x80, 0x80, 0x80, 0x08];
    assert Varint(TWO_31) == [0x80, 0x80, 0x80, 0x80, 0x08];
    assert r.Bytes() == [0x10, 0x80, 0x80, 0x80, 0x80, 0x08];
    OneRecord(r);
    DecodeFields(NewRoundStepCodec(), EMPTY_NEW_ROUND_STEP, [r]);
    FoldOne(NewRoundStepCodec(), EMPTY_NEW_ROUND_STEP, r);
    NewRoundStepSizeIsLength(m);
    SovOfNegative(m.round);
  }

  /** Whether an input is accepted does not depend on the receiver. */
  lemma CodecsAreBlind()
    ensures Blind(NewRoundStepCodec()) && Blind(HasVoteCodec())
  {
  }

  // ---------------------------------------------------------------------------------------
  // What a decoded message owes to its input
  // ---------------------------------------------------------------------------------------

  function NewRoundStepAt(m: NewRoundStepMsg, rs: seq<Record>): NewRoundStepMsg {
    NewRoundStepMsg(Int64At(rs, 1, m.height), Int32At(rs, 2, m.round), Uint32At(rs, 3, m.step),
                    Int64At(rs, 4, m.secondsSinceStartTime), Int32At(rs, 5, m.lastCommitRound))
  }

  lemma {:induction false} NewRoundStepFolds(m: NewRoundStepMsg, rs: seq<Record>)
    requires Typed(NewRoundStepWants, rs)
    ensures Fold(NewRoundStepCodec(), m, rs) == Ok(NewRoundStepAt(m, rs))
    decreases |rs|
  {
    if rs != [] {
      hide Fold, Signed64, Signed32, Unsigned32;
      var init, r := rs[..|rs| - 1], rs[|rs| - 1];
      assert rs == init + [r];
      NewRoundStepFolds(m, init);
      FoldOneMore(NewRoundStepCodec(), m, init, r);
    }
  }

  /** Whatever the input and the receiver, every field is the last one of its number, an explicit 0
      included, in the low bits its type keeps, or else stays. */
  lemma NewRoundStepReads(m: NewRoundStepMsg, b: bytes)
    ensures Parse(NewRoundStepWants, b).Err? ==>
              Decode(NewRoundStepCodec(), m, b) == Err(Parse(NewRoundStepWants, b).error)
    ensures Parse(NewRoundStepWants, b).Ok? ==>
              var rs := Parse(NewRoundStepWants, b).value;
              Decode(NewRoundStepCodec(), m, b) == Ok(NewRoundStepAt(m, rs))
  {
    hide Decode, Parse, Fold;
    DecodeNeverRefuses(NewRoundStepCodec(), m, b);
    if Parse(NewRoundStepWants, b).Ok? {
      NewRoundStepFolds(m, Parse(NewRoundStepWants, b).value);
    }
  }

  function HasVoteAt(m: HasVoteMsg, rs: seq<Record>): HasVoteMsg {
    HasVoteMsg(Int64At(rs, 1, m.height), Int32At(rs, 2, m.round), Int32At(rs, 3, m.typ), Int32At(rs, 4, m.index))
  }

  lemma {:induction false} HasVoteFolds(m: HasVoteMsg, rs: seq<Record>)
    requires Typed(HasVoteWants, rs)
    ensures Fold(HasVoteCodec(), m, rs) == Ok(HasVoteAt(m, rs))
    decreases |rs|
  {
    if rs != [] {
      hide Fold, Signed64, Signed32;
      var init, r := rs[..|rs| - 1], rs[|rs| - 1];
      assert rs == init + [r];
      HasVoteFolds(m, init);
      FoldOneMore(HasVoteCodec(), m, init, r);
    }
  }

  /** The same for a HasVote. */
  lemma HasVoteReads(m: HasVoteMsg, b: bytes)
    ensures Parse(HasVoteWants, b).Err? ==>
              Decode(HasVoteCodec(), m, b) == Err(Parse(HasVoteWants, b).error)
    ensures Parse(HasVoteWants, b).Ok? ==>
              var rs := Parse(HasVoteWants, b).value;
              Decode(HasVoteCodec(), m, b) == Ok(HasVoteAt(m, rs))
  {
    hide Decode, Parse, Fold;
    DecodeNeverRefuses(HasVoteCodec(), m, b);
    if Parse(HasVoteWants, b).Ok? {
      HasVoteFolds(m, Parse(HasVoteWants, b).value);
    }
  }
}
