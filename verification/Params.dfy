/**
  proto/tendermint/types/params.pb.go: ValidatorParams, and the generator of unknown fields that
  accompanies it.  The random numbers the generator draws are its inputs here.
*/
module Params {
  import opened Wire
  import opened Varints
  import opened Decoding
  import opened Fields
  import opened Occurrences
  import opened Groups
  import opened WireCode

  datatype ValidatorParamsMsg = ValidatorParamsMsg(pubKeyTypes: seq<bytes>)

  const EMPTY_VALIDATOR_PARAMS := ValidatorParamsMsg([])

  function ValidatorParamsWants(field: int): Option<nat> {
    if field == 1 then Some(2) else None
  }

  function ValidatorParamsApply(m: ValidatorParamsMsg, field: int, p: Payload): Result<ValidatorParamsMsg> {
    match p
    case BytesP(b) => Ok(ValidatorParamsMsg(m.pubKeyTypes + [b]))
    case _ => Ok(m)
  }

  function ValidatorParamsCodec(): (c: Codec<ValidatorParamsMsg>)
    ensures c.Valid()
  {
    Codec(ValidatorParamsWants, ValidatorParamsApply)
  }

  function ValidatorParamsBytes(m: ValidatorParamsMsg): bytes {
    Encode(RepeatedField(1, m.pubKeyTypes))
  }

  lemma {:induction false} FoldTypes(m0: ValidatorParamsMsg, rs: seq<Record>, m: ValidatorParamsMsg, types: seq<bytes>)
    requires Fold(ValidatorParamsCodec(), m0, rs) == Ok(m)
    ensures Fold(ValidatorParamsCodec(), m0, rs + RepeatedField(1, types))
            == Ok(ValidatorParamsMsg(m.pubKeyTypes + types))
    decreases types
  {
    hide Fold, RepeatedField;
    if types == [] {
      RepeatedNone(1, rs);
      assert m.pubKeyTypes + types == m.pubKeyTypes;
    } else {
      var r := Record(1, BytesP(types[0]));
      var m' := ValidatorParamsMsg(m.pubKeyTypes + [types[0]]);
      FoldPush(ValidatorParamsCodec(), m0, rs, m, [r], m');
      FoldTypes(m0, rs + [r], m', types[1..]);
      RepeatedSplit(1, rs, types);
      assert m'.pubKeyTypes + types[1..] == m.pubKeyTypes + types;
    }
  }

  /** Decoding appends the encoded key types to those of the receiver. */
  lemma ValidatorParamsMerge(m: ValidatorParamsMsg, x: ValidatorParamsMsg)
    requires |ValidatorParamsBytes(x)| <= MAX_LEN
    ensures Decode(ValidatorParamsCodec(), m, ValidatorParamsBytes(x))
            == Ok(ValidatorParamsMsg(m.pubKeyTypes + x.pubKeyTypes))
  {
    hide Decode, Encode, Fold;
    var rs := RepeatedField(1, x.pubKeyTypes);
    DecodeFields(ValidatorParamsCodec(), m, rs);
    FoldNone(ValidatorParamsCodec(), m);
    FoldTypes(m, [], m, x.pubKeyTypes);
    assert [] + rs == rs;
  }

  /** The argument of Equal, an `interface{}`. */
  datatype Iface = NilIface | Ptr(p: Option<ValidatorParamsMsg>) | Val(v: ValidatorParamsMsg) | OtherType

  /** `ValidatorParams.Equal` on a receiver that may be nil: a nil interface is the nil pointer, a value
      is a pointer to it, and no other type is equal to anything. */
  method Equal(left: Option<ValidatorParamsMsg>, that: Iface) returns (b: bool)
    ensures b <==>
              (that != OtherType && left == if that.NilIface? then None else if that.Val? then Some(that.v) else that.p)
  {
    if that.NilIface? { return left.None?; }
    var that1 := None;
    match that {
      case Ptr(p) => that1 := p;
      case Val(v) => that1 := Some(v);
      case _ => return false;
    }
    if that1.None? {
      return left.None?;
    } else if left.None? {
      return false;
    }
    var xs, ys := left.value.pubKeyTypes, that1.value.pubKeyTypes;
    if |xs| != |ys| { return false; }
    for i := 0 to |xs|
      invariant xs[..i] == ys[..i]
    {
      if xs[i] != ys[i] { return false; }
    }
    assert xs[..|xs|] == xs && ys[..|ys|] == ys;
    return true;
  }

  /** Equal params and no others have equal bytes. */
  lemma ValidatorParamsBytesInjective(m: ValidatorParamsMsg, x: ValidatorParamsMsg)
    requires |ValidatorParamsBytes(m)| <= MAX_LEN
    ensures ValidatorParamsBytes(m) == ValidatorParamsBytes(x) <==> m == x
  {
    hide Decode, Encode;
    if ValidatorParamsBytes(m) == ValidatorParamsBytes(x) {
      ValidatorParamsMerge(EMPTY_VALIDATOR_PARAMS, m);
      ValidatorParamsMerge(EMPTY_VALIDATOR_PARAMS, x);
      assert [] + m.pubKeyTypes == m.pubKeyTypes && [] + x.pubKeyTypes == x.pubKeyTypes;
    }
  }

  /** ValidatorParams do not grow when they are decoded and written again, and whether an input is
      accepted does not depend on the receiver. */
  lemma ValidatorParamsReencodes(b: bytes)
    requires Decode(ValidatorParamsCodec(), EMPTY_VALIDATOR_PARAMS, b).Ok?
    ensures |ValidatorParamsBytes(Decode(ValidatorParamsCodec(), EMPTY_VALIDATOR_PARAMS, b).value)| <= |b|
    ensures Blind(ValidatorParamsCodec())
  {
    hide Decode, Encode, RepeatedSize, Fields.Delimited, Record.Bytes;
    var c, size := ValidatorParamsCodec(), (m: ValidatorParamsMsg) => RepeatedSize(m.pubKeyTypes);
    forall m: ValidatorParamsMsg, f: nat, p: Payload |
      c.apply(m, f, p).Ok? && c.wants(f) == Some(p.WireType()) && f > 0
      ensures size(c.apply(m, f, p).value) <= size(m) + |Record(f, p).Bytes()|
    {
      RecordSize(Record(f, p));
      RepeatedSizeAppend(m.pubKeyTypes, p.b);
    }
    DecodeDoesNotGrow(c, size, EMPTY_VALIDATOR_PARAMS, b);
    assert size(EMPTY_VALIDATOR_PARAMS) == 0 by { NoElements(); }
    RepeatedFieldSize(1, Decode(c, EMPTY_VALIDATOR_PARAMS, b).value.pubKeyTypes);
  }

  lemma NoElements()
    ensures RepeatedSize([]) == 0
  {
  }

  function ValidatorParamsAt(m: ValidatorParamsMsg, rs: seq<Record>): ValidatorParamsMsg {
    ValidatorParamsMsg(m.pubKeyTypes + All(rs, 1))
  }

  lemma {:induction false} ValidatorParamsFolds(m: ValidatorParamsMsg, rs: seq<Record>)
    requires Typed(ValidatorParamsWants, rs)
    ensures Fold(ValidatorParamsCodec(), m, rs) == Ok(ValidatorParamsAt(m, rs))
    decreases |rs|
  {
    if rs != [] {
      hide Fold;
      var init, r := rs[..|rs| - 1], rs[|rs| - 1];
      assert rs == init + [r];
      ValidatorParamsFolds(m, init);
      FoldOneMore(ValidatorParamsCodec(), m, init, r);
      assert m.pubKeyTypes + All(init, 1) + [r.payload.b] == m.pubKeyTypes + All(rs, 1);
    } else {
      assert m.pubKeyTypes + All(rs, 1) == m.pubKeyTypes;
    }
  }

  /** Whatever the input and the receiver, the key types are appended in order, the empty ones too. */
  lemma ValidatorParamsReads(m: ValidatorParamsMsg, b: bytes)
    ensures Parse(ValidatorParamsWants, b).Err? ==>
              Decode(ValidatorParamsCodec(), m, b) == Err(Parse(ValidatorParamsWants, b).error)
    ensures Parse(ValidatorParamsWants, b).Ok? ==>
              var rs := Parse(ValidatorParamsWants, b).value;
              Decode(ValidatorParamsCodec(), m, b) == Ok(ValidatorParamsAt(m, rs))
  {
    hide Decode, Parse, Fold;
    DecodeNeverRefuses(ValidatorParamsCodec(), m, b);
    if Parse(ValidatorParamsWants, b).Ok? {
      ValidatorParamsFolds(m, Parse(ValidatorParamsWants, b).value);
    }
  }

  class ValidatorParams {
    var pubKeyTypes: seq<bytes>

    function Value(): ValidatorParamsMsg
      reads this
    {
      ValidatorParamsMsg(pubKeyTypes)
    }

    constructor ()
      ensures Value() == EMPTY_VALIDATOR_PARAMS
    {
      pubKeyTypes := [];
    }

    method MarshalToSizedBuffer(dAtA: array<byte>, lo: nat, hi: nat) returns (n: nat)
      requires |ValidatorParamsBytes(Value())| <= MAX_LEN
      requires lo + |ValidatorParamsBytes(Value())| <= hi <= dAtA.Length
      modifies dAtA
      ensures n == |ValidatorParamsBytes(Value())|
      ensures dAtA[..] == Put(old(dAtA[..]), hi, ValidatorParamsBytes(Value()))
    {
      hide Put, Encode;
      var i := WriteRepeated(dAtA, hi, 1, pubKeyTypes);
      return hi - i;
    }

    method Unmarshal(dAtA: bytes) returns (r: Result<()>)
      requires |dAtA| <= MAX_LEN
      modifies this
      ensures Agrees(Decode(ValidatorParamsCodec(), old(Value()), dAtA), r, Value())
    {
      hide Decode, ReadTag, ReadPayload, Skip;
      var l, iNdEx := |dAtA|, 0;
      DecodeEnd(ValidatorParamsCodec(), Value(), dAtA);
      while iNdEx < l
        invariant 0 <= iNdEx <= l
        invariant Decode(ValidatorParamsCodec(), Value(), dAtA[iNdEx..])
                  == Decode(ValidatorParamsCodec(), old(Value()), dAtA)
      {
        DecodeRound(ValidatorParamsCodec(), Value(), dAtA, iNdEx);
        var tag :- DecodeTag(dAtA, iNdEx);
        assert dAtA[iNdEx..][tag.v.n..] == dAtA[tag.next..];
        match tag.v.field {
          case 1 =>
            var x :- BytesCase(dAtA, tag);
            pubKeyTypes, iNdEx := pubKeyTypes + [x.v], x.next;
          case _ =>
            iNdEx :- SkipCase(dAtA, iNdEx);
        }
      }
      DecodeEnd(ValidatorParamsCodec(), Value(), dAtA);
      return Ok(());
    }
  }

  // ---------------------------------------------------------------------------------------
  // The generator of unknown fields
  // ---------------------------------------------------------------------------------------

  /** The second varint writer appends where the first one fills a buffer: both write `Varint(v)`. */
  method EncodeVarintPopulate(dAtA: bytes, v: uint64) returns (r: bytes)
    ensures r == dAtA + Varint(v)
  {
    r := dAtA;
    var x: nat := v;
    while x >= 128
      invariant r + Varint(x) == dAtA + Varint(v)
    {
      assert Varint(x) == [x % 128 + 128] + Varint(x / 128);
      r := r + [x % 128 + 128];
      x := x / 128;
    }
    r := r + [x];
  }

  /** The numbers drawn for one field: `Int63()` and whether it is negated, and the bytes. */
  datatype Draws = Draws(v3: nat, negate: bool, body: bytes)

  predicate Drawable(wire: nat, d: Draws) {
    && d.v3 < TWO_63
    && match wire
       case 0 => true
       case 1 => |d.body| == 8
       case 2 => |d.body| < 100
       case _ => |d.body| == 4
  }

  /** `uint32(fieldNumber)<<3 | uint32(wire)`: the upper three bits of the number are lost. */
  function Key(fieldNumber: int, wire: nat): (k: nat)
    requires wire < 8
  {
    fieldNumber % TWO_32 * 8 % TWO_32 + wire
  }

  lemma Remainder29(x: int, q: int, r: int)
    requires 0 <= r < 0x2000_0000 && x == q * 0x2000_0000 + r
    ensures x % 0x2000_0000 == r
  {
  }

  lemma KeyParts(fieldNumber: int, wire: nat)
    requires wire < 8
    ensures var key := Key(fieldNumber, wire);
            key < TWO_32 && key / 8 == fieldNumber % 0x2000_0000 && key % 8 == wire
  {
    var q, u: int := fieldNumber / TWO_32, fieldNumber % TWO_32;
    var high, low := u / 0x2000_0000, u % 0x2000_0000;
    Remainder29(fieldNumber, q * 8 + high, low);
    Remainder32(u * 8, high, low * 8);
  }

  /** `v3 := r.Int63()`, then perhaps `v3 *= -1`. */
  function Drawn(d: Draws): int { if d.negate then 0 - d.v3 else d.v3 }

  function RandBytes(fieldNumber: int, wire: nat, d: Draws): bytes
    requires wire < 8
  {
    Varint(Key(fieldNumber, wire)) +
    match wire
    case 0 => Varint(Unsigned64(Drawn(d)))
    case 2 => Varint(|d.body|) + d.body
    case _ => d.body
  }

  method RandField(dAtA: bytes, fieldNumber: int, wire: nat, d: Draws) returns (r: bytes)
    requires wire < 8 && Drawable(wire, d)
    ensures r == dAtA + RandBytes(fieldNumber, wire, d)
  {
    hide Varint, Key, Unsigned64;
    KeyParts(fieldNumber, wire);
    var key := Key(fieldNumber, wire);
    match wire {
      case 0 =>
        r := EncodeVarintPopulate(dAtA, key);
        var v3: int := d.v3;
        if d.negate { v3 := v3 * -1; }
        assert v3 == Drawn(d);
        r := EncodeVarintPopulate(r, Unsigned64(v3));
      case 1 =>
        r := EncodeVarintPopulate(dAtA, key);
        r := r + d.body;
      case 2 =>
        r := EncodeVarintPopulate(dAtA, key);
        var ll := |d.body|;
        r := EncodeVarintPopulate(r, ll);
        ghost var before := r;
        for j := 0 to ll
          invariant r == before + d.body[..j]
        {
          r := r + [d.body[j]];
        }
        assert d.body[..ll] == d.body;
      case _ =>
        r := EncodeVarintPopulate(dAtA, key);
        r := r + d.body;
    }
  }

  /** One round of `randUnrecognizedParams`: `Intn(4)`, the offset `Intn(100)`, the field's draws. */
  datatype Choice = Choice(wire: nat, offset: nat, draws: Draws)

  function WireOf(c: Choice): nat { if c.wire == 3 then 5 else c.wire }

  predicate Possible(c: Choice) { c.wire < 4 && c.offset < 100 && Drawable(WireOf(c), c.draws) }

  function Unrecognized(maxFieldNumber: int, choices: seq<Choice>): bytes
    requires forall c <- choices :: Possible(c)
  {
    if choices == [] then []
    else
      var c := choices[0];
      assert Possible(c);
      RandBytes(maxFieldNumber + c.offset, WireOf(c), c.draws) + Unrecognized(maxFieldNumber, choices[1..])
  }

  lemma {:induction false} UnrecognizedAppend(maxFieldNumber: int, choices: seq<Choice>, c: Choice)
    requires Possible(c) && forall x <- choices :: Possible(x)
    ensures Unrecognized(maxFieldNumber, choices + [c]) ==
            Unrecognized(maxFieldNumber, choices) + RandBytes(maxFieldNumber + c.offset, WireOf(c), c.draws)
  {
    hide RandBytes;
    if choices == [] {
      assert [c][1..] == [];
    } else {
      assert (choices + [c])[1..] == choices[1..] + [c];
      UnrecognizedAppend(maxFieldNumber, choices[1..], c);
    }
  }

  method RandUnrecognized(maxFieldNumber: int, choices: seq<Choice>) returns (dAtA: bytes)
    requires |choices| < 5 && forall c <- choices :: Possible(c)
    ensures dAtA == Unrecognized(maxFieldNumber, choices)
  {
    dAtA := [];
    for i := 0 to |choices|
      invariant dAtA == Unrecognized(maxFieldNumber, choices[..i])
    {
      assert Possible(choices[i]);
      var wire := choices[i].wire;
      if wire == 3 { wire := 5; }
      var fieldNumber := maxFieldNumber + choices[i].offset;
      dAtA := RandField(dAtA, fieldNumber, wire, choices[i].draws);
      assert choices[..i + 1] == choices[..i] + [choices[i]];
      UnrecognizedAppend(maxFieldNumber, choices[..i], choices[i]);
    }
    assert choices[..|choices|] == choices;
  }

  lemma WholeVarint(v: uint64)
    ensures ReadVarint(Varint(v)) == Ok(Num(v, |Varint(v)|))
  {
    VarintRoundTrip(v, []);
    SovIsVarintLength(v);
    assert Varint(v) + [] == Varint(v);
  }

  lemma SmallField(f: nat)
    requires f < TWO_31
    ensures Signed32(f) == f
  {
  }

  lemma KeyTag(fieldNumber: int, wire: nat)
    requires wire < 8
    ensures var tag := Varint(Key(fieldNumber, wire));
            ReadTag(tag) == Ok(Tag(fieldNumber % 0x2000_0000, wire, |tag|))
  {
    hide Key, ReadVarint, Varint;
    KeyParts(fieldNumber, wire);
    WholeVarint(Key(fieldNumber, wire));
    SmallField(fieldNumber % 0x2000_0000);
  }

  /** Whatever is drawn, and whatever the field number, the generator emits one record of the wire
      grammar, so the skip function consumes it whole and stops there. */
  lemma RandFieldIsRecord(fieldNumber: int, wire: nat, d: Draws)
    requires wire in {0, 1, 2, 5} && Drawable(wire, d)
    ensures IsRecord(RandBytes(fieldNumber, wire, d))
  {
    hide ReadTag, ReadVarint, Varint;
    var tag := Varint(Key(fieldNumber, wire));
    KeyTag(fieldNumber, wire);
    var t: Tree;
    if wire == 0 {
      var v := Unsigned64(Drawn(d));
      WholeVarint(v);
      t := Number(tag, Varint(v));
    } else if wire == 1 {
      t := Fixed64(tag, d.body);
    } else if wire == 2 {
      WholeVarint(|d.body|);
      t := Tree.Delimited(tag, Varint(|d.body|), d.body);
      assert Flat(t) == tag + (Varint(|d.body|) + d.body);
    } else {
      t := Fixed32(tag, d.body);
    }
    assert WellFormed(t) && Flat(t) == RandBytes(fieldNumber, wire, d);
  }

  lemma RandFieldSkipped(fieldNumber: int, wire: nat, d: Draws, rest: bytes)
    requires wire in {0, 1, 2, 5} && Drawable(wire, d)
    ensures Skip(RandBytes(fieldNumber, wire, d) + rest, 0) == Ok(|RandBytes(fieldNumber, wire, d)|)
  {
    RandFieldIsRecord(fieldNumber, wire, d);
    SkipOfRecord(RandBytes(fieldNumber, wire, d), rest);
  }

  /** What the generator is for: unrecognized fields leave a decoded message as it was.  That needs
      every field number to be one the decoder does not know once the key has been cut to 32 bits;
      a number that is a multiple of 2^29 makes an illegal tag instead. */
  lemma {:induction false} UnrecognizedIsTransparent<M>(c: Codec<M>, m: M, a: bytes, max: int, choices: seq<Choice>)
    requires c.Valid() && Decode(c, m, a).Ok? && forall x <- choices :: Possible(x)
    requires forall x <- choices :: var f := (max + x.offset) % 0x2000_0000; f != 0 && c.wants(f) == None
    ensures Decode(c, m, a + Unrecognized(max, choices)) == Decode(c, m, a)
    decreases choices
  {
    hide Decode, RandBytes;
    if choices == [] {
      assert a + [] == a;
    } else {
      var x := choices[0];
      assert x in choices && Possible(x);
      assert forall y <- choices[1..] :: y in choices;
      var u, rest := RandBytes(max + x.offset, WireOf(x), x.draws), Unrecognized(max, choices[1..]);
      RandFieldIsRecord(max + x.offset, WireOf(x), x.draws);
      RandFieldTag(max + x.offset, WireOf(x), x.draws);
      UnknownRecordIsTransparent(c, m, a, u, rest);
      assert a + (u + rest) == a + u + rest;
      UnrecognizedIsTransparent(c, m, a, max, choices[1..]);
    }
  }

  lemma RandFieldTag(fieldNumber: int, wire: nat, d: Draws)
    requires wire < 8
    ensures ReadTag(RandBytes(fieldNumber, wire, d)).Ok?
    ensures ReadTag(RandBytes(fieldNumber, wire, d)).value.field == fieldNumber % 0x2000_0000
    ensures ReadTag(RandBytes(fieldNumber, wire, d)).value.wireType == wire
    ensures ReadTag(RandBytes(fieldNumber, wire, d)).value.n == |Varint(Key(fieldNumber, wire))|
  {
    hide ReadVarint, Varint;
    var tag := Varint(Key(fieldNumber, wire));
    KeyTag(fieldNumber, wire);
    ReadVarintStable(tag, RandBytes(fieldNumber, wire, d)[|tag|..]);
    assert RandBytes(fieldNumber, wire, d) == tag + RandBytes(fieldNumber, wire, d)[|tag|..];
  }

  /** What a decoder reads when it knows the number that is left after the cut. */
  function DrawnPayload(wire: nat, d: Draws): Payload
    requires Drawable(wire, d) && wire <= 2
  {
    match wire
    case 0 => VarintP(Unsigned64(Drawn(d)))
    case 1 =>
      LittleRange(d.body);
      FixedP(FromLittle(d.body))
    case _ => BytesP(d.body)
  }

  /** An emitted number is read back as the one drawn, negated or not. */
  lemma DrawnValue(d: Draws)
    requires Drawable(0, d)
    ensures Signed64(DrawnPayload(0, d).v) == d.v3 * if d.negate then -1 else 1
  {
    SignedRoundTrip(Drawn(d));
  }

  lemma DrawnIsRead(wire: nat, d: Draws)
    requires Drawable(wire, d) && wire <= 2
    ensures var body := match wire
              case 0 => Varint(Unsigned64(Drawn(d))) case 2 => Varint(|d.body|) + d.body case _ => d.body;
            ReadPayload(body, wire) == Ok(Sized(DrawnPayload(wire, d), |body|))
  {
    hide ReadVarint, Varint;
    match wire
    case 0 => WholeVarint(Unsigned64(Drawn(d)));
    case 1 => assert d.body[..8] == d.body;
    case _ =>
      var len := Varint(|d.body|);
      VarintRoundTrip(|d.body|, d.body);
      SovIsVarintLength(|d.body|);
      assert (len + d.body)[|len|..|len| + |d.body|] == d.body;
  }

  /** What becomes of a single emitted field, for every field number and every decoder.  It depends on
      what the cut leaves of the number: 0 is an illegal tag, a number the decoder knows is taken for
      that field or refused for its wire type, and only an unknown one is ignored. */
  lemma RandFieldRead(wants: int -> Option<nat>, fieldNumber: int, wire: nat, d: Draws)
    requires wire in {0, 1, 2, 5} && Drawable(wire, d)
    requires forall f: int :: wants(f).Some? ==> wants(f).value <= 2
    ensures var u, f := RandBytes(fieldNumber, wire, d), fieldNumber % 0x2000_0000;
            Next(wants, u) ==
            if f == 0 then Err(IllegalTag)
            else if wants(f) == None then Ok(Unknown(|u|))
            else if wants(f) != Some(wire) then Err(WrongWireType)
            else Ok(Known(f, DrawnPayload(wire, d), |u|))
  {
    hide ReadTag, Skip, ReadPayload, ReadVarint, Varint;
    var u, f := RandBytes(fieldNumber, wire, d), fieldNumber % 0x2000_0000;
    var tag := Varint(Key(fieldNumber, wire));
    RandFieldTag(fieldNumber, wire, d);
    RandFieldSkipped(fieldNumber, wire, d, []);
    assert u + [] == u;
    if wants(f) == Some(wire) {
      DrawnIsRead(wire, d);
      assert u[|tag|..] == match wire
        case 0 => Varint(Unsigned64(Drawn(d))) case 2 => Varint(|d.body|) + d.body case _ => d.body;
    }
  }

  /** So an emitted field is ignored if and only if the cut leaves an unknown number that is not 0. */
  lemma RandFieldIgnoredIff(wants: int -> Option<nat>, fieldNumber: int, wire: nat, d: Draws)
    requires wire in {0, 1, 2, 5} && Drawable(wire, d)
    requires forall f: int :: wants(f).Some? ==> wants(f).value <= 2
    ensures var u, f := RandBytes(fieldNumber, wire, d), fieldNumber % 0x2000_0000;
            Next(wants, u) == Ok(Unknown(|u|)) <==> f != 0 && wants(f) == None
  {
    hide Next, RandBytes;
    RandFieldRead(wants, fieldNumber, wire, d);
  }

  /** The two ways in which a field of an unknown number is not ignored: 2^29 makes an illegal tag, and
      2^29 + 1 is taken for field 1, which adds a key type to the receiver. */
  lemma UnknownFieldsNotIgnored()
    ensures ValidatorParamsWants(0x2000_0000) == None && ValidatorParamsWants(0x2000_0001) == None
    ensures Decode(ValidatorParamsCodec(), EMPTY_VALIDATOR_PARAMS, RandBytes(0x2000_0000, 2, Draws(0, false, [7])))
            == Err(IllegalTag)
    ensures Decode(ValidatorParamsCodec(), EMPTY_VALIDATOR_PARAMS, RandBytes(0x2000_0001, 2, Draws(0, false, [7])))
            == Ok(ValidatorParamsMsg([[7]]))
    ensures Decode(ValidatorParamsCodec(), EMPTY_VALIDATOR_PARAMS, RandBytes(0x2000_0001, 0, Draws(0, false, [7])))
            == Err(WrongWireType)
  {
    hide Next, RandBytes;
    var d := Draws(0, false, [7]);
    RandFieldRead(ValidatorParamsWants, 0x2000_0000, 2, d);
    RandFieldRead(ValidatorParamsWants, 0x2000_0001, 2, d);
    RandFieldRead(ValidatorParamsWants, 0x2000_0001, 0, d);
    var u := RandBytes(0x2000_0001, 2, d);
    assert u[|u|..] == [] && [] + [d.body] == [[7]];
    RandIsNotEmpty(0x2000_0001, 2, d);
    RandIsNotEmpty(0x2000_0000, 2, d);
    RandIsNotEmpty(0x2000_0001, 0, d);
  }

  lemma RandIsNotEmpty(fieldNumber: int, wire: nat, d: Draws)
    requires wire < 8
    ensures RandBytes(fieldNumber, wire, d) != []
  {
  }
}
