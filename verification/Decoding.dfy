/**
  Properties that every generated decoder has, whatever its message: what more input can change,
  concatenation, unknown fields, the round trip of encoded fields, and growth.
*/
module Decoding {
  import opened Wire
  import opened Varints

  // ---------------------------------------------------------------------------------------
  // Bytes behind a record cannot change how it is read
  // ---------------------------------------------------------------------------------------

  lemma {:induction false} ReadGroupsStable(a: bytes, b: bytes, budget: nat)
    requires ReadGroups(a, budget) != Err(Truncated)
    ensures ReadGroups(a + b, budget) == ReadGroups(a, budget)
  {
    if budget > 0 && a[0] >= 128 {
      assert (a + b)[1..] == a[1..] + b;
      ReadGroupsStable(a[1..], b, budget - 1);
    }
  }

  lemma ReadVarintStable(a: bytes, b: bytes)
    requires ReadVarint(a) != Err(Truncated)
    ensures ReadVarint(a + b) == ReadVarint(a)
  {
    ReadGroupsStable(a, b, 10);
  }

  lemma ReadLengthStable(a: bytes, b: bytes)
    requires ReadLength(a) != Err(Truncated)
    ensures ReadLength(a + b) == ReadLength(a)
  {
    ReadVarintStable(a, b);
  }

  lemma ReadPayloadStable(a: bytes, b: bytes, wireType: nat)
    requires wireType <= 2 && ReadPayload(a, wireType) != Err(Truncated)
    ensures ReadPayload(a + b, wireType) == ReadPayload(a, wireType)
  {
    if wireType == 0 {
      ReadVarintStable(a, b);
    } else if wireType == 1 {
      assert (a + b)[..8] == a[..8];
    } else {
      ReadLengthStable(a, b);
      if ReadLength(a).Ok? {
        var len := ReadLength(a).value;
        assert (a + b)[len.n..len.n + len.v] == a[len.n..len.n + len.v];
      }
    }
  }

  lemma SkipOneStable(a: bytes, b: bytes, depth: nat)
    requires SkipOne(a, depth) != Err(Truncated)
    ensures SkipOne(a + b, depth) == SkipOne(a, depth)
  {
    ReadVarintStable(a, b);
    if ReadTag(a).Ok? {
      var tag := ReadTag(a).value;
      assert (a + b)[tag.n..] == a[tag.n..] + b;
      if tag.wireType == 0 {
        ReadVarintStable(a[tag.n..], b);
      } else if tag.wireType == 2 {
        ReadLengthStable(a[tag.n..], b);
      }
    }
  }

  lemma {:induction false} SkipStable(a: bytes, b: bytes, depth: nat)
    requires Skip(a, depth) != Err(Truncated)
    ensures Skip(a + b, depth) == Skip(a, depth)
    decreases |a|
  {
    SkipOneStable(a, b, depth);
    var s := SkipOne(a, depth);
    if s.Ok? && s.value.depth > 0 {
      var n, d := s.value.n, s.value.depth;
      assert (a + b)[n..] == a[n..] + b;
      SkipStable(a[n..], b, d);
    }
  }

  lemma NextStable(wants: int -> Option<nat>, a: bytes, b: bytes)
    requires forall f: int :: wants(f).Some? ==> wants(f).value <= 2
    requires Next(wants, a) != Err(Truncated)
    ensures Next(wants, a + b) == Next(wants, a)
  {
    ReadVarintStable(a, b);
    if ReadTag(a).Ok? {
      var tag := ReadTag(a).value;
      if tag.wireType != 4 && tag.field > 0 {
        match wants(tag.field)
        case Some(w) =>
          if tag.wireType == w {
            assert (a + b)[tag.n..] == a[tag.n..] + b;
            ReadPayloadStable(a[tag.n..], b, w);
          }
        case None =>
          SkipStable(a, b, 0);
      }
    }
  }

  // ---------------------------------------------------------------------------------------
  // Refusals
  // ---------------------------------------------------------------------------------------

  /** An input whose first tag can be read is refused for that tag, whatever follows and whatever the
      receiver, exactly in these cases and in this order: it ends a group, its number is not positive,
      or its wire type is not the one of the field. */
  lemma TagRefused<M>(c: Codec<M>, m: M, b: bytes)
    requires c.Valid() && ReadTag(b).Ok?
    ensures var t := ReadTag(b).value;
            && (t.wireType == 4 ==> Decode(c, m, b) == Err(EndGroup))
            && (t.wireType != 4 && t.field <= 0 ==> Decode(c, m, b) == Err(IllegalTag))
            && (t.wireType != 4 && t.field > 0 && c.wants(t.field).Some? && c.wants(t.field) != Some(t.wireType) ==>
                  Decode(c, m, b) == Err(WrongWireType))
  {
    hide ReadTag, Skip;
  }

  /** A length prefix that is negative as an `int` is refused as such, even if bytes are missing too. */
  lemma LengthRefused(b: bytes)
    requires ReadVarint(b).Ok?
    ensures ReadPayload(b, 2) == Err(NegativeLength) <==> Signed64(ReadVarint(b).value.v) < 0
    ensures ReadPayload(b, 2) == Err(Truncated) <==>
            Signed64(ReadVarint(b).value.v) >= 0 && ReadVarint(b).value.n + ReadVarint(b).value.v > |b|
  {
    hide ReadVarint;
  }

  // ---------------------------------------------------------------------------------------
  // Concatenation
  // ---------------------------------------------------------------------------------------

  lemma StepStable<M>(c: Codec<M>, m: M, a: bytes, b: bytes)
    requires c.Valid() && Step(c, m, a) != Err(Truncated)
    ensures Step(c, m, a + b) == Step(c, m, a)
  {
    hide Next;
    NextStable(c.wants, a, b);
  }

  /** Decoding a concatenation is decoding the first part and then the second into the result. */
  lemma {:induction false} DecodeConcat<M>(c: Codec<M>, m: M, a: bytes, b: bytes)
    requires c.Valid() && Decode(c, m, a).Ok?
    ensures Decode(c, m, a + b) == Decode(c, Decode(c, m, a).value, b)
    decreases |a|
  {
    if a == [] {
      assert a + b == b;
    } else {
      hide Step;
      StepStable(c, m, a, b);
      var s := Step(c, m, a).value;
      assert (a + b)[s.n..] == a[s.n..] + b;
      DecodeConcat(c, s.m, a[s.n..], b);
    }
  }

  /** More input can only cure an input that was cut short: every other error stays. */
  lemma {:induction false} DecodeErrorStays<M>(c: Codec<M>, m: M, a: bytes, b: bytes)
    requires c.Valid() && Decode(c, m, a).Err? && Decode(c, m, a).error != Truncated
    ensures Decode(c, m, a + b) == Decode(c, m, a)
    decreases |a|
  {
    hide Step;
    StepStable(c, m, a, b);
    if Step(c, m, a).Ok? {
      var s := Step(c, m, a).value;
      assert (a + b)[s.n..] == a[s.n..] + b;
      DecodeErrorStays(c, s.m, a[s.n..], b);
    }
  }

  /** Whether a decoder succeeded, and the error if it did not. */
  function Fate<T>(r: Result<T>): Result<()> {
    match r
    case Ok(_) => Ok(())
    case Err(e) => Err(e)
  }

  /** No case of the switch looks at the receiver to accept or refuse its field. */
  ghost predicate Blind<M(!new)>(c: Codec<M>) {
    forall m: M, x: M, f: int, p: Payload :: Fate(c.apply(m, f, p)) == Fate(c.apply(x, f, p))
  }

  lemma BlindIf<M(!new)>(c: Codec<M>)
    requires forall m: M, x: M, f: int, p: Payload :: Fate(c.apply(m, f, p)) == Fate(c.apply(x, f, p))
    ensures Blind(c)
  {
  }

  /** Then no input is accepted by one receiver and refused, or refused otherwise, by another. */
  lemma {:induction false} ReceiverDoesNotMatter<M(!new)>(c: Codec<M>, m: M, x: M, b: bytes)
    requires c.Valid() && Blind(c)
    ensures Fate(Decode(c, m, b)) == Fate(Decode(c, x, b))
    decreases |b|
  {
    if b != [] {
      hide Next;
      var item := Next(c.wants, b);
      if item.Ok? && item.value.Known? {
        var k := item.value;
        assert Fate(c.apply(m, k.field, k.p)) == Fate(c.apply(x, k.field, k.p));
      }
      if Step(c, m, b).Ok? {
        var s, t := Step(c, m, b).value, Step(c, x, b).value;
        ReceiverDoesNotMatter(c, s.m, t.m, b[s.n..]);
      }
    }
  }

  /** So two inputs that each decode into an empty message decode one behind the other into any
      receiver, with the result of decoding them in turn. */
  lemma ConcatOfFresh<M(!new)>(c: Codec<M>, empty: M, m: M, a: bytes, b: bytes)
    requires c.Valid() && Blind(c) && Decode(c, empty, a).Ok? && Decode(c, empty, b).Ok?
    ensures Decode(c, m, a).Ok? && Decode(c, m, a + b).Ok?
    ensures Decode(c, m, a + b) == Decode(c, Decode(c, m, a).value, b)
  {
    hide Decode, Blind;
    ReceiverDoesNotMatter(c, m, empty, a);
    ReceiverDoesNotMatter(c, Decode(c, m, a).value, empty, b);
    DecodeConcat(c, m, a, b);
  }

  // ---------------------------------------------------------------------------------------
  // Encoded fields decode to themselves
  // ---------------------------------------------------------------------------------------

  ghost predicate Fits(wants: int -> Option<nat>, r: Record) {
    && 0 < r.field < 0x1000_0000
    && wants(r.field) == Some(r.payload.WireType())
    && (r.payload.BytesP? ==> |r.payload.b| < TWO_63)
  }

  lemma PayloadRoundTrip(p: Payload, rest: bytes)
    requires p.BytesP? ==> |p.b| < TWO_63
    ensures var body := match p
              case VarintP(v) => Varint(v) case FixedP(v) => Little(v, 8) case BytesP(b) => Varint(|b|) + b;
            ReadPayload(body + rest, p.WireType()) == Ok(Sized(p, |body|))
  {
    match p
    case VarintP(v) =>
      VarintRoundTrip(v, rest);
      SovIsVarintLength(v);
    case FixedP(v) =>
      Fixed64RoundTrip(v);
      assert (Little(v, 8) + rest)[..8] == Little(v, 8);
    case BytesP(b) =>
      var prefix := Varint(|b|);
      VarintRoundTrip(|b|, b + rest);
      SovIsVarintLength(|b|);
      assert prefix + b + rest == prefix + (b + rest);
      assert (prefix + b + rest)[|prefix|..|prefix| + |b|] == b;
  }

  lemma TagRoundTrip(field: nat, wireType: nat, rest: bytes)
    requires 0 < field < 0x1000_0000 && wireType < 8
    ensures var tag := Varint(field * 8 + wireType);
            ReadTag(tag + rest) == Ok(Tag(field, wireType, |tag|)) && (tag + rest)[|tag|..] == rest
  {
    hide Varint, ReadVarint;
    var key := field * 8 + wireType;
    KeyInParts(field, wireType);
    VarintRoundTrip(key, rest);
    SovIsVarintLength(key);
  }

  lemma KeyInParts(field: nat, wireType: nat)
    requires 0 < field < 0x1000_0000 && wireType < 8
    ensures var key := field * 8 + wireType;
            key < TWO_32 && key / 8 == field && key % 8 == wireType && Signed32(field) == field
  {
  }

  lemma RecordRoundTrip(wants: int -> Option<nat>, r: Record, rest: bytes)
    requires forall f: int :: wants(f).Some? ==> wants(f).value <= 2
    requires Fits(wants, r)
    ensures Next(wants, r.Bytes() + rest) == Ok(Known(r.field, r.payload, |r.Bytes()|))
  {
    hide ReadPayload, ReadTag, Skip, Varint;
    var w := r.payload.WireType();
    var tag := Varint(r.field * 8 + w);
    var body := r.Bytes()[|tag|..];
    TagRoundTrip(r.field, w, body + rest);
    PayloadRoundTrip(r.payload, rest);
    assert r.Bytes() + rest == tag + (body + rest);
  }

  /** Decoding encoded fields is running the cases of the switch over them, in order. */
  lemma {:induction false} DecodeEncode<M>(c: Codec<M>, m: M, rs: seq<Record>, rest: bytes)
    requires c.Valid() && forall r <- rs :: Fits(c.wants, r)
    ensures Decode(c, m, Encode(rs) + rest) ==
            match Fold(c, m, rs) case Ok(m') => Decode(c, m', rest) case Err(e) => Err(e)
  {
    if rs == [] {
      assert Encode(rs) + rest == rest;
    } else {
      var head := rs[0].Bytes();
      var tail := Encode(rs[1..]) + rest;
      assert Encode(rs) + rest == head + tail;
      RecordRoundTrip(c.wants, rs[0], tail);
      assert (head + tail)[|head|..] == tail;
      assert head + tail != [];
      if c.apply(m, rs[0].field, rs[0].payload).Ok? {
        DecodeEncode(c, c.apply(m, rs[0].field, rs[0].payload).value, rs[1..], rest);
      }
    }
  }

  lemma {:induction false} EncodeConcat(rs: seq<Record>, ss: seq<Record>)
    ensures Encode(rs + ss) == Encode(rs) + Encode(ss)
  {
    if rs == [] {
      assert rs + ss == ss;
    } else {
      assert (rs + ss)[1..] == rs[1..] + ss;
      EncodeConcat(rs[1..], ss);
    }
  }

  lemma {:induction false} FoldConcat<M>(c: Codec<M>, m: M, rs: seq<Record>, ss: seq<Record>)
    ensures Fold(c, m, rs + ss) ==
            match Fold(c, m, rs) case Ok(m') => Fold(c, m', ss) case Err(e) => Err(e)
  {
    if rs == [] {
      assert rs + ss == ss;
    } else {
      assert (rs + ss)[1..] == rs[1..] + ss;
      if c.apply(m, rs[0].field, rs[0].payload).Ok? {
        FoldConcat(c, c.apply(m, rs[0].field, rs[0].payload).value, rs[1..], ss);
      }
    }
  }

  // ---------------------------------------------------------------------------------------
  // Growth
  // ---------------------------------------------------------------------------------------

  /** The input spends at least as many bytes on a field as the marshaller would. */
  lemma NextNotShorter(wants: int -> Option<nat>, b: bytes)
    requires forall f: int :: wants(f).Some? ==> wants(f).value <= 2
    requires Next(wants, b).Ok? && Next(wants, b).value.Known?
    ensures var k := Next(wants, b).value; |Record(k.field, k.p).Bytes()| <= k.n
  {
    hide ReadVarint, Skip, Varint;
    var k := Next(wants, b).value;
    var wire := ReadVarint(b).value;
    SovIsMinimal(b);
    SovIsVarintLength(wire.v);
    VarintLengthMonotone(k.field * 8 + k.p.WireType(), wire.v);
    var rest := b[wire.n..];
    if k.p.VarintP? {
      SovIsMinimal(rest);
      SovIsVarintLength(k.p.v);
    } else if k.p.BytesP? {
      SovIsMinimal(rest);
      SovIsVarintLength(|k.p.b|);
    }
  }

  /** If no case of the switch makes the message bigger than the field it was given, no input
      decodes to a message bigger than itself. */
  lemma {:induction false} DecodeDoesNotGrow<M(!new)>(c: Codec<M>, size: M -> nat, m: M, b: bytes)
    requires c.Valid() && Decode(c, m, b).Ok?
    requires forall m: M, f: nat, p: Payload ::
               c.apply(m, f, p).Ok? && c.wants(f) == Some(p.WireType()) && f > 0
               ==> size(c.apply(m, f, p).value) <= size(m) + |Record(f, p).Bytes()|
    ensures size(Decode(c, m, b).value) <= size(m) + |b|
    decreases |b|
  {
    if b != [] {
      var s := Step(c, m, b).value;
      if Next(c.wants, b).value.Known? {
        NextNotShorter(c.wants, b);
      }
      DecodeDoesNotGrow(c, size, s.m, b[s.n..]);
    }
  }
}
