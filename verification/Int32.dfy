/**
  32-bit fields: they are written sign-extended to 64 bits, read back through a 32-bit accumulator, and
  so have shorter spellings than the one the marshallers choose.
*/
module Int32 {
  import opened Wire
  import opened Varints
  import opened Fields

  /** A word that an int32 variable reads as `v`, and that is sent exactly when `v` is. */
  predicate Spells(w: word, v: int32) {
    Signed32(Unsigned64(w)) == v && (w == 0 <==> v == 0)
  }

  lemma SpellsItself(v: int32)
    ensures Spells(v, v)
  {
    SignedRoundTrip(v);
  }

  /** What the wire makes of the narrow values: they come back, negative ones too. */
  lemma NarrowRoundTrip(a: int64, b: int32, c: uint32)
    ensures Signed64(Unsigned64(a)) == a && Signed32(Unsigned64(b)) == b && Unsigned32(Unsigned64(c)) == c
  {
    SignedRoundTrip(a);
    SignedRoundTrip(b);
  }

  lemma Int32Reading(v: uint64)
    ensures Signed32(v) <= v
    ensures Signed32(v) < 0 ==> v >= TWO_31
  {
  }

  lemma SovOfNegative(v: int32)
    requires v < 0
    ensures Sov(Unsigned64(v)) == 10
  {
    var u := Unsigned64(v);
    assert u == v + TWO_64 >= TWO_63;
    SovIsVarintLength(u);
    VarintLength64(u);
    LongVarint(u);
  }

  lemma LongVarint(u: nat)
    ensures u >= TWO_63 ==> |Varint(u)| >= 10
    ensures u >= TWO_31 ==> |Varint(u)| >= 5
  {
    assert Pow128(2) == 0x4000;
    assert Pow128(4) == 0x1000_0000;
    assert Pow128(6) == 0x400_0000_0000;
    assert Pow128(8) == 0x100_0000_0000_0000;
    assert Pow128(9) == TWO_63;
    if u >= TWO_63 { VarintLengthAbove(u, 9); }
    if u >= TWO_31 { VarintLengthAbove(u, 4); }
  }

  /** A varint read into an int32 is longer to write than it was to read exactly when its low 32 bits
      are a negative number and it was not spelled with all ten bytes. */
  lemma Int32GrowsIff(b: bytes)
    requires ReadVarint(b).Ok?
    ensures var x := ReadVarint(b).value;
            VarintSize(Signed32(x.v)) > 1 + x.n <==> Signed32(x.v) < 0 && x.n < 10
  {
    hide ReadVarint, Signed32, Sov;
    var x := ReadVarint(b).value;
    var narrow := Signed32(x.v);
    if narrow < 0 {
      SovOfNegative(narrow);
    } else if narrow > 0 {
      Int32Reading(x.v);
      SovIsMinimal(b);
      SmallerIsShorter(narrow, x.v);
    }
  }

  /** The shortest spelling of an int32: a negative one can be sent in five bytes behind its tag. */
  function Shortest(v: int32): nat { if v < 0 then 6 else VarintSize(v) }

  lemma SmallerIsShorter(v: nat, w: nat)
    requires v <= w
    ensures Sov(v) <= Sov(w)
  {
    SovIsVarintLength(v);
    SovIsVarintLength(w);
    VarintLengthMonotone(v, w);
  }

  lemma UnsignedReading(v: uint64)
    ensures Unsigned32(v) <= v
  {
  }

  lemma SizeOfNonNegative(v: word)
    requires v >= 0
    ensures VarintSize(v) <= 1 + Sov(v)
  {
    hide Sov;
    assert Unsigned64(v) == v;
  }

  lemma SignedSize(v: uint64)
    ensures VarintSize(Signed64(v)) <= 1 + Sov(v)
  {
    hide Sov, Signed64, Unsigned64;
    UnsignedRoundTrip(v);
  }

  lemma NarrowSize(v: uint64)
    ensures Shortest(Signed32(v)) <= 1 + Sov(v)
  {
    hide Sov, Signed32, VarintSize;
    Int32Reading(v);
    if Signed32(v) < 0 {
      SovIsVarintLength(v);
      LongVarint(v);
    } else {
      SizeOfNonNegative(Signed32(v));
      SmallerIsShorter(Signed32(v), v);
    }
  }

  lemma ReadingShrinks(v: uint64)
    ensures VarintSize(Signed64(v)) <= 1 + Sov(v)
    ensures VarintSize(Unsigned32(v)) <= 1 + Sov(v)
    ensures Shortest(Signed32(v)) <= 1 + Sov(v)
  {
    hide Sov, Signed32, Signed64, Unsigned32, VarintSize, Shortest;
    SignedSize(v);
    UnsignedReading(v);
    SizeOfNonNegative(Unsigned32(v));
    SmallerIsShorter(Unsigned32(v), v);
    NarrowSize(v);
  }

  lemma FiveGroups()
    ensures Pow128(5) == 0x8_0000_0000
  {
    assert Pow128(2) == 0x4000;
    assert Pow128(4) == 0x1000_0000;
  }

  /** The low 32 bits of an int32 are read as that int32, and are its shortest spelling. */
  lemma LowWord(v: int32)
    ensures Spells(Unsigned32(v), v) && VarintSize(Unsigned32(v)) == Shortest(v)
  {
    hide Sov, Pow128;
    var u := Unsigned32(v);
    assert u == if v < 0 then v + TWO_32 else v;
    if v < 0 {
      SovIsVarintLength(u);
      LongVarint(u);
      assert Pow128(5) == 0x8_0000_0000 by { FiveGroups(); }
      VarintLengthBelow(u, 5);
    }
  }

  /** How much longer the marshaller's spelling of an int32 is than the shortest one. */
  function Excess(v: int32): nat { if v < 0 then 5 else 0 }

  lemma SizeIsShortestAndExcess(v: int32)
    ensures VarintSize(v) == Shortest(v) + Excess(v)
  {
    hide Sov;
    if v < 0 {
      SovOfNegative(v);
    }
  }

  lemma SovBound(a: uint64, b: uint64, c: uint64)
    ensures Sov(a) <= 10 && Sov(b) <= 10 && Sov(c) <= 10
  {
    VarintRoundTrip(a, []);
    VarintRoundTrip(b, []);
    VarintRoundTrip(c, []);
  }
}
