/**
  The protobuf wire format as the generated Go files write and read it: base-128 varints,
  field tags, payloads, the skipping of unknown fields, and the decoding loop that every
  `Unmarshal` method shares.

  Everything here is the meaning of the code; `WireCode` holds the loops themselves and proves
  that they compute these functions.  Go's `int` is taken to be 64 bits wide.
*/
module Wire {
  type byte = x: int | 0 <= x < 256
  type bytes = seq<byte>

  const TWO_31 := 0x8000_0000
  const TWO_32 := 0x1_0000_0000
  const TWO_63 := 0x8000_0000_0000_0000
  const TWO_64 := 0x1_0000_0000_0000_0000

  /** No Go slice is this long: eight more bytes would no longer be counted by an `int`. */
  const MAX_LEN := TWO_63 - 8

  type uint32 = x: int | 0 <= x < TWO_32
  type uint64 = x: int | 0 <= x < TWO_64
  type int32 = x: int | -TWO_31 <= x < TWO_31
  type int64 = x: int | -TWO_63 <= x < TWO_63

  /** Any Go integer of at most 64 bits, signed or not. */
  type word = x: int | -TWO_63 <= x < TWO_64

  /** Go's conversions between integer types, and the wrap-around of its arithmetic. */
  function Signed64(x: int): int64 { (x + TWO_63) % TWO_64 - TWO_63 }
  function Signed32(x: int): int32 { (x + TWO_31) % TWO_32 - TWO_31 }
  function Unsigned64(x: int): uint64 { x % TWO_64 }
  function Unsigned32(x: int): uint32 { x % TWO_32 }

  /**
    Why a decoder rejects its input.  `Truncated` says that a record runs past the end of the
    slice: the code answers `io.ErrUnexpectedEOF`, or `ErrInvalidLength` where the end of the
    record would not even fit an `int`.  `NegativeLength` is a length prefix of 2^63 or more.
  */
  datatype Error =
    | Overflow | Truncated | NegativeLength | EndGroup | IllegalTag | WrongWireType | IllegalWireType

  datatype Result<+T> = Ok(value: T) | Err(error: Error) {
    predicate IsFailure() { Err? }

    function PropagateFailure<U>(): Result<U>
      requires Err?
    {
      Err(error)
    }

    function Extract(): T
      requires Ok?
    {
      value
    }
  }

  datatype Option<+T> = None | Some(value: T)

  /** A Go byte slice: `nil` and the empty slice are different values with the same contents. */
  datatype Buf = Nil | Buf(data: bytes) {
    function Data(): bytes { if Nil? then [] else data }

    /** What a singular bytes field becomes on its way through the wire. */
    function Normal(): Buf { if Data() == [] then Nil else this }
  }

  // ---------------------------------------------------------------------------------------
  // Varints
  // ---------------------------------------------------------------------------------------

  function Varint(v: nat): bytes {
    if v < 128 then [v] else [v % 128 + 128] + Varint(v / 128)
  }

  /** A number read from the front of a slice, and how many bytes it took. */
  datatype Num = Num(v: nat, n: nat)

  /** At most `budget` groups of seven bits, least significant first, without truncation. */
  function ReadGroups(b: bytes, budget: nat): (r: Result<Num>)
    ensures r.Ok? ==> 0 < r.value.n <= |b| && r.value.n <= budget
  {
    if budget == 0 then Err(Overflow)
    else if b == [] then Err(Truncated)
    else if b[0] < 128 then Ok(Num(b[0], 1))
    else
      var rest :- ReadGroups(b[1..], budget - 1);
      Ok(Num(b[0] - 128 + 128 * rest.v, rest.n + 1))
  }

  /** Ten groups are read; the bits of the tenth that do not fit 64 bits are lost. */
  function ReadVarint(b: bytes): (r: Result<Num>)
    ensures r.Ok? ==> 0 < r.value.n <= |b| && r.value.n <= 10 && r.value.v < TWO_64
  {
    var raw :- ReadGroups(b, 10);
    Ok(Num(raw.v % TWO_64, raw.n))
  }

  /** A varint used as a length: `int(v) < 0` is refused. */
  function ReadLength(b: bytes): (r: Result<Num>)
    ensures r.Ok? ==> 0 < r.value.n <= |b| && r.value.n <= 10 && r.value.v < TWO_63
  {
    var len :- ReadVarint(b);
    if len.v >= TWO_63 then Err(NegativeLength) else Ok(len)
  }

  /** `math/bits.Len64`: how many bits are needed to write `x`. */
  function BitLen(x: nat): nat {
    if x == 0 then 0 else 1 + BitLen(x / 2)
  }

  /** `x | 1`. */
  function OrOne(x: nat): nat {
    if x % 2 == 0 then x + 1 else x
  }

  /** The size the generated code reserves for a varint. */
  function Sov(x: nat): nat {
    (BitLen(OrOne(x)) + 6) / 7
  }

  // ---------------------------------------------------------------------------------------
  // Little-endian fixed64
  // ---------------------------------------------------------------------------------------

  function Little(v: nat, n: nat): (b: bytes)
    ensures |b| == n
  {
    if n == 0 then [] else [v % 256] + Little(v / 256, n - 1)
  }

  function FromLittle(b: bytes): nat {
    if b == [] then 0 else b[0] + 256 * FromLittle(b[1..])
  }

  // ---------------------------------------------------------------------------------------
  // Tags, payloads, records
  // ---------------------------------------------------------------------------------------

  /** `fieldNum := int32(wire >> 3)`, `wireType := int(wire & 0x7)`. */
  datatype Tag = Tag(field: int32, wireType: nat, n: nat)

  function ReadTag(b: bytes): (r: Result<Tag>)
    ensures r.Ok? ==> 0 < r.value.n <= |b| && r.value.n <= 10 && r.value.wireType < 8
  {
    var wire :- ReadVarint(b);
    Ok(Tag(Signed32(wire.v / 8), wire.v % 8, wire.n))
  }

  datatype Payload = VarintP(v: uint64) | FixedP(v: uint64) | BytesP(b: bytes) {
    function WireType(): nat {
      if VarintP? then 0 else if FixedP? then 1 else 2
    }
  }

  datatype Sized = Sized(p: Payload, n: nat)

  /** The payload of a field that the message knows, read from just behind its tag. */
  function ReadPayload(b: bytes, wireType: nat): (r: Result<Sized>)
    requires wireType <= 2
    ensures r.Ok? ==> 0 < r.value.n <= |b| && r.value.p.WireType() == wireType
  {
    if wireType == 0 then
      var x :- ReadVarint(b);
      Ok(Sized(VarintP(x.v), x.n))
    else if wireType == 1 then
      if |b| < 8 then Err(Truncated)
      else
        LittleRange(b[..8]);
        Ok(Sized(FixedP(FromLittle(b[..8])), 8))
    else
      var len :- ReadLength(b);
      if len.n + len.v > |b| then Err(Truncated)
      else Ok(Sized(BytesP(b[len.n..len.n + len.v]), len.n + len.v))
  }

  function Pow256(n: nat): nat {
    if n == 0 then 1 else 256 * Pow256(n - 1)
  }

  lemma FromLittleBound(b: bytes)
    ensures FromLittle(b) < Pow256(|b|)
  {
    if b != [] {
      FromLittleBound(b[1..]);
    }
  }

  lemma LittleRange(b: bytes)
    requires |b| == 8
    ensures FromLittle(b) < TWO_64
  {
    FromLittleBound(b);
    assert Pow256(2) == 0x1_0000;
    assert Pow256(4) == 0x1_0000_0000;
    assert Pow256(6) == 0x1_0000_0000_0000;
    assert Pow256(8) == TWO_64;
  }

  /** A field as the marshaller writes it. */
  datatype Record = Record(field: nat, payload: Payload) {
    function Bytes(): bytes {
      Varint(field * 8 + payload.WireType()) + match payload
        case VarintP(v) => Varint(v)
        case FixedP(v) => Little(v, 8)
        case BytesP(b) => Varint(|b|) + b
    }
  }

  function Encode(rs: seq<Record>): bytes {
    if rs == [] then [] else rs[0].Bytes() + Encode(rs[1..])
  }

  // ---------------------------------------------------------------------------------------
  // Skipping a record whose field number is unknown
  // ---------------------------------------------------------------------------------------

  /** How far one round of the skip loop moves, and the group depth it leaves. */
  datatype Stride = Stride(n: nat, depth: nat)

  /** The switch of the skip loop on what follows the tag. */
  function SkipBody(rest: bytes, wireType: nat, depth: nat): Result<Stride> {
    match wireType
    case 0 => (match ReadVarint(rest) case Err(e) => Err(e) case Ok(x) => Ok(Stride(x.n, depth)))
    case 1 => Ok(Stride(8, depth))
    case 2 => (match ReadLength(rest) case Err(e) => Err(e) case Ok(len) => Ok(Stride(len.n + len.v, depth)))
    case 3 => Ok(Stride(0, depth + 1))
    case 4 => if depth == 0 then Err(EndGroup) else Ok(Stride(0, depth - 1))
    case 5 => Ok(Stride(4, depth))
    case _ => Err(IllegalWireType)
  }

  function SkipOne(b: bytes, depth: nat): (r: Result<Stride>)
    ensures r.Ok? ==> r.value.n > 0
  {
    match ReadTag(b)
    case Err(e) => Err(e)
    case Ok(tag) =>
      match SkipBody(b[tag.n..], tag.wireType, depth)
      case Err(e) => Err(e)
      case Ok(s) => Ok(Stride(tag.n + s.n, s.depth))
  }

  /** The skip loop entered at group depth `depth`.  At depth 0 the end is not compared with the
      end of the slice; that is left to the caller. */
  function Skip(b: bytes, depth: nat): (r: Result<nat>)
    ensures r.Ok? ==> r.value > 0
    decreases |b|
  {
    if b == [] then Err(Truncated)
    else match SkipOne(b, depth)
      case Err(e) => Err(e)
      case Ok(s) =>
        if s.depth == 0 then Ok(s.n)
        else if s.n > |b| then Err(Truncated)
        else Further(s.n, Skip(b[s.n..], s.depth))
  }

  function Further(n: nat, r: Result<nat>): Result<nat> {
    if r.Err? then r else Ok(n + r.value)
  }

  // ---------------------------------------------------------------------------------------
  // The decoding loop
  // ---------------------------------------------------------------------------------------

  /**
    What distinguishes one generated `Unmarshal` from another: the wire type each case of its
    switch insists on (`None` is the default case), and what the case does to the receiver.
  */
  datatype Codec<!M> = Codec(wants: int -> Option<nat>, apply: (M, int, Payload) -> Result<M>) {
    ghost predicate Valid() {
      forall f: int :: wants(f).Some? ==> wants(f).value <= 2
    }
  }

  datatype Item = Known(field: int, p: Payload, n: nat) | Unknown(n: nat)

  function Next(wants: int -> Option<nat>, b: bytes): (r: Result<Item>)
    requires forall f: int :: wants(f).Some? ==> wants(f).value <= 2
    ensures r.Ok? ==> 0 < r.value.n <= |b|
    ensures r.Ok? && r.value.Known? ==>
      r.value.field > 0 && wants(r.value.field) == Some(r.value.p.WireType())
  {
    var tag :- ReadTag(b);
    if tag.wireType == 4 then Err(EndGroup)
    else if tag.field <= 0 then Err(IllegalTag)
    else match wants(tag.field)
      case Some(w) =>
        if tag.wireType != w then Err(WrongWireType)
        else
          var s :- ReadPayload(b[tag.n..], w);
          Ok(Known(tag.field, s.p, tag.n + s.n))
      case None =>
        var n :- Skip(b, 0);
        if n > |b| then Err(Truncated) else Ok(Unknown(n))
  }

  /** The receiver after one round of the decoding loop, and how far the round moved. */
  datatype Round<M> = Round(m: M, n: nat)

  function Step<M>(c: Codec<M>, m: M, b: bytes): (r: Result<Round<M>>)
    requires c.Valid()
    ensures r.Ok? ==> 0 < r.value.n <= |b|
  {
    var item :- Next(c.wants, b);
    match item
    case Unknown(n) => Ok(Round(m, n))
    case Known(f, p, n) =>
      var m' :- c.apply(m, f, p);
      Ok(Round(m', n))
  }

  /** `Unmarshal(b)` on a receiver that holds `m`. */
  function Decode<M>(c: Codec<M>, m: M, b: bytes): Result<M>
    requires c.Valid()
    decreases |b|
  {
    if b == [] then Ok(m)
    else match Step(c, m, b)
      case Err(e) => Err(e)
      case Ok(s) => Decode(c, s.m, b[s.n..])
  }

  /** The cases of the switch, run over a list of fields. */
  function Fold<M>(c: Codec<M>, m: M, rs: seq<Record>): Result<M> {
    if rs == [] then Ok(m)
    else match c.apply(m, rs[0].field, rs[0].payload)
      case Err(e) => Err(e)
      case Ok(m') => Fold(c, m', rs[1..])
  }
}
