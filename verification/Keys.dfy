/**
  `PublicKey` of proto/tendermint/crypto/keys.pb.go: its order, its equality and its oneof codec.
*/
module Keys {
  import opened Wire
  import opened Decoding
  import opened Fields
  import opened Occurrences
  import opened WireCode

  /** `PublicKey.Sum`: nil, or a pointer to the wrapper of one key type; that pointer may be nil too. */
  datatype KeySum = NoKey | Ed25519(w: Option<Buf>) | Secp256K1(w: Option<Buf>)

  datatype PublicKeyMsg = PublicKeyMsg(sum: KeySum)

  /** A `*PublicKey`. */
  type Pointer = Option<PublicKeyMsg>

  /** The argument of Compare and Equal, an `interface{}`. */
  datatype Iface = NilIface | Ptr(p: Pointer) | Val(k: PublicKeyMsg) | OtherType

  // ---------------------------------------------------------------------------------------
  // Compare and Equal
  // ---------------------------------------------------------------------------------------

  /** `bytes.Compare`; nil counts as empty. */
  function CompareBytes(a: bytes, b: bytes): int {
    if a == [] then (if b == [] then 0 else -1)
    else if b == [] then 1
    else if a[0] < b[0] then -1
    else if a[0] > b[0] then 1
    else CompareBytes(a[1..], b[1..])
  }

  /** `PublicKey_Ed25519.Compare` on a wrapper of the same type, and its twin. */
  function CompareWrapper(left: Option<Buf>, that: Option<Buf>): int {
    if that.None? then (if left.None? then 0 else 1)
    else if left.None? then -1
    else CompareBytes(left.value.Data(), that.value.Data())
  }

  function CompareSum(left: KeySum, that: KeySum): int {
    if that.NoKey? then (if !left.NoKey? then 1 else 0)
    else if left.NoKey? then -1
    else
      var leftType := if left.Ed25519? then 0 else 1;
      var thatType := if that.Ed25519? then 0 else 1;
      if leftType == thatType then CompareWrapper(left.w, that.w)
      else if leftType < thatType then -1 else 1
  }

  function ComparePointers(left: Pointer, that: Pointer): int {
    if that.None? then (if left.None? then 0 else 1)
    else if left.None? then -1
    else CompareSum(left.value.sum, that.value.sum)
  }

  function Compare(left: Pointer, that: Iface): int {
    match that
    case NilIface => if left.None? then 0 else 1
    case Ptr(p) => ComparePointers(left, p)
    case Val(k) => ComparePointers(left, Some(k))
    case OtherType => 1
  }

  predicate EqualWrapper(left: Option<Buf>, that: Option<Buf>) {
    if that.None? then left.None?
    else if left.None? then false
    else left.value.Data() == that.value.Data()
  }

  predicate EqualSum(left: KeySum, that: KeySum) {
    if that.NoKey? then left.NoKey?
    else if left.NoKey? then false
    else if left.Ed25519? != that.Ed25519? then false
    else EqualWrapper(left.w, that.w)
  }

  predicate EqualPointers(left: Pointer, that: Pointer) {
    if that.None? then left.None?
    else if left.None? then false
    else EqualSum(left.value.sum, that.value.sum)
  }

  predicate Equal(left: Pointer, that: Iface) {
    match that
    case NilIface => left.None?
    case Ptr(p) => EqualPointers(left, p)
    case Val(k) => EqualPointers(left, Some(k))
    case OtherType => false
  }

  lemma {:induction false} BytesAntisymmetric(a: bytes, b: bytes)
    ensures CompareBytes(a, b) == -CompareBytes(b, a)
    ensures CompareBytes(a, b) == 0 <==> a == b
    ensures -1 <= CompareBytes(a, b) <= 1
  {
    if a != [] && b != [] && a[0] == b[0] {
      BytesAntisymmetric(a[1..], b[1..]);
      assert a == [a[0]] + a[1..] && b == [b[0]] + b[1..];
    }
  }

  lemma {:induction false} BytesTransitive(a: bytes, b: bytes, c: bytes)
    requires CompareBytes(a, b) <= 0 && CompareBytes(b, c) <= 0
    ensures CompareBytes(a, c) <= 0
  {
    if a != [] && b != [] && c != [] && a[0] == b[0] == c[0] {
      BytesTransitive(a[1..], b[1..], c[1..]);
    }
  }

  /** Swapping the operands negates the answer, for all pointers: nil, without a key, of either type,
      with nil wrappers or nil bytes. */
  lemma CompareAntisymmetric(a: Pointer, b: Pointer)
    ensures Compare(a, Ptr(b)) == -Compare(b, Ptr(a)) && -1 <= Compare(a, Ptr(b)) <= 1
  {
    if a.Some? && b.Some? && !a.value.sum.NoKey? && !b.value.sum.NoKey? {
      var x, y := a.value.sum.w, b.value.sum.w;
      if x.Some? && y.Some? {
        BytesAntisymmetric(x.value.Data(), y.value.Data());
      }
    }
  }

  /** The order is transitive. */
  lemma CompareTransitive(a: Pointer, b: Pointer, c: Pointer)
    requires Compare(a, Ptr(b)) <= 0 && Compare(b, Ptr(c)) <= 0
    ensures Compare(a, Ptr(c)) <= 0
  {
    if a.Some? && b.Some? && c.Some? {
      var x, y, z := a.value.sum, b.value.sum, c.value.sum;
      if !x.NoKey? && !y.NoKey? && !z.NoKey? && x.w.Some? && y.w.Some? && z.w.Some? {
        if x.Ed25519? == y.Ed25519? == z.Ed25519? {
          BytesTransitive(x.w.value.Data(), y.w.value.Data(), z.w.value.Data());
        }
      }
    }
  }

  ghost predicate SameUpTo(a: bytes, b: bytes, k: nat)
    requires k <= |a| && k <= |b|
  {
    forall i :: 0 <= i < k ==> a[i] == b[i]
  }

  /** `a` comes before `b` in the dictionary. */
  ghost predicate Before(a: bytes, b: bytes) {
    exists k: nat :: k <= |a| && k < |b| && SameUpTo(a, b, k) && (k == |a| || a[k] < b[k])
  }

  lemma BeforeTail(a: bytes, b: bytes)
    requires a != [] && b != [] && a[0] == b[0]
    ensures Before(a, b) <==> Before(a[1..], b[1..])
  {
    var x, y := a[1..], b[1..];
    if Before(x, y) {
      var k: nat :| k <= |x| && k < |y| && SameUpTo(x, y, k) && (k == |x| || x[k] < y[k]);
      forall i | 0 <= i < k + 1
        ensures a[i] == b[i]
      {
        if i > 0 {
          assert x[i - 1] == y[i - 1];
        }
      }
      assert SameUpTo(a, b, k + 1);
    }
    if Before(a, b) {
      var k: nat :| k <= |a| && k < |b| && SameUpTo(a, b, k) && (k == |a| || a[k] < b[k]);
      assert k > 0;
      assert SameUpTo(x, y, k - 1);
    }
  }

  lemma BeforeHead(a: bytes, b: bytes)
    requires a == [] || b == [] || a[0] != b[0]
    ensures Before(a, b) <==> b != [] && (a == [] || a[0] < b[0])
  {
    if b != [] && (a == [] || a[0] < b[0]) {
      assert SameUpTo(a, b, 0);
    }
  }

  lemma {:induction false} BytesOrder(a: bytes, b: bytes)
    ensures CompareBytes(a, b) < 0 <==> Before(a, b)
  {
    hide Before;
    if a == [] || b == [] || a[0] != b[0] {
      BeforeHead(a, b);
    } else {
      BytesOrder(a[1..], b[1..]);
      BeforeTail(a, b);
    }
  }

  /** From the nil pointer over keys without a type to the two types, nil wrappers first. */
  function Rank(p: Pointer): nat {
    match p
    case None => 0
    case Some(PublicKeyMsg(NoKey)) => 1
    case Some(PublicKeyMsg(Ed25519(w))) => if w.None? then 2 else 3
    case Some(PublicKeyMsg(Secp256K1(w))) => if w.None? then 4 else 5
  }

  /** The order Compare computes: by rank, and between payloads of one type by dictionary. */
  lemma CompareIsRankOrder(a: Pointer, b: Pointer)
    ensures Compare(a, Ptr(b)) < 0 <==>
            Rank(a) < Rank(b) || (Rank(a) == Rank(b) && Rank(a) in {3, 5}
                                  && Before(a.value.sum.w.value.Data(), b.value.sum.w.value.Data()))
  {
    if Rank(a) in {3, 5} && Rank(b) in {3, 5} {
      BytesOrder(a.value.sum.w.value.Data(), b.value.sum.w.value.Data());
    }
  }

  /** Compare answers 0 exactly when Equal answers true, whatever the argument is; and a value, or a
      nil interface, is treated like the pointer it stands for. */
  lemma CompareZeroIffEqual(a: Pointer, that: Iface)
    ensures Compare(a, that) == 0 <==> Equal(a, that)
    ensures that.Val? ==> Compare(a, that) == Compare(a, Ptr(Some(that.k)))
    ensures Compare(a, NilIface) == Compare(a, Ptr(None))
  {
    var b := if that.Ptr? then that.p else if that.Val? then Some(that.k) else None;
    if a.Some? && b.Some? && !a.value.sum.NoKey? && !b.value.sum.NoKey? {
      var x, y := a.value.sum.w, b.value.sum.w;
      if x.Some? && y.Some? {
        BytesAntisymmetric(x.value.Data(), y.value.Data());
      }
    }
  }

  // ---------------------------------------------------------------------------------------
  // The oneof codec
  // ---------------------------------------------------------------------------------------

  function KeyWants(field: int): Option<nat> {
    if field == 1 || field == 2 then Some(2) else None
  }

  function KeyApply(m: PublicKeyMsg, field: int, p: Payload): Result<PublicKeyMsg> {
    match p
    case BytesP(b) => Ok(PublicKeyMsg(if field == 1 then Ed25519(Some(Buf(b))) else Secp256K1(Some(Buf(b)))))
    case _ => Ok(m)
  }

  function KeyCodec(): (c: Codec<PublicKeyMsg>)
    ensures c.Valid()
  {
    Codec(KeyWants, KeyApply)
  }

  /** No wrapper pointer is nil; marshalling one that is would dereference it. */
  predicate HasWrapper(k: PublicKeyMsg) { k.sum.NoKey? || k.sum.w.Some? }

  /** The key leaves no trace on the wire: there is none, or its bytes are nil.  Empty bytes do. */
  predicate Vanishes(k: PublicKeyMsg)
    requires HasWrapper(k)
  {
    k.sum.NoKey? || k.sum.w.value.Nil?
  }

  function KeyFields(k: PublicKeyMsg): seq<Record>
    requires HasWrapper(k)
  {
    if Vanishes(k) then [] else [Record(if k.sum.Ed25519? then 1 else 2, BytesP(k.sum.w.value.data))]
  }

  function KeyBytes(k: PublicKeyMsg): bytes
    requires HasWrapper(k)
  {
    Encode(KeyFields(k))
  }

  /** An encoded key replaces that of the receiver, unless it vanished. */
  lemma KeyRoundTrip(m: PublicKeyMsg, k: PublicKeyMsg)
    requires HasWrapper(k) && |KeyBytes(k)| <= MAX_LEN
    ensures Decode(KeyCodec(), m, KeyBytes(k)) == Ok(if Vanishes(k) then m else k)
  {
    hide Decode, Fold, Encode;
    DecodeFields(KeyCodec(), m, KeyFields(k));
    if Vanishes(k) {
      FoldNone(KeyCodec(), m);
    } else {
      FoldOne(KeyCodec(), m, KeyFields(k)[0]);
    }
  }

  /** Two keys have the same encoding exactly when both vanish, or neither does and Compare does not
      tell them apart. */
  lemma SameBytesIffCompareZero(a: PublicKeyMsg, b: PublicKeyMsg)
    requires HasWrapper(a) && HasWrapper(b) && |KeyBytes(a)| <= MAX_LEN
    ensures KeyBytes(a) == KeyBytes(b) <==>
            if Vanishes(a) || Vanishes(b) then Vanishes(a) && Vanishes(b) else Compare(Some(a), Ptr(Some(b))) == 0
  {
    hide Decode, Encode, Record.Bytes;
    CompareZeroIffEqual(Some(a), Ptr(Some(b)));
    if KeyBytes(a) == KeyBytes(b) {
      KeyRoundTrip(PublicKeyMsg(NoKey), a);
      KeyRoundTrip(PublicKeyMsg(NoKey), b);
      KeyRoundTrip(PublicKeyMsg(Ed25519(Some(Nil))), a);
      KeyRoundTrip(PublicKeyMsg(Ed25519(Some(Nil))), b);
    }
  }

  /** Where the two disagree: nil and empty bytes compare as equal but only the latter are encoded. */
  lemma NilAndEmptyKeysDiffer()
    ensures var a, b := PublicKeyMsg(Ed25519(Some(Nil))), PublicKeyMsg(Ed25519(Some(Buf([]))));
            Compare(Some(a), Ptr(Some(b))) == 0 && KeyBytes(a) == [] && KeyBytes(b) == [0x0a, 0x00]
  {
    OneRecord(Record(1, BytesP([])));
  }

  /** The bytes of the key a receiver holds; what it decodes always has a wrapper. */
  function HeldBytes(k: PublicKeyMsg): nat { if HasWrapper(k) then |KeyBytes(k)| else 0 }

  lemma KeyField(m: PublicKeyMsg, field: nat, p: Payload)
    requires field > 0 && KeyWants(field) == Some(p.WireType())
    ensures HeldBytes(KeyApply(m, field, p).value) <= HeldBytes(m) + |Record(field, p).Bytes()|
  {
    hide Encode, Record.Bytes;
    var other := Record(if field == 1 then 1 else 2, p);
    OneRecord(other);
    RecordSize(other);
    RecordSize(Record(field, p));
  }

  /** A key does not grow when it is decoded and written again, and whether an input is accepted does not
      depend on the receiver. */
  lemma KeyReencodes(b: bytes)
    requires Decode(KeyCodec(), PublicKeyMsg(NoKey), b).Ok?
    ensures HeldBytes(Decode(KeyCodec(), PublicKeyMsg(NoKey), b).value) <= |b|
    ensures Blind(KeyCodec())
  {
    assert HeldBytes(PublicKeyMsg(NoKey)) == 0 by { EncodeNothing(); }
    hide Decode, HeldBytes, Record.Bytes;
    forall m: PublicKeyMsg, f: nat, p: Payload |
      KeyCodec().apply(m, f, p).Ok? && KeyCodec().wants(f) == Some(p.WireType()) && f > 0
      ensures HeldBytes(KeyCodec().apply(m, f, p).value) <= HeldBytes(m) + |Record(f, p).Bytes()|
    {
      KeyField(m, f, p);
    }
    DecodeDoesNotGrow(KeyCodec(), HeldBytes, PublicKeyMsg(NoKey), b);
  }

  /** The key that came last, of either type. */
  function KeyAt(rs: seq<Record>, was: KeySum): KeySum {
    if rs == [] then was
    else
      var r := rs[|rs| - 1];
      if r.field == 1 then Ed25519(Some(Buf(Raw(r.payload)))) else Secp256K1(Some(Buf(Raw(r.payload))))
  }

  lemma {:induction false} KeyFolds(m: PublicKeyMsg, rs: seq<Record>)
    requires Typed(KeyWants, rs)
    ensures Fold(KeyCodec(), m, rs) == Ok(PublicKeyMsg(KeyAt(rs, m.sum)))
    decreases |rs|
  {
    if rs != [] {
      hide Fold;
      var init, r := rs[..|rs| - 1], rs[|rs| - 1];
      assert rs == init + [r];
      KeyFolds(m, init);
      FoldOneMore(KeyCodec(), m, init, r);
    }
  }

  /** Whatever the input and the receiver, the key is the last one that came, there even if it came empty,
      or else stays. */
  lemma KeyReads(m: PublicKeyMsg, b: bytes)
    ensures Parse(KeyWants, b).Err? ==>
              Decode(KeyCodec(), m, b) == Err(Parse(KeyWants, b).error)
    ensures Parse(KeyWants, b).Ok? ==>
              Decode(KeyCodec(), m, b) == Ok(PublicKeyMsg(KeyAt(Parse(KeyWants, b).value, m.sum)))
  {
    hide Decode, Parse, Fold;
    DecodeNeverRefuses(KeyCodec(), m, b);
    if Parse(KeyWants, b).Ok? {
      KeyFolds(m, Parse(KeyWants, b).value);
    }
  }

  class PublicKey {
    var sum: KeySum

    function Value(): PublicKeyMsg
      reads this
    {
      PublicKeyMsg(sum)
    }

    constructor ()
      ensures Value() == PublicKeyMsg(NoKey)
    {
      sum := NoKey;
    }

    /** A nil wrapper counts nothing. */
    method Size() returns (n: nat)
      ensures n == if HasWrapper(Value()) then |KeyBytes(Value())| else 0
    {
      hide Sov;
      n := 0;
      match sum
      case NoKey =>
      case Ed25519(w) =>
        if w.Some? && w.value.Buf? {
          OneRecord(Record(1, BytesP(w.value.data)));
          RecordSize(Record(1, BytesP(w.value.data)));
          var l := |w.value.data|;
          n := n + 1 + l + Sov(l);
        }
      case Secp256K1(w) =>
        if w.Some? && w.value.Buf? {
          OneRecord(Record(2, BytesP(w.value.data)));
          RecordSize(Record(2, BytesP(w.value.data)));
          var l := |w.value.data|;
          n := n + 1 + l + Sov(l);
        }
    }

    /** The wrapper's marshaller on `dAtA[lo:hi]`. */
    method MarshalWrapper(dAtA: array<byte>, lo: nat, hi: nat) returns (n: nat)
      requires HasWrapper(Value()) && |KeyBytes(Value())| <= MAX_LEN
      requires lo + |KeyBytes(Value())| <= hi <= dAtA.Length
      modifies dAtA
      ensures n == |KeyBytes(Value())| && dAtA[..] == Put(old(dAtA[..]), hi, KeyBytes(Value()))
    {
      hide Put, Record.Bytes;
      var i: int := hi;
      PutNothing(dAtA[..], hi);
      match sum {
        case NoKey =>
        case Ed25519(w) =>
          if w.value.Buf? {
            OneRecord(Record(1, BytesP(w.value.data)));
            i := PutBytesField(dAtA, i, 1, w.value.data);
          }
        case Secp256K1(w) =>
          if w.value.Buf? {
            OneRecord(Record(2, BytesP(w.value.data)));
            i := PutBytesField(dAtA, i, 2, w.value.data);
          }
      }
      return hi - i;
    }

    /** `Sum.MarshalTo` is given the suffix that `Sum.Size` asked for. */
    method MarshalToSizedBuffer(dAtA: array<byte>, lo: nat, hi: nat) returns (n: nat)
      requires HasWrapper(Value()) && |KeyBytes(Value())| <= MAX_LEN
      requires lo + |KeyBytes(Value())| <= hi <= dAtA.Length
      modifies dAtA
      ensures n == |KeyBytes(Value())| && dAtA[..] == Put(old(dAtA[..]), hi, KeyBytes(Value()))
    {
      hide Put;
      var i := hi;
      PutNothing(dAtA[..], hi);
      if sum != NoKey {
        var size := Size();
        i := i - size;
        var again := Size();
        var _ := MarshalWrapper(dAtA, i, i + again);
      }
      return hi - i;
    }

    method Unmarshal(dAtA: bytes) returns (r: Result<()>)
      requires |dAtA| <= MAX_LEN
      modifies this
      ensures Agrees(Decode(KeyCodec(), old(Value()), dAtA), r, Value())
    {
      hide Decode, ReadTag, ReadPayload, Skip;
      var l, iNdEx := |dAtA|, 0;
      DecodeEnd(KeyCodec(), Value(), dAtA);
      while iNdEx < l
        invariant 0 <= iNdEx <= l
        invariant Decode(KeyCodec(), Value(), dAtA[iNdEx..]) == Decode(KeyCodec(), old(Value()), dAtA)
      {
        DecodeRound(KeyCodec(), Value(), dAtA, iNdEx);
        var tag :- DecodeTag(dAtA, iNdEx);
        assert dAtA[iNdEx..][tag.v.n..] == dAtA[tag.next..];
        match tag.v.field {
          case 1 =>
            var x :- BytesCase(dAtA, tag);
            sum, iNdEx := Ed25519(Some(Buf(x.v))), x.next;
          case 2 =>
            var x :- BytesCase(dAtA, tag);
            sum, iNdEx := Secp256K1(Some(Buf(x.v))), x.next;
          case _ =>
            iNdEx :- SkipCase(dAtA, iNdEx);
        }
      }
      DecodeEnd(KeyCodec(), Value(), dAtA);
      return Ok(());
    }
  }
}
