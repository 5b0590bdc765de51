/**
  The bytes that the marshallers write, tag byte by tag byte: every message is its fields in the order
  of their numbers, and a field that is zero or empty is left out.
*/
module Layouts {
  import opened Wire
  import opened Varints
  import opened Decoding
  import opened Fields
  import Proofs
  import Consensus
  import StateSync
  import Canonical
  import Keys
  import Params

  // ---------------------------------------------------------------------------------------
  // Numbers
  // ---------------------------------------------------------------------------------------

  lemma Divide(v: nat, a: nat, q: nat, r: nat)
    requires a > 0 && r < a && v == q * a + r
    ensures v / a == q
  {
    var d := v / a - q;
    assert v == (v / a) * a + v % a;
    assert d * a == r - v % a;
    Multiples(d, a);
  }

  lemma Multiples(d: int, n: int)
    requires -n < d * n < n
    ensures d == 0
  {
  }

  lemma Regroup(p: nat, s: nat, r: nat, a: nat, b: nat)
    ensures (p * b + s) * a + r == p * (a * b) + (s * a + r)
  {
    assert (p * b + s) * a == p * b * a + s * a;
    assert p * b * a == p * (b * a) == p * (a * b);
  }

  lemma Below(s: nat, r: nat, a: nat, b: nat)
    requires s < b && r < a
    ensures s * a + r < a * b
  {
    var d := b - 1 - s;
    assert a * b == (d + s + 1) * a == d * a + s * a + a;
  }

  lemma DivideTwice(v: nat, a: nat, b: nat)
    requires a > 0 && b > 0 && a * b > 0
    ensures v / a / b == v / (a * b)
  {
    var q, r := v / a, v % a;
    var p, s := q / b, q % b;
    Split(v, a);
    Split(q, b);
    Regroup(p, s, r, a, b);
    Below(s, r, a, b);
    Divide(v, a * b, p, s * a + r);
  }

  lemma Split(v: nat, a: nat)
    requires a > 0
    ensures v == v / a * a + v % a && v % a < a
  {
  }

  lemma {:induction false} Powers(n: nat)
    ensures Pow128(n) > 0 && Pow256(n) > 0
  {
    if n > 0 {
      Powers(n - 1);
    }
  }

  /** A varint is its number in groups of seven bits, the lowest first; all but the last have the
      continuation bit. */
  lemma {:induction false} VarintDigits(v: nat, i: nat)
    requires i < |Varint(v)|
    ensures Pow128(i) > 0
    ensures Varint(v)[i] == v / Pow128(i) % 128 + if i + 1 < |Varint(v)| then 128 else 0
  {
    Powers(i);
    if i > 0 {
      Powers(i - 1);
      VarintDigits(v / 128, i - 1);
      DivideTwice(v, 128, Pow128(i - 1));
    }
  }

  /** A fixed64 is its bytes, the lowest first. */
  lemma {:induction false} LittleDigits(v: nat, n: nat, i: nat)
    requires i < n
    ensures Pow256(i) > 0 && Little(v, n)[i] == v / Pow256(i) % 256
  {
    Powers(i);
    if i > 0 {
      Powers(i - 1);
      LittleDigits(v / 256, n - 1, i - 1);
      DivideTwice(v, 256, Pow256(i - 1));
    }
  }

  // ---------------------------------------------------------------------------------------
  // Fields
  // ---------------------------------------------------------------------------------------

  /** An integer of any width and sign: 64 bits in two's complement. */
  function Int(tag: byte, v: word): bytes {
    if v == 0 then [] else [tag] + Varint(Unsigned64(v))
  }

  function Fixed(tag: byte, v: int64): bytes {
    if v == 0 then [] else [tag] + Little(Unsigned64(v), 8)
  }

  /** A field that is written even if it is empty. */
  function Nested(tag: byte, b: bytes): bytes { [tag] + Varint(|b|) + b }

  function Data(tag: byte, b: bytes): bytes { if b == [] then [] else Nested(tag, b) }

  function List(tag: byte, bs: seq<bytes>): bytes {
    if bs == [] then [] else Nested(tag, bs[0]) + List(tag, bs[1..])
  }

  lemma FieldBytes(field: nat, w: word, v: int64, b: bytes)
    requires 0 < field < 16
    ensures Encode(VarintField(field, w)) == Int(8 * field, w)
    ensures Encode(FixedField(field, v)) == Fixed(8 * field + 1, v)
    ensures Encode(BytesField(field, b)) == Data(8 * field + 2, b)
    ensures Encode([Record(field, BytesP(b))]) == Nested(8 * field + 2, b)
  {
    OneRecord(Record(field, VarintP(Unsigned64(w))));
    OneRecord(Record(field, FixedP(Unsigned64(v))));
    OneRecord(Record(field, BytesP(b)));
    SmallTag(8 * field);
    SmallTag(8 * field + 1);
    SmallTag(8 * field + 2);
    EncodeNothing();
    assert [8 * field + 2] + (Varint(|b|) + b) == Nested(8 * field + 2, b);
  }

  lemma SmallTag(tag: nat)
    requires tag < 128
    ensures Varint(tag) == [tag]
  {
  }

  lemma {:induction false} ListBytes(field: nat, bs: seq<bytes>)
    requires 0 < field < 16
    ensures Encode(RepeatedField(field, bs)) == List(8 * field + 2, bs)
    decreases bs
  {
    if bs != [] {
      hide Record.Bytes, Nested;
      var r := Record(field, BytesP(bs[0]));
      FieldBytes(field, 0, 0, bs[0]);
      OneRecord(r);
      assert RepeatedField(field, bs)[1..] == RepeatedField(field, bs[1..]);
      ListBytes(field, bs[1..]);
    } else {
      EncodeNothing();
    }
  }

  /** The fields come in the order of their numbers. */
  ghost predicate Ascending(rs: seq<Record>) {
    forall i, j :: 0 <= i < j < |rs| ==> rs[i].field <= rs[j].field
  }

  /** Ascending fields with no number above `top`, and their bytes. */
  ghost predicate Laid(rs: seq<Record>, top: nat, b: bytes) {
    Ascending(rs) && (forall i :: 0 <= i < |rs| ==> rs[i].field <= top) && Encode(rs) == b
  }

  ghost predicate AllOf(rs: seq<Record>, field: nat) {
    forall i :: 0 <= i < |rs| ==> rs[i].field == field
  }

  lemma Lay(rs: seq<Record>, top: nat, b: bytes, ss: seq<Record>, field: nat, c: bytes)
    requires Laid(rs, top, b) && AllOf(ss, field) && top <= field && Encode(ss) == c
    ensures Laid(rs + ss, field, b + c)
  {
    hide Encode;
    EncodeConcat(rs, ss);
  }

  lemma LayFirst(ss: seq<Record>, field: nat, c: bytes)
    requires AllOf(ss, field) && Encode(ss) == c
    ensures Laid(ss, field, c)
  {
    hide Encode;
  }

  lemma LaidMeans(rs: seq<Record>, top: nat, b: bytes)
    requires Laid(rs, top, b)
    ensures Ascending(rs) && Encode(rs) == b
  {
  }

  lemma LayInt(rs: seq<Record>, top: nat, b: bytes, field: nat, v: word)
    requires Laid(rs, top, b) && top < field < 16
    ensures Laid(rs + VarintField(field, v), field, b + Int(8 * field, v))
  {
    hide Encode, Laid, Int;
    FieldBytes(field, v, 0, []);
    Lay(rs, top, b, VarintField(field, v), field, Int(8 * field, v));
  }

  lemma LayFixed(rs: seq<Record>, top: nat, b: bytes, field: nat, v: int64)
    requires Laid(rs, top, b) && top < field < 16
    ensures Laid(rs + FixedField(field, v), field, b + Fixed(8 * field + 1, v))
  {
    hide Encode, Laid, Fixed;
    FieldBytes(field, 0, v, []);
    Lay(rs, top, b, FixedField(field, v), field, Fixed(8 * field + 1, v));
  }

  lemma LayData(rs: seq<Record>, top: nat, b: bytes, field: nat, v: bytes)
    requires Laid(rs, top, b) && top < field < 16
    ensures Laid(rs + BytesField(field, v), field, b + Data(8 * field + 2, v))
  {
    hide Encode, Laid, Data;
    FieldBytes(field, 0, 0, v);
    Lay(rs, top, b, BytesField(field, v), field, Data(8 * field + 2, v));
  }

  lemma LayNested(rs: seq<Record>, top: nat, b: bytes, field: nat, v: bytes)
    requires Laid(rs, top, b) && top < field < 16
    ensures Laid(rs + [Record(field, BytesP(v))], field, b + Nested(8 * field + 2, v))
  {
    hide Encode, Laid, Nested;
    FieldBytes(field, 0, 0, v);
    Lay(rs, top, b, [Record(field, BytesP(v))], field, Nested(8 * field + 2, v));
  }

  lemma LayList(rs: seq<Record>, top: nat, b: bytes, field: nat, vs: seq<bytes>)
    requires Laid(rs, top, b) && top < field < 16
    ensures Laid(rs + RepeatedField(field, vs), field, b + List(8 * field + 2, vs))
  {
    hide Encode, Laid, List;
    ListBytes(field, vs);
    Lay(rs, top, b, RepeatedField(field, vs), field, List(8 * field + 2, vs));
  }

  lemma FirstInt(v: word)
    ensures Laid(VarintField(1, v), 1, Int(0x08, v))
  {
    hide Encode, Laid, Int;
    FieldBytes(1, v, 0, []);
    LayFirst(VarintField(1, v), 1, Int(0x08, v));
  }

  lemma FirstData(v: bytes)
    ensures Laid(BytesField(1, v), 1, Data(0x0a, v))
  {
    hide Encode, Laid, Data;
    FieldBytes(1, 0, 0, v);
    LayFirst(BytesField(1, v), 1, Data(0x0a, v));
  }

  lemma FirstList(vs: seq<bytes>)
    ensures Laid(RepeatedField(1, vs), 1, List(0x0a, vs))
  {
    hide Encode, Laid, List;
    ListBytes(1, vs);
    LayFirst(RepeatedField(1, vs), 1, List(0x0a, vs));
  }

  // ---------------------------------------------------------------------------------------
  // Messages
  // ---------------------------------------------------------------------------------------

  lemma ProofLayout(m: Proofs.ProofMsg)
    ensures Ascending(Proofs.ProofFields(m))
    ensures Proofs.ProofBytes(m) ==
            Int(0x08, m.total) + Int(0x10, m.index) + Data(0x1a, m.leafHash.Data())
            + List(0x22, Contents(m.aunts))
  {
    hide Encode, Laid, VarintField, FixedField, BytesField, RepeatedField, Int, Fixed, Data, Nested, List, Ascending;
    FirstInt(m.total);
    var a, la := VarintField(1, m.total), Int(0x08, m.total);
    LayInt(a, 1, la, 2, m.index);
    var b, lb := a + VarintField(2, m.index), la + Int(0x10, m.index);
    LayData(b, 2, lb, 3, m.leafHash.Data());
    var c, lc := b + BytesField(3, m.leafHash.Data()), lb + Data(0x1a, m.leafHash.Data());
    LayList(c, 3, lc, 4, Contents(m.aunts));
    LaidMeans(Proofs.ProofFields(m), 4, lc + List(0x22, Contents(m.aunts)));
  }

  lemma ValueOpLayout(m: Proofs.ValueOpMsg)
    ensures Ascending(Proofs.ValueOpFields(m))
    ensures Proofs.ValueOpBytes(m) ==
            Data(0x0a, m.key.Data()) + if m.proof.None? then [] else Nested(0x12, Proofs.ProofBytes(m.proof.value))
  {
    hide Encode, Laid, VarintField, FixedField, BytesField, RepeatedField, Int, Fixed, Data, Nested, List, Ascending;
    hide Proofs.ProofBytes;
    FirstData(m.key.Data());
    var a, la := BytesField(1, m.key.Data()), Data(0x0a, m.key.Data());
    if m.proof.Some? {
      LayNested(a, 1, la, 2, Proofs.ProofBytes(m.proof.value));
      LaidMeans(Proofs.ValueOpFields(m), 2, la + Nested(0x12, Proofs.ProofBytes(m.proof.value)));
    } else {
      assert a + [] == a && la + [] == la;
      LaidMeans(a, 1, la);
    }
  }

  lemma ProofOpLayout(m: Proofs.ProofOpMsg)
    ensures Ascending(Proofs.ProofOpFields(m))
    ensures Proofs.ProofOpBytes(m) ==
            Data(0x0a, m.typ) + Data(0x12, m.key.Data()) + Data(0x1a, m.data.Data())
  {
    hide Encode, Laid, VarintField, FixedField, BytesField, RepeatedField, Int, Fixed, Data, Nested, List, Ascending;
    FirstData(m.typ);
    var a, la := BytesField(1, m.typ), Data(0x0a, m.typ);
    LayData(a, 1, la, 2, m.key.Data());
    var b, lb := a + BytesField(2, m.key.Data()), la + Data(0x12, m.key.Data());
    LayData(b, 2, lb, 3, m.data.Data());
    LaidMeans(Proofs.ProofOpFields(m), 3, lb + Data(0x1a, m.data.Data()));
  }

  lemma ProofOpsLayout(m: Proofs.ProofOpsMsg)
    ensures Ascending(Proofs.ProofOpsFields(m))
    ensures Proofs.ProofOpsBytes(m) ==
            List(0x0a, Proofs.OpsBytes(m.ops))
  {
    hide Encode, Laid, VarintField, FixedField, BytesField, RepeatedField, Int, Fixed, Data, Nested, List, Ascending;
    FirstList(Proofs.OpsBytes(m.ops));
    var a, la := RepeatedField(1, Proofs.OpsBytes(m.ops)), List(0x0a, Proofs.OpsBytes(m.ops));
    LaidMeans(Proofs.ProofOpsFields(m), 1, la);
  }

  lemma NewRoundStepLayout(m: Consensus.NewRoundStepMsg)
    ensures Ascending(Consensus.NewRoundStepFields(m))
    ensures Encode(Consensus.NewRoundStepFields(m)) ==
            Int(0x08, m.height) + Int(0x10, m.round) + Int(0x18, m.step) + Int(0x20, m.secondsSinceStartTime)
            + Int(0x28, m.lastCommitRound)
  {
    hide Encode, Laid, VarintField, FixedField, BytesField, RepeatedField, Int, Fixed, Data, Nested, List, Ascending;
    FirstInt(m.height);
    var a, la := VarintField(1, m.height), Int(0x08, m.height);
    LayInt(a, 1, la, 2, m.round);
    var b, lb := a + VarintField(2, m.round), la + Int(0x10, m.round);
    LayInt(b, 2, lb, 3, m.step);
    var c, lc := b + VarintField(3, m.step), lb + Int(0x18, m.step);
    LayInt(c, 3, lc, 4, m.secondsSinceStartTime);
    var d, ld := c + VarintField(4, m.secondsSinceStartTime), lc + Int(0x20, m.secondsSinceStartTime);
    LayInt(d, 4, ld, 5, m.lastCommitRound);
    LaidMeans(Consensus.NewRoundStepFields(m), 5, ld + Int(0x28, m.lastCommitRound));
  }

  lemma HasVoteLayout(m: Consensus.HasVoteMsg)
    ensures Ascending(Consensus.HasVoteFields(m))
    ensures Encode(Consensus.HasVoteFields(m)) ==
            Int(0x08, m.height) + Int(0x10, m.round) + Int(0x18, m.typ) + Int(0x20, m.index)
  {
    hide Encode, Laid, VarintField, FixedField, BytesField, RepeatedField, Int, Fixed, Data, Nested, List, Ascending;
    FirstInt(m.height);
    var a, la := VarintField(1, m.height), Int(0x08, m.height);
    LayInt(a, 1, la, 2, m.round);
    var b, lb := a + VarintField(2, m.round), la + Int(0x10, m.round);
    LayInt(b, 2, lb, 3, m.typ);
    var c, lc := b + VarintField(3, m.typ), lb + Int(0x18, m.typ);
    LayInt(c, 3, lc, 4, m.index);
    LaidMeans(Consensus.HasVoteFields(m), 4, lc + Int(0x20, m.index));
  }

  lemma SnapshotsResponseLayout(m: StateSync.SnapshotsResponseMsg)
    ensures Ascending(StateSync.SnapshotsResponseFields(m))
    ensures Encode(StateSync.SnapshotsResponseFields(m)) ==
            Int(0x08, m.height) + Int(0x10, m.format) + Int(0x18, m.chunks) + Data(0x22, m.hash.Data())
            + Data(0x2a, m.metadata.Data())
  {
    hide Encode, Laid, VarintField, FixedField, BytesField, RepeatedField, Int, Fixed, Data, Nested, List, Ascending;
    FirstInt(m.height);
    var a, la := VarintField(1, m.height), Int(0x08, m.height);
    LayInt(a, 1, la, 2, m.format);
    var b, lb := a + VarintField(2, m.format), la + Int(0x10, m.format);
    LayInt(b, 2, lb, 3, m.chunks);
    var c, lc := b + VarintField(3, m.chunks), lb + Int(0x18, m.chunks);
    LayData(c, 3, lc, 4, m.hash.Data());
    var d, ld := c + BytesField(4, m.hash.Data()), lc + Data(0x22, m.hash.Data());
    LayData(d, 4, ld, 5, m.metadata.Data());
    LaidMeans(StateSync.SnapshotsResponseFields(m), 5, ld + Data(0x2a, m.metadata.Data()));
  }

  lemma ChunkRequestLayout(m: StateSync.ChunkRequestMsg)
    ensures Ascending(StateSync.ChunkRequestFields(m))
    ensures Encode(StateSync.ChunkRequestFields(m)) ==
            Int(0x08, m.height) + Int(0x10, m.format) + Int(0x18, m.index)
  {
    hide Encode, Laid, VarintField, FixedField, BytesField, RepeatedField, Int, Fixed, Data, Nested, List, Ascending;
    FirstInt(m.height);
    var a, la := VarintField(1, m.height), Int(0x08, m.height);
    LayInt(a, 1, la, 2, m.format);
    var b, lb := a + VarintField(2, m.format), la + Int(0x10, m.format);
    LayInt(b, 2, lb, 3, m.index);
    LaidMeans(StateSync.ChunkRequestFields(m), 3, lb + Int(0x18, m.index));
  }

  lemma ChunkResponseLayout(m: StateSync.ChunkResponseMsg)
    ensures Ascending(StateSync.ChunkResponseFields(m))
    ensures Encode(StateSync.ChunkResponseFields(m)) ==
            Int(0x08, m.height) + Int(0x10, m.format) + Int(0x18, m.index) + Data(0x22, m.chunk.Data())
            + if m.missing then [0x28, 0x01] else []
  {
    hide Encode, Laid, VarintField, FixedField, BytesField, RepeatedField, Int, Fixed, Data, Nested, List, Ascending;
    BoolBytes(m.missing);
    var missing: word := if m.missing then 1 else 0;
    FirstInt(m.height);
    var a, la := VarintField(1, m.height), Int(0x08, m.height);
    LayInt(a, 1, la, 2, m.format);
    var b, lb := a + VarintField(2, m.format), la + Int(0x10, m.format);
    LayInt(b, 2, lb, 3, m.index);
    var c, lc := b + VarintField(3, m.index), lb + Int(0x18, m.index);
    LayData(c, 3, lc, 4, m.chunk.Data());
    var d, ld := c + BytesField(4, m.chunk.Data()), lc + Data(0x22, m.chunk.Data());
    LayInt(d, 4, ld, 5, missing);
    LaidMeans(StateSync.ChunkResponseFields(m), 5, ld + Int(0x28, missing));
  }

  lemma BoolBytes(b: bool)
    ensures Int(0x28, if b then 1 else 0) == if b then [0x28, 0x01] else []
  {
    SmallTag(1);
  }

  lemma MessageLayout(b: StateSync.Body)
    ensures StateSync.MessageBytes(StateSync.Wrap(StateSync.To(b))) ==
            Nested(if b.SnapshotsRequest? then 0x0a else if b.SnapshotsResponse? then 0x12
                   else if b.ChunkRequest? then 0x1a else 0x22, StateSync.BodyBytes(b))
  {
    hide Encode, StateSync.BodyBytes;
    FieldBytes(b.Kind(), 0, 0, StateSync.BodyBytes(b));
  }

  lemma PartSetHeaderLayout(m: Canonical.PartSetHeaderMsg)
    ensures Ascending(Canonical.PartSetHeaderFields(m))
    ensures Canonical.PartSetHeaderBytes(m) ==
            Int(0x08, m.total) + Data(0x12, m.hash.Data())
  {
    hide Encode, Laid, VarintField, FixedField, BytesField, RepeatedField, Int, Fixed, Data, Nested, List, Ascending;
    FirstInt(m.total);
    var a, la := VarintField(1, m.total), Int(0x08, m.total);
    LayData(a, 1, la, 2, m.hash.Data());
    LaidMeans(Canonical.PartSetHeaderFields(m), 2, la + Data(0x12, m.hash.Data()));
  }

  lemma BlockIDLayout(m: Canonical.BlockIDMsg)
    ensures Ascending(Canonical.BlockIDFields(m))
    ensures Canonical.BlockIDBytes(m) ==
            Data(0x0a, m.hash.Data()) + Nested(0x12, Canonical.PartSetHeaderBytes(m.partSetHeader))
  {
    hide Encode, Laid, VarintField, FixedField, BytesField, RepeatedField, Int, Fixed, Data, Nested, List, Ascending;
    hide Canonical.PartSetHeaderBytes;
    FirstData(m.hash.Data());
    var a, la := BytesField(1, m.hash.Data()), Data(0x0a, m.hash.Data());
    LayNested(a, 1, la, 2, Canonical.PartSetHeaderBytes(m.partSetHeader));
    LaidMeans(Canonical.BlockIDFields(m), 2, la + Nested(0x12, Canonical.PartSetHeaderBytes(m.partSetHeader)));
  }

  /** The bytes of a vote extension that are signed. */
  lemma VoteExtensionLayout(m: Canonical.VoteExtensionMsg)
    ensures Ascending(Canonical.VoteExtensionFields(m))
    ensures Canonical.VoteExtensionBytes(m) ==
            Data(0x0a, m.extension.Data()) + Fixed(0x11, m.height) + Fixed(0x19, m.round)
            + Data(0x22, m.chainId)
  {
    hide Encode, Laid, VarintField, FixedField, BytesField, RepeatedField, Int, Fixed, Data, Nested, List, Ascending;
    FirstData(m.extension.Data());
    var a, la := BytesField(1, m.extension.Data()), Data(0x0a, m.extension.Data());
    LayFixed(a, 1, la, 2, m.height);
    var b, lb := a + FixedField(2, m.height), la + Fixed(0x11, m.height);
    LayFixed(b, 2, lb, 3, m.round);
    var c, lc := b + FixedField(3, m.round), lb + Fixed(0x19, m.round);
    LayData(c, 3, lc, 4, m.chainId);
    LaidMeans(Canonical.VoteExtensionFields(m), 4, lc + Data(0x22, m.chainId));
  }

  function OptionalID(tag: byte, id: Option<Canonical.BlockIDMsg>): bytes {
    if id.None? then [] else Nested(tag, Canonical.BlockIDBytes(id.value))
  }

  lemma LayID(rs: seq<Record>, top: nat, b: bytes, field: nat, id: Option<Canonical.BlockIDMsg>)
    requires Laid(rs, top, b) && top < field < 16
    ensures Laid(rs + Canonical.BlockIDField(field, id), field, b + OptionalID(8 * field + 2, id))
  {
    hide Encode, Laid, Nested, Canonical.BlockIDBytes;
    if id.Some? {
      LayNested(rs, top, b, field, Canonical.BlockIDBytes(id.value));
    } else {
      EncodeNothing();
      Lay(rs, top, b, [], field, []);
    }
  }

  lemma VoteGrouping(m: Canonical.VoteMsg)
    ensures Canonical.VoteFields(m) ==
            VarintField(1, m.typ) + FixedField(2, m.height) + FixedField(3, m.round)
            + Canonical.BlockIDField(4, m.blockID) + [Record(5, BytesP(m.timestamp))] + BytesField(6, m.chainID)
  {
    hide VarintField, FixedField, BytesField, Canonical.BlockIDField;
  }

  /** The bytes of a vote that are signed, with the payload of its timestamp. */
  lemma VoteLayout(m: Canonical.VoteMsg)
    ensures Ascending(Canonical.VoteFields(m))
    ensures Canonical.VoteBytes(m) ==
            Int(0x08, m.typ) + Fixed(0x11, m.height) + Fixed(0x19, m.round) + OptionalID(0x22, m.blockID)
            + Nested(0x2a, m.timestamp) + Data(0x32, m.chainID)
  {
    hide Encode, Laid, VarintField, FixedField, BytesField, RepeatedField, Int, Fixed, Data, Nested, List, Ascending;
    hide OptionalID, Canonical.BlockIDField;
    FirstInt(m.typ);
    var a, la := VarintField(1, m.typ), Int(0x08, m.typ);
    LayFixed(a, 1, la, 2, m.height);
    var b, lb := a + FixedField(2, m.height), la + Fixed(0x11, m.height);
    LayFixed(b, 2, lb, 3, m.round);
    var c, lc := b + FixedField(3, m.round), lb + Fixed(0x19, m.round);
    LayID(c, 3, lc, 4, m.blockID);
    var d, ld := c + Canonical.BlockIDField(4, m.blockID), lc + OptionalID(0x22, m.blockID);
    LayNested(d, 4, ld, 5, m.timestamp);
    var e, le := d + [Record(5, BytesP(m.timestamp))], ld + Nested(0x2a, m.timestamp);
    LayData(e, 5, le, 6, m.chainID);
    VoteGrouping(m);
    LaidMeans(Canonical.VoteFields(m), 6, le + Data(0x32, m.chainID));
  }

  /** The bytes of a proposal that are signed, with the payload of its timestamp. */
  lemma ProposalLayout(m: Canonical.ProposalMsg)
    ensures Ascending(Canonical.ProposalFields(m))
    ensures Canonical.ProposalBytes(m) ==
            Int(0x08, m.typ) + Fixed(0x11, m.height) + Fixed(0x19, m.round) + Int(0x20, m.polRound)
            + OptionalID(0x2a, m.blockID) + Nested(0x32, m.timestamp) + Data(0x3a, m.chainID)
  {
    hide Encode, Laid, VarintField, FixedField, BytesField, RepeatedField, Int, Fixed, Data, Nested, List, Ascending;
    hide OptionalID, Canonical.BlockIDField;
    FirstInt(m.typ);
    var a, la := VarintField(1, m.typ), Int(0x08, m.typ);
    LayFixed(a, 1, la, 2, m.height);
    var b, lb := a + FixedField(2, m.height), la + Fixed(0x11, m.height);
    LayFixed(b, 2, lb, 3, m.round);
    var c, lc := b + FixedField(3, m.round), lb + Fixed(0x19, m.round);
    LayInt(c, 3, lc, 4, m.polRound);
    var d, ld := c + VarintField(4, m.polRound), lc + Int(0x20, m.polRound);
    LayID(d, 4, ld, 5, m.blockID);
    var e, le := d + Canonical.BlockIDField(5, m.blockID), ld + OptionalID(0x2a, m.blockID);
    LayNested(e, 5, le, 6, m.timestamp);
    var f, lf := e + [Record(6, BytesP(m.timestamp))], le + Nested(0x32, m.timestamp);
    LayData(f, 6, lf, 7, m.chainID);
    LaidMeans(Canonical.ProposalFields(m), 7, lf + Data(0x3a, m.chainID));
  }

  lemma PublicKeyLayout(k: Keys.PublicKeyMsg)
    requires Keys.HasWrapper(k)
    ensures Keys.KeyBytes(k) ==
            if Keys.Vanishes(k) then [] else Nested(if k.sum.Ed25519? then 0x0a else 0x12, k.sum.w.value.data)
  {
    EncodeNothing();
    if !Keys.Vanishes(k) {
      FieldBytes(if k.sum.Ed25519? then 1 else 2, 0, 0, k.sum.w.value.data);
    }
  }

  lemma ValidatorParamsLayout(m: Params.ValidatorParamsMsg)
    ensures Params.ValidatorParamsBytes(m) == List(0x0a, m.pubKeyTypes)
  {
    ListBytes(1, m.pubKeyTypes);
  }
}
