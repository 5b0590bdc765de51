/**
  What a decoded message owes to the fields of its input, said without running the decoder: the fields
  are listed, and of each kind of field the last occurrence, or all of them, decide.
*/
module Occurrences {
  import opened Wire
  import opened Decoding

  ghost predicate Wanted(wants: int -> Option<nat>) {
    forall f: int :: wants(f).Some? ==> wants(f).value <= 2
  }

  ghost predicate Typed(wants: int -> Option<nat>, rs: seq<Record>) {
    forall i :: 0 <= i < |rs| ==> wants(rs[i].field) == Some(rs[i].payload.WireType())
  }

  /** The fields of an input that the message knows, in their order. */
  function Parse(wants: int -> Option<nat>, b: bytes): (r: Result<seq<Record>>)
    requires Wanted(wants)
    ensures r.Ok? ==> Typed(wants, r.value)
    decreases |b|
  {
    if b == [] then Ok([])
    else match Next(wants, b)
      case Err(e) => Err(e)
      case Ok(item) => Prepend(item, Parse(wants, b[item.n..]))
  }

  function Prepend(item: Item, r: Result<seq<Record>>): Result<seq<Record>>
    requires item.Known? ==> item.field > 0
  {
    if r.Err? || item.Unknown? then r else Ok([Record(item.field, item.p)] + r.value)
  }

  /** The payload of the last field numbered `f`. */
  function Last(rs: seq<Record>, f: nat): Option<Payload> {
    if rs == [] then None
    else if rs[|rs| - 1].field == f then Some(rs[|rs| - 1].payload)
    else Last(rs[..|rs| - 1], f)
  }

  /** The payloads of all fields numbered `f`, one behind the other. */
  function All(rs: seq<Record>, f: nat): seq<bytes> {
    if rs == [] then []
    else All(rs[..|rs| - 1], f) + if rs[|rs| - 1].field == f then [Raw(rs[|rs| - 1].payload)] else []
  }

  function Join(bs: seq<bytes>): bytes {
    if bs == [] then [] else Join(bs[..|bs| - 1]) + bs[|bs| - 1]
  }

  function Number(p: Payload): uint64 { if p.VarintP? || p.FixedP? then p.v else 0 }

  function Raw(p: Payload): bytes { if p.BytesP? then p.b else [] }

  // What a field of each type holds when the fields `rs` have come, if it held `was` before.

  function Int64At(rs: seq<Record>, f: nat, was: int64): int64 {
    if Last(rs, f).None? then was else Signed64(Number(Last(rs, f).value))
  }

  function Int32At(rs: seq<Record>, f: nat, was: int32): int32 {
    if Last(rs, f).None? then was else Signed32(Number(Last(rs, f).value))
  }

  function Uint64At(rs: seq<Record>, f: nat, was: uint64): uint64 {
    if Last(rs, f).None? then was else Number(Last(rs, f).value)
  }

  function Uint32At(rs: seq<Record>, f: nat, was: uint32): uint32 {
    if Last(rs, f).None? then was else Unsigned32(Number(Last(rs, f).value))
  }

  function BoolAt(rs: seq<Record>, f: nat, was: bool): bool {
    if Last(rs, f).None? then was else Number(Last(rs, f).value) != 0
  }

  function StringAt(rs: seq<Record>, f: nat, was: bytes): bytes {
    if Last(rs, f).None? then was else Raw(Last(rs, f).value)
  }

  /** Bytes that came are there, even if they came empty. */
  function BytesAt(rs: seq<Record>, f: nat, was: Buf): Buf {
    if Last(rs, f).None? then was else Buf(Raw(Last(rs, f).value))
  }

  // ---------------------------------------------------------------------------------------
  // Decoding is folding over the listed fields
  // ---------------------------------------------------------------------------------------

  /** An input is accepted exactly when its fields can be listed and the switch accepts them all. */
  lemma {:induction false} DecodeIsFold<M>(c: Codec<M>, m: M, b: bytes)
    requires c.Valid()
    ensures Decode(c, m, b).Ok? <==> Parse(c.wants, b).Ok? && Fold(c, m, Parse(c.wants, b).value).Ok?
    ensures Decode(c, m, b).Ok? ==> Decode(c, m, b) == Fold(c, m, Parse(c.wants, b).value)
    decreases |b|
  {
    hide Next;
    if b != [] && Step(c, m, b).Ok? {
      var s, item := Step(c, m, b).value, Next(c.wants, b).value;
      DecodeIsFold(c, s.m, b[item.n..]);
      var rest := Parse(c.wants, b[item.n..]);
      if rest.Ok? && item.Known? {
        assert ([Record(item.field, item.p)] + rest.value)[1..] == rest.value;
      }
    } else if b != [] {
      var item := Next(c.wants, b);
      if item.Ok? && item.value.Known? && Parse(c.wants, b).Ok? {
        var rest := Parse(c.wants, b[item.value.n..]);
        assert Parse(c.wants, b).value == [Record(item.value.field, item.value.p)] + rest.value;
      }
    }
  }

  /** No case of the switch ever fails. */
  ghost predicate NeverRefuses<M(!new)>(c: Codec<M>) {
    forall m: M, f: int, p: Payload :: c.apply(m, f, p).Ok?
  }

  /** Then the fields alone decide, and so does the first error among them. */
  lemma {:induction false} DecodeNeverRefuses<M(!new)>(c: Codec<M>, m: M, b: bytes)
    requires c.Valid() && NeverRefuses(c)
    ensures Decode(c, m, b).Ok? <==> Parse(c.wants, b).Ok?
    ensures Parse(c.wants, b).Err? ==> Decode(c, m, b) == Err(Parse(c.wants, b).error)
    ensures Parse(c.wants, b).Ok? ==> Decode(c, m, b) == Fold(c, m, Parse(c.wants, b).value)
    decreases |b|
  {
    hide Next;
    if b != [] && Next(c.wants, b).Ok? {
      var item := Next(c.wants, b).value;
      assert item.Known? ==> c.apply(m, item.field, item.p).Ok?;
      var s := Step(c, m, b).value;
      DecodeNeverRefuses(c, s.m, b[item.n..]);
    }
    DecodeIsFold(c, m, b);
  }

  /** One more field behind an accepted list. */
  lemma FoldOneMore<M>(c: Codec<M>, m: M, rs: seq<Record>, r: Record)
    ensures Fold(c, m, rs + [r]) ==
            if Fold(c, m, rs).Err? then Fold(c, m, rs) else c.apply(Fold(c, m, rs).value, r.field, r.payload)
  {
    hide Fold;
    if Fold(c, m, rs).Ok? {
      FoldConcat(c, m, rs, [r]);
      assert Fold(c, Fold(c, m, rs).value, [r]) == c.apply(Fold(c, m, rs).value, r.field, r.payload) by {
        FoldSingle(c, Fold(c, m, rs).value, r);
      }
    } else {
      FoldStops(c, m, rs, [r]);
    }
  }

  lemma FoldSingle<M>(c: Codec<M>, m: M, r: Record)
    ensures Fold(c, m, [r]) == c.apply(m, r.field, r.payload)
  {
    assert [r][1..] == [];
  }

  lemma {:induction false} FoldStops<M>(c: Codec<M>, m: M, rs: seq<Record>, ss: seq<Record>)
    requires Fold(c, m, rs).Err?
    ensures Fold(c, m, rs + ss) == Fold(c, m, rs)
    decreases rs
  {
    assert (rs + ss)[0] == rs[0] && (rs + ss)[1..] == rs[1..] + ss;
    if c.apply(m, rs[0].field, rs[0].payload).Ok? {
      FoldStops(c, c.apply(m, rs[0].field, rs[0].payload).value, rs[1..], ss);
    }
  }

  lemma PrependConcat(item: Item, rs: seq<Record>, ss: seq<Record>)
    requires item.Known? ==> item.field > 0
    ensures Prepend(item, Ok(rs + ss)) == Ok(Prepend(item, Ok(rs)).value + ss)
  {
    if item.Known? {
      var r := [Record(item.field, item.p)];
      assert r + rs + ss == r + (rs + ss);
    }
  }

  /** The fields of a concatenation. */
  lemma {:induction false} ParseConcat(wants: int -> Option<nat>, a: bytes, b: bytes)
    requires Wanted(wants) && Parse(wants, a).Ok?
    ensures Parse(wants, b).Ok? ==> Parse(wants, a + b) == Ok(Parse(wants, a).value + Parse(wants, b).value)
    ensures Parse(wants, b).Err? ==> Parse(wants, a + b) == Parse(wants, b)
    decreases |a|
  {
    if a == [] {
      assert a + b == b;
      assert Parse(wants, b).Ok? ==> [] + Parse(wants, b).value == Parse(wants, b).value;
    } else {
      hide Next, Prepend;
      NextStable(wants, a, b);
      var item := Next(wants, a).value;
      var rest := Parse(wants, a[item.n..]);
      assert (a + b)[item.n..] == a[item.n..] + b;
      PrependKeeps(item, rest);
      ParseConcat(wants, a[item.n..], b);
      if Parse(wants, b).Ok? {
        PrependConcat(item, rest.value, Parse(wants, b).value);
      } else {
        PrependKeeps(item, Parse(wants, b));
      }
    }
  }

  lemma PrependKeeps(item: Item, r: Result<seq<Record>>)
    requires item.Known? ==> item.field > 0
    ensures Prepend(item, r).Ok? <==> r.Ok?
    ensures r.Err? ==> Prepend(item, r) == r
  {
  }

  /** One more field behind an accepted input: it is the last of its number, and every other number keeps
      the last it had. */
  lemma LastOneWins(wants: int -> Option<nat>, a: bytes, u: bytes, f: nat, p: Payload, g: nat)
    requires Wanted(wants) && Parse(wants, a).Ok? && Next(wants, u) == Ok(Known(f, p, |u|))
    ensures Parse(wants, a + u) == Ok(Parse(wants, a).value + [Record(f, p)])
    ensures Last(Parse(wants, a + u).value, g) == if g == f then Some(p) else Last(Parse(wants, a).value, g)
  {
    assert u[|u|..] == [];
    assert Parse(wants, u) == Ok([Record(f, p)]) by {
      assert Parse(wants, u[|u|..]) == Ok([]);
      assert [Record(f, p)] + [] == [Record(f, p)];
    }
    hide Parse, Next;
    ParseConcat(wants, a, u);
    var rs := Parse(wants, a).value;
    assert (rs + [Record(f, p)])[..|rs|] == rs;
  }

  // ---------------------------------------------------------------------------------------
  // Fields that are merged
  // ---------------------------------------------------------------------------------------

  /** `u` is one occurrence of field `g`, however its tag and length are spelled, with payload `a`. */
  ghost predicate Occurs(wants: int -> Option<nat>, u: bytes, g: nat, a: bytes)
    requires Wanted(wants)
  {
    Next(wants, u) == Ok(Known(g, BytesP(a), |u|))
  }

  /** `mid` is a sequence of fields, known or not, without an occurrence of field `g`. */
  ghost predicate Avoids(wants: int -> Option<nat>, mid: bytes, g: nat)
    requires Wanted(wants)
  {
    Parse(wants, mid).Ok? && Last(Parse(wants, mid).value, g).None?
  }

  /** Field `g` is a nested message that the decoder merges into the one it has: it is the only one that
      can be refused, the other fields do not touch it, and two payloads are as good as both in one. */
  ghost predicate Merges<M(!new)>(c: Codec<M>, g: nat) {
    && Blind(c)
    && (forall m: M, f: int, q: Payload :: f != g && c.wants(f) == Some(q.WireType()) ==> c.apply(m, f, q).Ok?)
    && (forall m: M, f: int, q: Payload, a: bytes ::
          f != g && c.wants(f) == Some(q.WireType()) && c.apply(m, g, BytesP(a)).Ok? ==>
          c.apply(c.apply(m, f, q).value, g, BytesP(a)) == c.apply(c.apply(m, g, BytesP(a)).value, f, q))
    && (forall m: M, a: bytes, b: bytes :: c.apply(m, g, BytesP(a)).Ok? ==>
          c.apply(c.apply(m, g, BytesP(a)).value, g, BytesP(b)) == c.apply(m, g, BytesP(a + b)))
  }

  lemma {:induction false} OthersCommute<M(!new)>(c: Codec<M>, g: nat, m: M, a: bytes, rs: seq<Record>)
    requires Merges(c, g) && Typed(c.wants, rs) && Last(rs, g).None?
    ensures Fold(c, m, rs).Ok?
    ensures c.apply(m, g, BytesP(a)).Ok? ==>
              Fold(c, c.apply(m, g, BytesP(a)).value, rs) == c.apply(Fold(c, m, rs).value, g, BytesP(a))
    decreases |rs|
  {
    if rs != [] {
      hide Fold, Blind;
      var init, r := rs[..|rs| - 1], rs[|rs| - 1];
      assert rs == init + [r];
      OthersCommute(c, g, m, a, init);
      FoldOneMore(c, m, init, r);
      var k := Fold(c, m, init).value;
      assert c.apply(k, r.field, r.payload).Ok?;
      if c.apply(m, g, BytesP(a)).Ok? {
        FoldOneMore(c, c.apply(m, g, BytesP(a)).value, init, r);
        assert c.apply(k, g, BytesP(a)).Ok?;
        assert c.apply(c.apply(k, r.field, r.payload).value, g, BytesP(a))
            == c.apply(c.apply(k, g, BytesP(a)).value, r.field, r.payload);
      }
    }
  }

  lemma DecodeOccurrence<M>(c: Codec<M>, m: M, g: nat, u: bytes, a: bytes, rest: bytes)
    requires c.Valid() && Occurs(c.wants, u, g, a)
    ensures Decode(c, m, u + rest) ==
            var r := c.apply(m, g, BytesP(a)); if r.Err? then Err(r.error) else Decode(c, r.value, rest)
  {
    hide Next;
    NextStable(c.wants, u, rest);
    assert (u + rest)[|u|..] == rest;
  }

  /** Two occurrences of a merged field, with other fields before, between and behind them, decode as one
      occurrence of the concatenated payloads in the place of the first. */
  lemma OccurrencesMerge<M(!new)>(c: Codec<M>, g: nat, m: M, u: bytes, a: bytes, mid: bytes,
                                  v: bytes, b: bytes, w: bytes, post: bytes)
    requires c.Valid() && Merges(c, g)
    requires Occurs(c.wants, u, g, a) && Occurs(c.wants, v, g, b) && Occurs(c.wants, w, g, a + b)
    requires Avoids(c.wants, mid, g) && c.apply(m, g, BytesP(a)).Ok?
    ensures Decode(c, m, u + (mid + (v + post))) == Decode(c, m, w + (mid + post))
  {
    hide Decode, Parse, Occurs, Last;
    var rs := Parse(c.wants, mid).value;
    var first, both := c.apply(m, g, BytesP(a)).value, c.apply(m, g, BytesP(a + b));
    OthersCommute(c, g, m, a, rs);
    OthersCommute(c, g, m, a + b, rs);
    DecodeIsFold(c, m, mid);
    var k := Decode(c, m, mid).value;
    OneOccurrence(c, g, m, a, mid, v + post, u);
    var held := c.apply(k, g, BytesP(a)).value;
    DecodeOccurrence(c, held, g, v, b, post);
    assert c.apply(held, g, BytesP(b)) == c.apply(k, g, BytesP(a + b));
    assert Fate(c.apply(k, g, BytesP(a + b))) == Fate(both);
    if both.Ok? {
      OneOccurrence(c, g, m, a + b, mid, post, w);
    } else {
      DecodeOccurrence(c, m, g, w, a + b, mid + post);
    }
  }

  /** An occurrence may as well come behind the fields that follow it. */
  lemma OneOccurrence<M(!new)>(c: Codec<M>, g: nat, m: M, a: bytes, mid: bytes, post: bytes, u: bytes)
    requires c.Valid() && Merges(c, g) && Occurs(c.wants, u, g, a)
    requires Avoids(c.wants, mid, g) && c.apply(m, g, BytesP(a)).Ok?
    ensures Decode(c, m, mid).Ok? && c.apply(Decode(c, m, mid).value, g, BytesP(a)).Ok?
    ensures Decode(c, m, u + (mid + post)) == Decode(c, c.apply(Decode(c, m, mid).value, g, BytesP(a)).value, post)
  {
    hide Decode, Parse, Occurs, Last, Fold;
    var rs, first := Parse(c.wants, mid).value, c.apply(m, g, BytesP(a)).value;
    OthersCommute(c, g, m, a, rs);
    OthersCommute(c, g, first, a, rs);
    DecodeIsFold(c, m, mid);
    DecodeIsFold(c, first, mid);
    DecodeOccurrence(c, m, g, u, a, mid + post);
    DecodeConcat(c, first, mid, post);
  }

  /** Payloads that a fresh message accepts one by one are accepted one behind the other by any. */
  lemma {:induction false} JoinDecodes<M(!new)>(c: Codec<M>, empty: M, m: M, bs: seq<bytes>)
    requires c.Valid() && Blind(c) && forall i :: 0 <= i < |bs| ==> Decode(c, empty, bs[i]).Ok?
    ensures Decode(c, m, Join(bs)).Ok?
    decreases |bs|
  {
    if bs != [] {
      hide Decode, Blind;
      var init, b := bs[..|bs| - 1], bs[|bs| - 1];
      JoinDecodes(c, empty, m, init);
      ReceiverDoesNotMatter(c, Decode(c, m, Join(init)).value, empty, b);
      DecodeConcat(c, m, Join(init), b);
    } else {
      assert Join(bs) == [];
    }
  }

  /** A fresh message accepts each of the payloads. */
  ghost predicate Accepts<M>(c: Codec<M>, empty: M, bs: seq<bytes>)
    requires c.Valid()
  {
    forall i :: 0 <= i < |bs| ==> Decode(c, empty, bs[i]).Ok?
  }

  /** What a pointer to a nested message holds when the payloads `bs` have come: they are decoded as one,
      into the message it pointed to or a new one. */
  function MergedAt<M>(c: Codec<M>, empty: M, had: Option<M>, bs: seq<bytes>): Option<M>
    requires c.Valid()
  {
    if bs == [] then had
    else
      var r := Decode(c, if had.None? then empty else had.value, Join(bs));
      if r.Ok? then Some(r.value) else None
  }

  lemma AcceptsMore<M>(c: Codec<M>, empty: M, bs: seq<bytes>, b: bytes)
    requires c.Valid()
    ensures Accepts(c, empty, bs + [b]) <==> Accepts(c, empty, bs) && Decode(c, empty, b).Ok?
  {
    hide Decode;
    var all := bs + [b];
    assert all[|bs|] == b;
    assert forall i :: 0 <= i < |bs| ==> all[i] == bs[i];
  }

  lemma MergedMore<M(!new)>(c: Codec<M>, empty: M, had: Option<M>, bs: seq<bytes>, b: bytes)
    requires c.Valid() && Blind(c) && Accepts(c, empty, bs)
    ensures var x := MergedAt(c, empty, had, bs);
            var r := Decode(c, if x.None? then empty else x.value, b);
            && (r.Ok? <==> Decode(c, empty, b).Ok?)
            && (r.Ok? ==> MergedAt(c, empty, had, bs + [b]) == Some(r.value))
  {
    hide Decode, Blind;
    var start := if had.None? then empty else had.value;
    assert (bs + [b])[..|bs|] == bs && Join(bs + [b]) == Join(bs) + b;
    if bs == [] {
      assert Join(bs) + b == b;
      ReceiverDoesNotMatter(c, start, empty, b);
    } else {
      JoinDecodes(c, empty, start, bs);
      ReceiverDoesNotMatter(c, Decode(c, start, Join(bs)).value, empty, b);
      DecodeConcat(c, start, Join(bs), b);
    }
  }

  /** The payloads as byte slices of their own. */
  function Buffers(bs: seq<bytes>): (r: seq<Buf>)
    ensures |r| == |bs| && forall i :: 0 <= i < |bs| ==> r[i] == Buf(bs[i])
  {
    seq(|bs|, i requires 0 <= i < |bs| => Buf(bs[i]))
  }
}
