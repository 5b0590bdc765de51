/**
  The record grammar of the wire format, and the proof that the generated skip function, which
  only counts how many groups are open, accepts exactly the records of that grammar.
*/
module Groups {
  import opened Wire
  import opened Decoding

  /** One record.  The tag's field number is not looked at: a group may be closed under another
      number than the one that opened it, and field number 0 is allowed inside a group. */
  datatype Tree =
    | Number(tag: bytes, body: bytes)
    | Fixed64(tag: bytes, body: bytes)
    | Delimited(tag: bytes, len: bytes, body: bytes)
    | Fixed32(tag: bytes, body: bytes)
    | Group(open: bytes, children: seq<Tree>, close: bytes)

  predicate IsTag(b: bytes, wireType: nat) {
    var t := ReadTag(b);
    t.Ok? && t.value.n == |b| && t.value.wireType == wireType
  }

  predicate IsVarint(b: bytes) {
    var x := ReadVarint(b);
    x.Ok? && x.value.n == |b|
  }

  predicate IsLength(b: bytes, n: nat) {
    ReadLength(b) == Ok(Num(n, |b|))
  }

  predicate WellFormed(t: Tree) {
    match t
    case Number(tag, body) => IsTag(tag, 0) && IsVarint(body)
    case Fixed64(tag, body) => IsTag(tag, 1) && |body| == 8
    case Delimited(tag, len, body) => IsTag(tag, 2) && IsLength(len, |body|)
    case Fixed32(tag, body) => IsTag(tag, 5) && |body| == 4
    case Group(open, children, close) =>
      IsTag(open, 3) && (forall c <- children :: WellFormed(c)) && IsTag(close, 4)
  }

  function Flat(t: Tree): bytes
    decreases t, 0
  {
    match t
    case Number(tag, body) => tag + body
    case Fixed64(tag, body) => tag + body
    case Delimited(tag, len, body) => tag + len + body
    case Fixed32(tag, body) => tag + body
    case Group(open, children, close) => open + FlatAll(children) + close
  }

  function FlatAll(ts: seq<Tree>): bytes
    decreases ts, 1
  {
    if ts == [] then [] else Flat(ts[0]) + FlatAll(ts[1..])
  }

  ghost predicate IsRecord(b: bytes) {
    exists t: Tree :: WellFormed(t) && Flat(t) == b
  }

  // ---------------------------------------------------------------------------------------
  // Every record is skipped whole
  // ---------------------------------------------------------------------------------------

  lemma TagInFront(tag: bytes, rest: bytes, wireType: nat)
    requires IsTag(tag, wireType)
    ensures ReadTag(tag + rest) == ReadTag(tag) && tag != [] && (tag + rest)[|tag|..] == rest
  {
    ReadVarintStable(tag, rest);
  }

  /** What the skip loop answers after `n` bytes have brought it to `depth`, if it would answer
      `rest` for the bytes behind them. */
  function Then(n: nat, depth: nat, rest: Result<nat>): Result<nat> {
    if depth == 0 then Ok(n) else Further(n, rest)
  }

  lemma ThenChain(i: nat, j: nat, k: nat, depth: nat, rest: Result<nat>)
    ensures Further(i, Further(j, Then(k, depth, rest))) == Then(i + j + k, depth, rest)
  {
  }

  lemma SkipLeaf(t: Tree, rest: bytes, depth: nat)
    requires WellFormed(t) && !t.Group?
    ensures SkipOne(Flat(t) + rest, depth) == Ok(Stride(|Flat(t)|, depth))
  {
    hide ReadVarint;
    match t
    case Number(tag, body) =>
      assert Flat(t) + rest == tag + (body + rest);
      TagInFront(tag, body + rest, 0);
      ReadVarintStable(body, rest);
    case Fixed64(tag, body) =>
      assert Flat(t) + rest == tag + (body + rest);
      TagInFront(tag, body + rest, 1);
    case Delimited(tag, len, body) =>
      assert Flat(t) + rest == tag + (len + (body + rest));
      TagInFront(tag, len + (body + rest), 2);
      ReadLengthStable(len, body + rest);
    case Fixed32(tag, body) =>
      assert Flat(t) + rest == tag + (body + rest);
      TagInFront(tag, body + rest, 5);
  }

  lemma SkipStride(b: bytes, depth: nat, n: nat, d: nat)
    requires b != [] && SkipOne(b, depth) == Ok(Stride(n, d)) && n <= |b|
    ensures Skip(b, depth) == Then(n, d, Skip(b[n..], d))
  {
  }

  lemma SkipOpen(open: bytes, x: bytes, depth: nat)
    requires IsTag(open, 3)
    ensures open != [] && Skip(open + x, depth) == Further(|open|, Skip(x, depth + 1))
  {
    TagInFront(open, x, 3);
    SkipStride(open + x, depth, |open|, depth + 1);
  }

  lemma SkipClose(close: bytes, rest: bytes, depth: nat)
    requires IsTag(close, 4)
    ensures Skip(close + rest, depth + 1) == Then(|close|, depth, Skip(rest, depth))
  {
    TagInFront(close, rest, 4);
    SkipStride(close + rest, depth + 1, |close|, depth);
  }

  lemma Reassociate(a: bytes, b: bytes, c: bytes, d: bytes)
    ensures a + b + c + d == a + (b + (c + d))
  {
  }

  lemma {:induction false} SkipInside(children: seq<Tree>, close: bytes, rest: bytes, depth: nat)
    requires IsTag(close, 4) && forall c <- children :: WellFormed(c)
    ensures var inner := FlatAll(children);
            Skip(inner + (close + rest), depth + 1) == Further(|inner|, Then(|close|, depth, Skip(rest, depth)))
    decreases children, 2
  {
    hide Skip;
    SkipTrees(children, close + rest, depth + 1);
    SkipClose(close, rest, depth);
  }

  lemma {:induction false} SkipGroup(open: bytes, children: seq<Tree>, close: bytes, rest: bytes, depth: nat)
    requires IsTag(open, 3) && IsTag(close, 4) && forall c <- children :: WellFormed(c)
    ensures open != []
    ensures var inner := FlatAll(children);
            Skip(open + inner + close + rest, depth) == Then(|open| + |inner| + |close|, depth, Skip(rest, depth))
    decreases children, 3
  {
    hide Skip;
    var inner := FlatAll(children);
    SkipInside(children, close, rest, depth);
    SkipOpen(open, inner + (close + rest), depth);
    ThenChain(|open|, |inner|, |close|, depth, Skip(rest, depth));
    Reassociate(open, inner, close, rest);
  }

  lemma {:induction false} SkipTree(t: Tree, rest: bytes, depth: nat)
    requires WellFormed(t)
    ensures Flat(t) != [] && Skip(Flat(t) + rest, depth) == Then(|Flat(t)|, depth, Skip(rest, depth))
    decreases t, 0
  {
    if t.Group? {
      SkipGroup(t.open, t.children, t.close, rest, depth);
    } else {
      SkipLeaf(t, rest, depth);
      assert (Flat(t) + rest)[|Flat(t)|..] == rest;
      SkipStride(Flat(t) + rest, depth, |Flat(t)|, depth);
    }
  }

  lemma SkipTwo(head: bytes, tail: bytes, rest: bytes, depth: nat)
    requires depth > 0 && Skip(head + (tail + rest), depth) == Further(|head|, Skip(tail + rest, depth))
    requires Skip(tail + rest, depth) == Further(|tail|, Skip(rest, depth))
    ensures Skip(head + tail + rest, depth) == Further(|head + tail|, Skip(rest, depth))
  {
    hide Skip;
    assert head + tail + rest == head + (tail + rest);
    ThenChain(|head|, |tail|, 0, 1, Skip(rest, depth));
  }

  lemma {:induction false} SkipTrees(ts: seq<Tree>, rest: bytes, depth: nat)
    requires depth > 0 && forall t <- ts :: WellFormed(t)
    ensures Skip(FlatAll(ts) + rest, depth) == Further(|FlatAll(ts)|, Skip(rest, depth))
    decreases ts, 1
  {
    if ts == [] {
      assert FlatAll(ts) + rest == rest;
    } else {
      SkipTree(ts[0], FlatAll(ts[1..]) + rest, depth);
      SkipTrees(ts[1..], rest, depth);
      SkipTwo(Flat(ts[0]), FlatAll(ts[1..]), rest, depth);
    }
  }

  // ---------------------------------------------------------------------------------------
  // Everything that is skipped is a record
  // ---------------------------------------------------------------------------------------

  /** The contents and the end tags of the groups that are still open, innermost first. */
  function Closing(inner: seq<seq<Tree>>, ends: seq<bytes>): bytes
    requires |inner| == |ends|
  {
    if inner == [] then [] else FlatAll(inner[0]) + ends[0] + Closing(inner[1..], ends[1..])
  }

  ghost predicate AllWellFormed(inner: seq<seq<Tree>>, ends: seq<bytes>) {
    && (forall ts <- inner, t <- ts :: WellFormed(t))
    && (forall e <- ends :: IsTag(e, 4))
  }

  lemma TagAtFront(b: bytes)
    requires ReadTag(b).Ok?
    ensures var t := ReadTag(b).value; IsTag(b[..t.n], t.wireType) && b == b[..t.n] + b[t.n..]
  {
    VarintPrefix(b);
  }

  lemma VarintPrefix(b: bytes)
    requires ReadVarint(b).Ok?
    ensures ReadVarint(b[..ReadVarint(b).value.n]) == ReadVarint(b)
  {
    GroupsPrefix(b, 10);
  }

  lemma {:induction false} GroupsPrefix(b: bytes, budget: nat)
    requires ReadGroups(b, budget).Ok?
    ensures ReadGroups(b[..ReadGroups(b, budget).value.n], budget) == ReadGroups(b, budget)
  {
    if b[0] >= 128 {
      GroupsPrefix(b[1..], budget - 1);
      var n := ReadGroups(b, budget).value.n;
      assert b[..n][1..] == b[1..][..n - 1];
    }
  }

  /** A stride that stays inside the slice and at its depth is over a record. */
  lemma LeafFromStride(b: bytes, depth: nat) returns (t: Tree)
    requires SkipOne(b, depth).Ok? && SkipOne(b, depth).value.depth == depth
    requires SkipOne(b, depth).value.n <= |b|
    ensures WellFormed(t) && Flat(t) == b[..SkipOne(b, depth).value.n]
  {
    hide ReadVarint;
    TagAtFront(b);
    var k := ReadTag(b).value;
    var tag, rest := b[..k.n], b[k.n..];
    var n := SkipOne(b, depth).value.n;
    if k.wireType == 0 {
      VarintPrefix(rest);
      t := Number(tag, rest[..n - k.n]);
    } else if k.wireType == 1 {
      t := Fixed64(tag, rest[..8]);
    } else if k.wireType == 2 {
      var len := ReadLength(rest).value;
      VarintPrefix(rest);
      t := Delimited(tag, rest[..len.n], rest[len.n..len.n + len.v]);
    } else {
      t := Fixed32(tag, rest[..4]);
    }
  }

  /** The three ways in which a stride can go on. */
  lemma StrideCases(b: bytes, depth: nat)
    requires SkipOne(b, depth).Ok?
    ensures var s := SkipOne(b, depth).value;
            || s.depth == depth
            || (s.depth == depth + 1 && s.n <= |b| && IsTag(b[..s.n], 3))
            || (s.depth + 1 == depth && s.n <= |b| && IsTag(b[..s.n], 4))
  {
    TagAtFront(b);
  }

  lemma SkipSplit(b: bytes, depth: nat)
    requires depth > 0 && Skip(b, depth).Ok?
    ensures SkipOne(b, depth).Ok?
    ensures var s := SkipOne(b, depth).value;
            if s.depth == 0 then Skip(b, depth).value == s.n
            else s.n <= |b| && Skip(b[s.n..], s.depth).Ok? && Skip(b, depth).value == s.n + Skip(b[s.n..], s.depth).value
  {
  }

  lemma ClosingOfLast(close: bytes)
    requires IsTag(close, 4)
    ensures AllWellFormed([[]], [close]) && Closing([[]], [close]) == close
  {
    var none: seq<seq<Tree>> := [[]];
    assert none[1..] == [] && [close][1..] == [];
    assert FlatAll([]) == [];
  }

  lemma {:induction false} ClosingFromSkip(b: bytes, depth: nat, m: nat)
    returns (inner: seq<seq<Tree>>, ends: seq<bytes>)
    requires depth > 0 && Skip(b, depth) == Ok(m)
    ensures m <= |b|
    ensures |inner| == |ends| == depth && AllWellFormed(inner, ends)
    ensures Closing(inner, ends) == b[..m]
    decreases |b|
  {
    hide Skip, SkipOne, IsTag, AllWellFormed, Closing;
    SkipSplit(b, depth);
    StrideCases(b, depth);
    var s := SkipOne(b, depth).value;
    var n, d := s.n, s.depth;
    if d == 0 {
      inner, ends := [[]], [b[..n]];
      ClosingOfLast(b[..n]);
    } else {
      inner, ends := ClosingFromSkip(b[n..], d, m - n);
      assert b[..m] == b[..n] + b[n..][..m - n];
      inner, ends := ClosingStep(b, depth, inner, ends);
    }
  }

  lemma ClosingStep(b: bytes, depth: nat, inner': seq<seq<Tree>>, ends': seq<bytes>)
    returns (inner: seq<seq<Tree>>, ends: seq<bytes>)
    requires depth > 0 && SkipOne(b, depth).Ok?
    requires SkipOne(b, depth).value.n <= |b|
    requires |inner'| == |ends'| == SkipOne(b, depth).value.depth > 0 && AllWellFormed(inner', ends')
    ensures |inner| == |ends| == depth && AllWellFormed(inner, ends)
    ensures Closing(inner, ends) == b[..SkipOne(b, depth).value.n] + Closing(inner', ends')
  {
    StrideCases(b, depth);
    var s := SkipOne(b, depth).value;
    if s.depth == depth {
      var t := LeafFromStride(b, depth);
      inner, ends := PushTree(t, inner', ends');
    } else if s.depth > depth {
      inner, ends := FoldGroup(b[..s.n], inner', ends');
    } else {
      inner, ends := [[]] + inner', [b[..s.n]] + ends';
      assert inner[1..] == inner' && ends[1..] == ends';
    }
  }

  lemma PushTree(t: Tree, inner': seq<seq<Tree>>, ends: seq<bytes>)
    returns (inner: seq<seq<Tree>>, ends': seq<bytes>)
    requires |inner'| == |ends| > 0 && AllWellFormed(inner', ends) && WellFormed(t)
    ensures |inner| == |inner'| && ends' == ends && AllWellFormed(inner, ends)
    ensures Closing(inner, ends) == Flat(t) + Closing(inner', ends)
  {
    var ts := [t] + inner'[0];
    inner, ends' := [ts] + inner'[1..], ends;
    assert ts[1..] == inner'[0] && inner[1..] == inner'[1..];
    assert forall c <- ts :: WellFormed(c);
    assert forall i :: 0 < i < |inner| ==> inner[i] == inner'[i];
  }

  lemma FoldGroup(open: bytes, inner': seq<seq<Tree>>, ends': seq<bytes>)
    returns (inner: seq<seq<Tree>>, ends: seq<bytes>)
    requires |inner'| == |ends'| > 1 && AllWellFormed(inner', ends') && IsTag(open, 3)
    ensures |inner| == |ends| == |inner'| - 1 && AllWellFormed(inner, ends)
    ensures Closing(inner, ends) == open + Closing(inner', ends')
  {
    var t := Group(open, inner'[0], ends'[0]);
    assert forall c <- inner'[0] :: WellFormed(c);
    inner, ends := PushTree(t, inner'[1..], ends'[1..]);
    assert Closing(inner, ends) == open + (FlatAll(inner'[0]) + ends'[0] + Closing(inner'[1..], ends'[1..]));
  }

  lemma GroupFromSkip(b: bytes, n: nat, m: nat) returns (t: Tree)
    requires n <= m <= |b| && IsTag(b[..n], 3) && Skip(b[n..], 1) == Ok(m - n)
    ensures WellFormed(t) && Flat(t) == b[..m]
  {
    hide Skip, ReadTag;
    var inner, ends := ClosingFromSkip(b[n..], 1, m - n);
    t := Group(b[..n], inner[0], ends[0]);
    assert Closing(inner[1..], ends[1..]) == [];
    assert b[..m] == b[..n] + b[n..][..m - n];
  }

  lemma TreeFromSkip(b: bytes, m: nat) returns (t: Tree)
    requires Skip(b, 0) == Ok(m) && m <= |b|
    ensures WellFormed(t) && Flat(t) == b[..m]
  {
    StrideCases(b, 0);
    var s := SkipOne(b, 0).value;
    if s.depth == 0 {
      t := LeafFromStride(b, 0);
    } else {
      t := GroupFromSkip(b, s.n, m);
    }
  }

  // ---------------------------------------------------------------------------------------
  // Main results
  // ---------------------------------------------------------------------------------------

  lemma SkipOfRecord(u: bytes, rest: bytes)
    requires IsRecord(u)
    ensures u != [] && Skip(u + rest, 0) == Ok(|u|)
  {
    var t: Tree :| WellFormed(t) && Flat(t) == u;
    SkipTree(t, rest, 0);
  }

  /** The skip function stops at `n`, inside the slice, exactly when the first `n` bytes are one
      record of the grammar. */
  lemma SkipIffRecord(b: bytes, n: nat)
    requires n <= |b|
    ensures Skip(b, 0) == Ok(n) <==> IsRecord(b[..n])
  {
    hide Skip;
    if Skip(b, 0) == Ok(n) {
      var t := TreeFromSkip(b, n);
    }
    if IsRecord(b[..n]) {
      SkipOfRecord(b[..n], b[n..]);
      assert b == b[..n] + b[n..];
    }
  }

  /** No record is a proper prefix of another, so a slice starts with at most one. */
  lemma RecordIsUnique(b: bytes, n: nat, k: nat)
    requires n <= |b| && k <= |b| && IsRecord(b[..n]) && IsRecord(b[..k])
    ensures n == k
  {
    SkipIffRecord(b, n);
    SkipIffRecord(b, k);
  }

  /** A record of a field the message does not know, spliced in at a field boundary, leaves the
      decoded message as it was, groups nested to any depth included. */
  lemma UnknownRecordIsTransparent<M>(c: Codec<M>, m: M, a: bytes, u: bytes, b: bytes)
    requires c.Valid() && Decode(c, m, a).Ok?
    requires IsRecord(u)
    requires ReadTag(u).Ok? && ReadTag(u).value.field > 0 && c.wants(ReadTag(u).value.field) == None
    ensures Decode(c, m, a + u + b) == Decode(c, m, a + b)
  {
    SkipOfRecord(u, []);
    assert u + [] == u;
    NextStable(c.wants, u, b);
    assert ReadTag(u).value.wireType != 4;
    assert (u + b)[|u|..] == b;
    assert a + u + b == a + (u + b);
    DecodeConcat(c, m, a, u + b);
    DecodeConcat(c, m, a, b);
  }
}
