/**
  What the skip function's depth counter lets through that a reader with a stack of open group
  numbers would refuse, and the proof that it is exactly the records whose numbers do not match.
*/
module Conformance {
  import opened Wire
  import opened Decoding
  import opened Groups

  // ---------------------------------------------------------------------------------------
  // A record is read in one way only
  // ---------------------------------------------------------------------------------------

  function FirstTag(t: Tree): bytes {
    match t
    case Number(tag, _) => tag
    case Fixed64(tag, _) => tag
    case Delimited(tag, _, _) => tag
    case Fixed32(tag, _) => tag
    case Group(open, _, _) => open
  }

  function BehindTag(t: Tree): bytes {
    match t
    case Number(_, body) => body
    case Fixed64(_, body) => body
    case Delimited(_, len, body) => len + body
    case Fixed32(_, body) => body
    case Group(_, children, close) => FlatAll(children) + close
  }

  function WireTypeOf(t: Tree): nat {
    match t
    case Number(_, _) => 0
    case Fixed64(_, _) => 1
    case Delimited(_, _, _) => 2
    case Group(_, _, _) => 3
    case Fixed32(_, _) => 5
  }

  lemma FlatSplit(t: Tree)
    ensures Flat(t) == FirstTag(t) + BehindTag(t)
  {
    hide FlatAll;
  }

  lemma TagFirst(t: Tree, rest: bytes)
    requires WellFormed(t)
    ensures Flat(t) + rest == FirstTag(t) + (BehindTag(t) + rest)
    ensures ReadTag(Flat(t) + rest) == ReadTag(FirstTag(t))
    ensures IsTag(FirstTag(t), WireTypeOf(t))
  {
    hide ReadTag, Flat, FlatAll, BehindTag;
    FlatSplit(t);
    assert FirstTag(t) + BehindTag(t) + rest == FirstTag(t) + (BehindTag(t) + rest);
    TagInFront(FirstTag(t), BehindTag(t) + rest, WireTypeOf(t));
  }

  lemma SameSplit(a: bytes, b: bytes, c: bytes, d: bytes)
    requires a + b == c + d && |a| == |c|
    ensures a == c && b == d
  {
    assert a == (a + b)[..|a|] && b == (a + b)[|a|..];
    assert c == (c + d)[..|c|] && d == (c + d)[|c|..];
  }

  lemma SameTag(t: Tree, u: Tree)
    requires WellFormed(t) && WellFormed(u) && Flat(t) == Flat(u)
    ensures FirstTag(t) == FirstTag(u) && BehindTag(t) == BehindTag(u) && WireTypeOf(t) == WireTypeOf(u)
  {
    hide ReadTag, WellFormed, Flat, FirstTag, BehindTag, WireTypeOf;
    TagFirst(t, []);
    TagFirst(u, []);
    assert Flat(t) + [] == Flat(t) && Flat(u) + [] == Flat(u);
    assert BehindTag(t) + [] == BehindTag(t) && BehindTag(u) + [] == BehindTag(u);
    SameSplit(FirstTag(t), BehindTag(t), FirstTag(u), BehindTag(u));
  }

  lemma SameLength(len: bytes, body: bytes, len': bytes, body': bytes)
    requires IsLength(len, |body|) && IsLength(len', |body'|) && len + body == len' + body'
    ensures len == len' && body == body'
  {
    hide ReadLength;
    ReadLengthStable(len, body);
    ReadLengthStable(len', body');
    SameSplit(len, body, len', body');
  }

  /** Two records that start the same slice are the same record. */
  lemma {:induction false} TreePrefix(t: Tree, u: Tree, r: bytes, s: bytes)
    requires WellFormed(t) && WellFormed(u) && Flat(t) + r == Flat(u) + s
    ensures t == u && r == s
    decreases t, 2
  {
    hide Skip;
    SkipTree(t, r, 0);
    SkipTree(u, s, 0);
    SameSplit(Flat(t), r, Flat(u), s);
    SameFlat(t, u);
  }

  lemma {:induction false} SameFlat(t: Tree, u: Tree)
    requires WellFormed(t) && WellFormed(u) && Flat(t) == Flat(u)
    ensures t == u
    decreases t, 1
  {
    hide Flat, FlatAll, ReadTag, ReadLength, ReadVarint;
    SameTag(t, u);
    match t
    case Delimited(_, len, body) => SameLength(len, body, u.len, u.body);
    case Group(_, children, close) => SameChildren(children, close, u.children, u.close);
    case _ =>
  }

  lemma {:induction false} SameChildren(ts: seq<Tree>, close: bytes, us: seq<Tree>, close': bytes)
    requires (forall t <- ts :: WellFormed(t)) && (forall u <- us :: WellFormed(u))
    requires IsTag(close, 4) && IsTag(close', 4) && FlatAll(ts) + close == FlatAll(us) + close'
    ensures ts == us && close == close'
    decreases ts, 3
  {
    hide Flat, ReadTag;
    if ts == [] && us == [] {
      assert FlatAll(ts) + close == close && FlatAll(us) + close' == close';
    } else if ts == [] {
      ChildBeforeEnd(us, close', close);
    } else if us == [] {
      ChildBeforeEnd(ts, close, close');
    } else {
      ChildFirst(ts, close);
      ChildFirst(us, close');
      TreePrefix(ts[0], us[0], FlatAll(ts[1..]) + close, FlatAll(us[1..]) + close');
      SameChildren(ts[1..], close, us[1..], close');
      assert ts == [ts[0]] + ts[1..] && us == [us[0]] + us[1..];
    }
  }

  lemma ChildFirst(ts: seq<Tree>, close: bytes)
    requires ts != []
    ensures FlatAll(ts) + close == Flat(ts[0]) + (FlatAll(ts[1..]) + close)
  {
    hide Flat;
  }

  /** A child starts with another wire type than the end of its group. */
  lemma ChildBeforeEnd(ts: seq<Tree>, close: bytes, end: bytes)
    requires ts != [] && WellFormed(ts[0]) && IsTag(end, 4)
    ensures FlatAll(ts) + close != FlatAll([]) + end
  {
    hide Flat, ReadTag;
    ChildFirst(ts, close);
    TagFirst(ts[0], FlatAll(ts[1..]) + close);
    assert FlatAll([]) + end == end;
  }

  /** The grammar is unambiguous: no two records have the same bytes. */
  lemma TreeIsUnique(t: Tree, u: Tree)
    requires WellFormed(t) && WellFormed(u)
    ensures Flat(t) == Flat(u) <==> t == u
  {
    if Flat(t) == Flat(u) {
      SameFlat(t, u);
    }
  }

  // ---------------------------------------------------------------------------------------
  // Groups that are closed under their own number
  // ---------------------------------------------------------------------------------------

  function Field(tag: bytes): int {
    match ReadTag(tag)
    case Err(_) => 0
    case Ok(t) => t.field
  }

  /** Every field number is positive and every group ends under the number it began with, as the
      encoding guide of Protocol Buffers asks in its section "Groups". */
  predicate Matched(t: Tree) {
    && Field(FirstTag(t)) > 0
    && match t
       case Group(open, children, close) => Field(close) == Field(open) && AllMatched(children)
       case _ => true
  }

  predicate AllMatched(ts: seq<Tree>) {
    ts == [] || (Matched(ts[0]) && AllMatched(ts[1..]))
  }

  /** What a tag does to the numbers of the open groups, innermost first. */
  function Nest(open: seq<int>, tag: Tag): Result<seq<int>> {
    if tag.field <= 0 then Err(IllegalTag)
    else if tag.wireType == 3 then Ok([tag.field] + open)
    else if tag.wireType == 4 then
      if open == [] || open[0] != tag.field then Err(EndGroup) else Ok(open[1..])
    else Ok(open)
  }

  /** The skip loop with a stack of the open groups' numbers in place of their count. */
  function StackSkip(b: bytes, open: seq<int>): (r: Result<nat>)
    decreases |b|
  {
    if b == [] then Err(Truncated)
    else match SkipOne(b, |open|)
      case Err(e) => Err(e)
      case Ok(s) =>
        match Nest(open, ReadTag(b).value)
        case Err(e) => Err(e)
        case Ok(open') =>
          if open' == [] then Ok(s.n)
          else if s.n > |b| then Err(Truncated)
          else Further(s.n, StackSkip(b[s.n..], open'))
  }

  function OnTop(n: nat, open: seq<int>, rest: Result<nat>): Result<nat> {
    if open == [] then Ok(n) else Further(n, rest)
  }

  lemma StackStride(b: bytes, open: seq<int>, n: nat, d: nat)
    requires b != [] && SkipOne(b, |open|) == Ok(Stride(n, d)) && n <= |b|
    ensures StackSkip(b, open) ==
            match Nest(open, ReadTag(b).value)
            case Err(e) => Err(e)
            case Ok(open') => OnTop(n, open', StackSkip(b[n..], open'))
  {
    hide SkipOne;
  }

  /** How the stack reader takes a record: whole if it is matched, not at all otherwise. */
  ghost predicate Takes(b: bytes, rest: bytes, open: seq<int>, matched: bool) {
    if matched then StackSkip(b + rest, open) == OnTop(|b|, open, StackSkip(rest, open))
    else StackSkip(b + rest, open).Err?
  }

  lemma StackLeaf(t: Tree, rest: bytes, open: seq<int>)
    requires WellFormed(t) && !t.Group?
    ensures Takes(Flat(t), rest, open, Matched(t))
  {
    hide StackSkip, ReadTag, SkipOne, Skip;
    SkipLeaf(t, rest, |open|);
    SkipTree(t, rest, |open|);
    TagFirst(t, rest);
    assert (Flat(t) + rest)[|Flat(t)|..] == rest;
    StackStride(Flat(t) + rest, open, |Flat(t)|, |open|);
  }

  lemma StackOpen(tag: bytes, x: bytes, open: seq<int>)
    requires IsTag(tag, 3)
    ensures StackSkip(tag + x, open) ==
            if Field(tag) <= 0 then Err(IllegalTag) else Further(|tag|, StackSkip(x, [Field(tag)] + open))
  {
    hide ReadVarint, StackSkip;
    TagInFront(tag, x, 3);
    StackStride(tag + x, open, |tag|, |open| + 1);
  }

  lemma StackClose(tag: bytes, rest: bytes, field: int, open: seq<int>)
    requires IsTag(tag, 4) && field > 0
    ensures if Field(tag) == field
            then StackSkip(tag + rest, [field] + open) == OnTop(|tag|, open, StackSkip(rest, open))
            else StackSkip(tag + rest, [field] + open).Err?
  {
    hide ReadVarint, StackSkip;
    TagInFront(tag, rest, 4);
    assert ([field] + open)[1..] == open;
    StackStride(tag + rest, [field] + open, |tag|, |open|);
  }

  lemma {:induction false} StackTree(t: Tree, rest: bytes, open: seq<int>)
    requires WellFormed(t)
    ensures Takes(Flat(t), rest, open, Matched(t))
    decreases t, 0
  {
    if t.Group? {
      StackGroup(t, rest, open);
    } else {
      StackLeaf(t, rest, open);
    }
  }

  lemma {:induction false} StackGroup(t: Tree, rest: bytes, open: seq<int>)
    requires WellFormed(t) && t.Group?
    ensures Takes(Flat(t), rest, open, Matched(t))
    decreases t.children, 3
  {
    hide StackSkip, ReadTag, FlatAll, AllMatched;
    var inner, field := FlatAll(t.children), Field(t.open);
    Reassociate(t.open, inner, t.close, rest);
    StackOpen(t.open, inner + (t.close + rest), open);
    if field > 0 {
      StackTrees(t.children, t.close + rest, [field] + open);
      StackClose(t.close, rest, field, open);
    }
  }

  lemma {:induction false} StackTrees(ts: seq<Tree>, rest: bytes, open: seq<int>)
    requires open != [] && forall t <- ts :: WellFormed(t)
    ensures Takes(FlatAll(ts), rest, open, AllMatched(ts))
    decreases ts, 1
  {
    hide StackSkip, Flat, Matched;
    if ts == [] {
      assert FlatAll(ts) + rest == rest;
    } else {
      var head, tail := Flat(ts[0]), FlatAll(ts[1..]);
      StackTree(ts[0], tail + rest, open);
      StackTrees(ts[1..], rest, open);
      assert head + tail + rest == head + (tail + rest);
    }
  }

  /** The depth counter and the stack agree on a record exactly when its numbers match; where they do
      not, the counter takes the record and the stack refuses it.  (By `TreeIsUnique` the record is
      the only one with these bytes.) */
  lemma StackAgreesIffMatched(b: bytes, t: Tree)
    requires WellFormed(t) && |Flat(t)| <= |b| && b[..|Flat(t)|] == Flat(t)
    ensures Skip(b, 0) == Ok(|Flat(t)|)
    ensures StackSkip(b, []) == Skip(b, 0) <==> Matched(t)
    ensures StackSkip(b, []).Err? <==> !Matched(t)
  {
    hide Skip, StackSkip, Flat, Matched;
    var rest := b[|Flat(t)|..];
    assert b == Flat(t) + rest;
    SkipTree(t, rest, 0);
    StackTree(t, rest, []);
  }

  /** So the stack reader stops at `n` exactly when the first `n` bytes are a record whose numbers match. */
  lemma StackIffMatchedRecord(b: bytes, n: nat)
    requires n <= |b|
    ensures StackSkip(b, []) == Ok(n) <==> exists t: Tree :: WellFormed(t) && Flat(t) == b[..n] && Matched(t)
  {
    hide Skip, StackSkip, Flat, Matched, WellFormed;
    if StackSkip(b, []) == Ok(n) {
      StackIsStricter(b, [], n);
      var t := TreeFromSkip(b, n);
      StackAgreesIffMatched(b, t);
    }
    if t: Tree :| WellFormed(t) && Flat(t) == b[..n] && Matched(t) {
      StackAgreesIffMatched(b, t);
    }
  }

  lemma NestCounts(b: bytes, open: seq<int>)
    requires SkipOne(b, |open|).Ok? && Nest(open, ReadTag(b).value).Ok?
    ensures |Nest(open, ReadTag(b).value).value| == SkipOne(b, |open|).value.depth
  {
    hide ReadVarint;
  }

  /** What the stack reader takes, the depth counter takes. */
  lemma {:induction false} StackIsStricter(b: bytes, open: seq<int>, n: nat)
    requires StackSkip(b, open) == Ok(n)
    ensures Skip(b, |open|) == Ok(n)
    decreases |b|
  {
    hide ReadVarint, SkipBody;
    var s := SkipOne(b, |open|).value;
    NestCounts(b, open);
    var open' := Nest(open, ReadTag(b).value).value;
    if open' != [] {
      StackIsStricter(b[s.n..], open', n - s.n);
    }
  }

  /** Two inputs the depth counter takes and a stack would refuse: a group opened as 1 and closed as 2,
      and a group with a field number 0 inside. */
  lemma UnmatchedGroupsAreSkipped()
    ensures Skip([0x0b, 0x14], 0) == Ok(2) && StackSkip([0x0b, 0x14], []).Err?
    ensures Skip([0x0b, 0x00, 0x00, 0x0c], 0) == Ok(4) && StackSkip([0x0b, 0x00, 0x00, 0x0c], []).Err?
  {
    hide Skip, StackSkip;
    OneByteTag(0x0b);
    OneByteTag(0x14);
    OneByteTag(0x0c);
    OneByteTag(0x00);
    assert FlatAll([]) == [];
    var t := Group([0x0b], [], [0x14]);
    assert Flat(t) == [0x0b, 0x14];
    StackAgreesIffMatched([0x0b, 0x14], t);
    var zero := Number([0x00], [0x00]);
    var u := Group([0x0b], [zero], [0x0c]);
    assert [zero][1..] == [];
    assert FlatAll([zero]) == [0x00, 0x00];
    assert Flat(u) == [0x0b, 0x00, 0x00, 0x0c];
    assert !Matched(zero) && !AllMatched([zero]);
    StackAgreesIffMatched([0x0b, 0x00, 0x00, 0x0c], u);
  }

  lemma OneByteTag(v: byte)
    requires v < 128
    ensures ReadVarint([v]) == Ok(Num(v, 1)) && ReadTag([v]) == Ok(Tag(v / 8, v % 8, 1))
  {
  }
}
