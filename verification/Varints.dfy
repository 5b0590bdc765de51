/** Properties of the varint and fixed64 codecs on every value and every input. */
module Varints {
  import opened Wire

  // ---------------------------------------------------------------------------------------
  // The reserved size is the written size
  // ---------------------------------------------------------------------------------------

  lemma BitLenOrOne(x: nat)
    ensures BitLen(OrOne(x)) == if x == 0 then 1 else BitLen(x)
  {
    if x % 2 == 0 {
      assert (x + 1) / 2 == x / 2;
    }
  }

  lemma BitLenQuarter(x: nat)
    requires x >= 8
    ensures BitLen(x) == 3 + BitLen(x / 8)
  {
    assert BitLen(x / 2) == 1 + BitLen(x / 4);
    assert BitLen(x / 4) == 1 + BitLen(x / 8);
  }

  lemma BitLenSplit(x: nat)
    requires x >= 128
    ensures BitLen(x) == 7 + BitLen(x / 128)
  {
    BitLenQuarter(x);
    BitLenQuarter(x / 8);
    assert x / 8 / 8 == x / 64 && x / 64 / 2 == x / 128;
  }

  function Pow2(n: nat): nat {
    if n == 0 then 1 else 2 * Pow2(n - 1)
  }

  lemma {:induction false} BitLenBelow(x: nat, k: nat)
    requires x < Pow2(k)
    ensures BitLen(x) <= k
  {
    if x > 0 {
      BitLenBelow(x / 2, k - 1);
    }
  }

  lemma BitLenSmall(x: nat)
    requires 0 < x < 128
    ensures 1 <= BitLen(x) <= 7
  {
    assert Pow2(4) == 16;
    assert Pow2(7) == 128;
    BitLenBelow(x, 7);
  }

  /** `(Len64(v|1)+6)/7` is the number of bytes the encoding loop writes. */
  lemma {:induction false} SovIsVarintLength(v: nat)
    ensures Sov(v) == |Varint(v)|
  {
    BitLenOrOne(v);
    if v < 128 {
      if v > 0 { BitLenSmall(v); }
    } else {
      BitLenSplit(v);
      BitLenOrOne(v / 128);
      SovIsVarintLength(v / 128);
    }
  }

  function Pow128(n: nat): nat {
    if n == 0 then 1 else 128 * Pow128(n - 1)
  }

  lemma {:induction false} VarintLengthBelow(v: nat, k: nat)
    requires k > 0 && v < Pow128(k)
    ensures |Varint(v)| <= k
  {
    if v >= 128 {
      VarintLengthBelow(v / 128, k - 1);
    }
  }

  lemma {:induction false} VarintLengthAbove(v: nat, k: nat)
    requires v >= Pow128(k)
    ensures |Varint(v)| > k
  {
    if k > 0 {
      VarintLengthAbove(v / 128, k - 1);
    }
  }

  lemma VarintLength64(v: nat)
    requires v < TWO_64
    ensures 1 <= |Varint(v)| <= 10
  {
    assert Pow128(2) == 0x4000;
    assert Pow128(4) == 0x1000_0000;
    assert Pow128(6) == 0x400_0000_0000;
    assert Pow128(8) == 0x100_0000_0000_0000;
    assert Pow128(10) == 0x40_0000_0000_0000_0000;
    VarintLengthBelow(v, 10);
  }

  lemma {:induction false} VarintLengthMonotone(v: nat, w: nat)
    requires v <= w
    ensures |Varint(v)| <= |Varint(w)|
  {
    if v >= 128 {
      VarintLengthMonotone(v / 128, w / 128);
    }
  }

  /** Splitting a payload in two never saves more than one length prefix. */
  lemma {:induction false} VarintLengthSum(v: nat, w: nat)
    ensures |Varint(v + w)| <= |Varint(v)| + |Varint(w)|
  {
    if v + w >= 128 {
      if v >= w {
        VarintLengthHalf(v, w);
      } else {
        VarintLengthHalf(w, v);
      }
    }
  }

  /** Doubling a number costs at most one more byte. */
  lemma {:induction false} VarintLengthHalf(v: nat, w: nat)
    requires w <= v
    ensures |Varint(v + w)| <= |Varint(v)| + 1
  {
    if v + w >= 128 {
      VarintLengthMonotone(v + w, 128 * v + 127);
      assert (128 * v + 127) / 128 == v;
    }
  }

  // ---------------------------------------------------------------------------------------
  // Round trip, minimality, and exactly which inputs are rejected
  // ---------------------------------------------------------------------------------------

  lemma {:induction false} ReadGroupsOfVarint(v: nat, rest: bytes, budget: nat)
    requires |Varint(v)| <= budget
    ensures ReadGroups(Varint(v) + rest, budget) == Ok(Num(v, |Varint(v)|))
  {
    if v >= 128 {
      ReadGroupsOfVarint(v / 128, rest, budget - 1);
      assert (Varint(v) + rest)[1..] == Varint(v / 128) + rest;
    }
  }

  /** Every uint64 reads back from its encoding, whatever bytes follow, and the index moves by
      exactly the reserved size. */
  lemma VarintRoundTrip(v: uint64, rest: bytes)
    ensures ReadVarint(Varint(v) + rest) == Ok(Num(v, Sov(v)))
    ensures 1 <= Sov(v) <= 10
  {
    VarintLength64(v);
    ReadGroupsOfVarint(v, rest, 10);
    SovIsVarintLength(v);
  }

  lemma {:induction false} GroupsNotShorter(b: bytes, budget: nat)
    requires ReadGroups(b, budget).Ok?
    ensures |Varint(ReadGroups(b, budget).value.v)| <= ReadGroups(b, budget).value.n
  {
    if b[0] >= 128 {
      GroupsNotShorter(b[1..], budget - 1);
      var rest := ReadGroups(b[1..], budget - 1).value;
      assert (b[0] - 128 + 128 * rest.v) / 128 == rest.v;
    }
  }

  /** No input, however it spells the number, is shorter than the reserved size of its value. */
  lemma SovIsMinimal(b: bytes)
    requires ReadVarint(b).Ok?
    ensures Sov(ReadVarint(b).value.v) <= ReadVarint(b).value.n
  {
    var raw := ReadGroups(b, 10).value;
    GroupsNotShorter(b, 10);
    VarintLengthMonotone(raw.v % TWO_64, raw.v);
    SovIsVarintLength(raw.v % TWO_64);
  }

  ghost predicate AllContinue(b: bytes, k: nat)
    requires k <= |b|
  {
    forall i :: 0 <= i < k ==> b[i] >= 128
  }

  lemma {:induction false} GroupsRejected(b: bytes, budget: nat)
    ensures ReadGroups(b, budget) == Err(Overflow) <==> |b| >= budget && AllContinue(b, budget)
    ensures ReadGroups(b, budget) == Err(Truncated) <==> |b| < budget && AllContinue(b, |b|)
    ensures ReadGroups(b, budget).Err? ==> ReadGroups(b, budget).error in {Overflow, Truncated}
  {
    if budget > 0 && b != [] {
      var t := b[1..];
      GroupsRejected(t, budget - 1);
      assert |b| >= budget ==> (AllContinue(b, budget) <==> b[0] >= 128 && AllContinue(t, budget - 1)) by {
        if |b| >= budget && b[0] >= 128 && AllContinue(t, budget - 1) {
          assert forall i :: 1 <= i < budget ==> b[i] == t[i - 1];
        }
        if |b| >= budget && AllContinue(b, budget) {
          assert forall i :: 0 <= i < budget - 1 ==> t[i] == b[i + 1];
        }
      }
      assert AllContinue(b, |b|) <==> b[0] >= 128 && AllContinue(t, |t|) by {
        if b[0] >= 128 && AllContinue(t, |t|) {
          assert forall i :: 1 <= i < |b| ==> b[i] == t[i - 1];
        }
        if AllContinue(b, |b|) {
          assert forall i :: 0 <= i < |t| ==> t[i] == b[i + 1];
        }
      }
    }
  }

  /** A varint is refused exactly when its first ten bytes all carry the continuation bit, or
      when the slice ends while every byte so far carries it. */
  lemma VarintRejected(b: bytes)
    ensures ReadVarint(b) == Err(Overflow) <==> |b| >= 10 && AllContinue(b, 10)
    ensures ReadVarint(b) == Err(Truncated) <==> |b| < 10 && AllContinue(b, |b|)
    ensures ReadVarint(b).Err? ==> ReadVarint(b).error in {Overflow, Truncated}
  {
    GroupsRejected(b, 10);
  }

  // ---------------------------------------------------------------------------------------
  // fixed64
  // ---------------------------------------------------------------------------------------

  lemma {:induction false} LittleRoundTrip(v: nat, n: nat)
    requires v < Pow256(n)
    ensures FromLittle(Little(v, n)) == v
  {
    if n > 0 {
      LittleRoundTrip(v / 256, n - 1);
    }
  }

  lemma Fixed64RoundTrip(v: uint64)
    ensures FromLittle(Little(v, 8)) == v
  {
    assert Pow256(2) == 0x1_0000;
    assert Pow256(4) == 0x1_0000_0000;
    assert Pow256(6) == 0x1_0000_0000_0000;
    assert Pow256(8) == TWO_64;
    LittleRoundTrip(v, 8);
  }

  /** Any eight bytes are the little-endian bytes of what is read from them. */
  lemma {:induction false} LittleOfBytes(b: bytes)
    ensures Little(FromLittle(b), |b|) == b
  {
    if b != [] {
      LittleOfBytes(b[1..]);
      assert FromLittle(b) % 256 == b[0] && FromLittle(b) / 256 == FromLittle(b[1..]);
    }
  }

  // ---------------------------------------------------------------------------------------
  // What a varint means, in any spelling
  // ---------------------------------------------------------------------------------------

  /** The sum of the bytes' low seven bits, each in its place. */
  function Groups(s: bytes): nat {
    if s == [] then 0 else Groups(s[..|s| - 1]) + s[|s| - 1] % 128 * Pow128(|s| - 1)
  }

  lemma {:induction false} GroupsFront(s: bytes)
    requires s != []
    ensures Groups(s) == s[0] % 128 + 128 * Groups(s[1..])
    decreases |s|
  {
    var k := |s| - 1;
    if k == 0 {
      assert s[..0] == [] && s[1..] == [] && Pow128(0) == 1;
    } else {
      var init, tail := s[..k], s[1..];
      GroupsFront(init);
      assert tail[..k - 1] == init[1..] && tail[k - 1] == s[k];
      assert Pow128(k) == 128 * Pow128(k - 1);
      Scale(s[k] % 128, Pow128(k - 1));
    }
  }

  lemma Scale(c: nat, p: nat)
    ensures c * (128 * p) == 128 * (c * p)
  {
  }

  /** The first `n` bytes of `b` are the spelling of one varint. */
  ghost predicate Spelled(b: bytes, n: nat) {
    0 < n <= |b| && AllContinue(b, n - 1) && b[n - 1] < 128
  }

  lemma {:induction false} GroupsMeaning(b: bytes, budget: nat, n: nat)
    requires 0 < n <= budget && Spelled(b, n)
    ensures ReadGroups(b, budget) == Ok(Num(Groups(b[..n]), n))
    decreases |b|
  {
    GroupsFront(b[..n]);
    var t := b[1..];
    if n > 1 {
      assert b[0] >= 128;
      assert AllContinue(t, n - 2) by {
        forall i | 0 <= i < n - 2 ensures t[i] >= 128 {
          assert b[i + 1] >= 128;
        }
      }
      GroupsMeaning(t, budget - 1, n - 1);
      assert b[..n][1..] == t[..n - 1];
    } else {
      assert b[..1][1..] == [];
    }
  }

  /** A varint is read exactly when one of the first ten bytes is the first without the continuation bit;
      it means the sum of the groups up to there, modulo 2^64, in any spelling. */
  lemma VarintMeaning(b: bytes, n: nat)
    ensures (ReadVarint(b).Ok? && ReadVarint(b).value.n == n) <==> n <= 10 && Spelled(b, n)
    ensures ReadVarint(b).Ok? ==> ReadVarint(b).value.v == Groups(b[..ReadVarint(b).value.n]) % TWO_64
  {
    hide Groups, AllContinue;
    if n <= 10 && Spelled(b, n) {
      GroupsMeaning(b, 10, n);
    }
    if ReadVarint(b).Ok? {
      GroupsSpelled(b, 10);
      GroupsMeaning(b, 10, ReadVarint(b).value.n);
    }
  }

  lemma {:induction false} GroupsSpelled(b: bytes, budget: nat)
    requires ReadGroups(b, budget).Ok?
    ensures Spelled(b, ReadGroups(b, budget).value.n)
    decreases |b|
  {
    if b[0] >= 128 {
      var t := b[1..];
      GroupsSpelled(t, budget - 1);
      var n := ReadGroups(t, budget - 1).value.n;
      forall i | 0 <= i < n ensures b[i] >= 128 {
        if i > 0 {
          assert t[i - 1] >= 128;
        }
      }
      assert b[n] == t[n - 1];
    }
  }
}
