/** The Internet checksum of section 1 of RFC 1071, as Buffer::checksum computes it. */
module Checksums {
  import opened Words
  import opened Buffers

  const ONES := 0xFFFF

  /** The sum of the words at i, i + 2, ... except the one at `skip`. */
  function WordSum(data: seq<byte>, skip: int, i: nat): nat
    decreases |data| - i
  {
    if i >= |data| then 0
    else (if i == skip then 0 else Word(data, i)) + WordSum(data, skip, i + 2)
  }

  /** End-around carry: the two halves are added until one is left. */
  function Fold(s: nat): (r: nat)
    ensures r <= ONES
  {
    if s < MOD16 then s else Fold(s % MOD16 + s / MOD16)
  }

  function Checksum(data: seq<byte>, skip: nat, pseudo: nat): (c: nat)
    ensures c <= ONES
  {
    ONES - Fold(pseudo + WordSum(data, skip, 0))
  }

  /** The one's-complement sum of all words. */
  function OnesSum(data: seq<byte>, pseudo: nat): nat { Fold(pseudo + WordSum(data, -1, 0)) }

  lemma {:induction false} WordSumBound(data: seq<byte>, skip: int, i: nat)
    ensures 2 * WordSum(data, skip, i) <= if i < |data| then ONES * (|data| - i + 1) else 0
    decreases |data| - i
  {
    if i < |data| {
      WordSumBound(data, skip, i + 2);
    }
  }

  // ------------------------------------------------------------ what Fold is

  /** Fold keeps the value modulo 65535 and maps only 0 to 0. */
  lemma {:induction false} FoldMeaning(s: nat)
    ensures Fold(s) % ONES == s % ONES
    ensures Fold(s) == 0 <==> s == 0
  {
    if s >= MOD16 {
      var q, r := s / MOD16, s % MOD16;
      assert s == ONES * q + (q + r);
      FoldMeaning(r + q);
      ModAdd(r + q, q);
    }
  }

  lemma ModAdd(x: nat, q: nat)
    ensures (ONES * q + x) % ONES == x % ONES
  {
  }

  /** Two sums fold to the same word exactly when they agree modulo 65535 and are both
      zero or both not. */
  lemma FoldsAgree(x: nat, y: nat)
    ensures Fold(x) == Fold(y) <==> x % ONES == y % ONES && (x == 0 <==> y == 0)
  {
    FoldMeaning(x);
    FoldMeaning(y);
  }

  // ------------------------------------------------------- storing the result

  /** data with the checksum written into the word at `at`. */
  function Stamped(data: seq<byte>, at: nat, sum: nat): seq<byte>
    requires at + 1 < |data| && sum <= ONES
  {
    Blit(data, at, [sum / 256, sum % 256])
  }

  lemma {:induction false} SkipStamp(data: seq<byte>, at: nat, sum: nat, i: nat)
    requires at + 1 < |data| && sum <= ONES && at % 2 == 0 && i % 2 == 0
    ensures WordSum(Stamped(data, at, sum), at, i) == WordSum(data, at, i)
    ensures i > at ==> WordSum(Stamped(data, at, sum), -1, i) == WordSum(data, at, i)
    ensures i <= at ==> WordSum(Stamped(data, at, sum), -1, i) == WordSum(data, at, i) + sum
    decreases |data| - i
  {
    if i < |data| {
      SkipStamp(data, at, sum, i + 2);
    }
  }

  /** Storing the checksum makes the one's-complement sum of everything 0xFFFF, for even
      and odd lengths, and a receiver that skips the stored word computes it again. */
  lemma StampedVerifies(data: seq<byte>, at: nat, pseudo: nat)
    requires at + 1 < |data| && at % 2 == 0
    ensures var d := Stamped(data, at, Checksum(data, at, pseudo));
      OnesSum(d, pseudo) == ONES && Checksum(d, at, pseudo) == Checksum(data, at, pseudo) == Word(d, at)
  {
    var s := pseudo + WordSum(data, at, 0);
    var c := Checksum(data, at, pseudo);
    FoldMeaning(s);
    SkipStamp(data, at, c, 0);
    StampedWord(data, at, c);
    AddComplement(s);
  }

  lemma StampedWord(data: seq<byte>, at: nat, sum: nat)
    requires at + 1 < |data| && sum <= ONES
    ensures Word(Stamped(data, at, sum), at) == sum
  {
  }

  lemma AddComplement(s: nat)
    ensures Fold(s + (ONES - Fold(s))) == ONES
  {
    FoldMeaning(s);
    var t := s + (ONES - Fold(s));
    SumToOnes(s, Fold(s));
    FoldMeaning(t);
    NonZeroMultiple(Fold(t));
  }

  lemma NonZeroMultiple(x: nat)
    requires 0 < x <= ONES && x % ONES == 0
    ensures x == ONES
  {
  }

  lemma SumToOnes(s: nat, f: nat)
    requires f <= ONES && f % ONES == s % ONES
    ensures (s + (ONES - f)) % ONES == 0
  {
  }

  lemma {:induction false} SkippedSum(data: seq<byte>, at: nat, i: nat)
    requires at < |data| && at % 2 == 0 && i % 2 == 0
    ensures WordSum(data, -1, i) == WordSum(data, at, i) + if i <= at then Word(data, at) else 0
    decreases |data| - i
  {
    if i < |data| {
      SkippedSum(data, at, i + 2);
    }
  }

  /** What a receiver checks, against the sum of everything.  A stored word is found right exactly
      when the one's-complement sum of all words is 0xFFFF, except that 0xFFFF is not accepted
      where 0 is meant. */
  lemma VerifiesIff(data: seq<byte>, at: nat, pseudo: nat)
    requires at < |data| && at % 2 == 0
    ensures Word(data, at) == Checksum(data, at, pseudo) <==>
              OnesSum(data, pseudo) == 0xFFFF && !(Word(data, at) == 0xFFFF && pseudo + WordSum(data, at, 0) > 0)
  {
    var s, w := pseudo + WordSum(data, at, 0), Word(data, at);
    SkippedSum(data, at, 0);
    FoldMeaning(s);
    FoldMeaning(s + w);
    hide WordSum, Fold;
    SumIsOnes(s, Fold(s), w, Fold(s + w));
  }

  lemma SumIsOnes(s: nat, f: nat, w: nat, t: nat)
    requires w <= ONES && f <= ONES && t <= ONES
    requires f % ONES == s % ONES && (f == 0 <==> s == 0)
    requires t % ONES == (s + w) % ONES && (t == 0 <==> s + w == 0)
    ensures w == ONES - f <==> t == 0xFFFF && !(w == 0xFFFF && s > 0)
  {
    if w == ONES - f {
      SumToOnes(s, f);
      NonZeroMultiple(t);
    } else if t == ONES {
      SameSum(s, f, w);
    }
  }

  lemma SameSum(s: nat, f: nat, w: nat)
    requires f <= ONES && w <= ONES && f % ONES == s % ONES && (s + w) % ONES == 0
    ensures (f + w) % ONES == 0
  {
  }

  // --------------------------------------------------------------- the method

  /** One word of the first n bytes of a view. */
  method ReadWord(b: OffsetBuffer, n: nat, i: nat) returns (value: nat)
    requires b.Valid() && i < n <= b.length
    ensures value == Word(b.Shown()[..n], i)
  {
    ghost var data := b.Shown()[..n];
    assert forall k :: 0 <= k < n ==> data[k] == b.root.bytes[b.base + k];
    if i + 1 < n {
      var _, w := b.Read(i, 2);
      value := 256 * (w[0] as int) + w[1] as int;
    } else {
      var _, v := b.Read(i, 1);
      value := 256 * (v[0] as int);
    }
  }

  method FoldSum(sum: nat) returns (r: nat)
    requires sum < MOD32
    ensures r == Fold(sum) && r <= ONES
  {
    r := sum;
    while r / MOD16 != 0
      invariant Fold(r) == Fold(sum)
      decreases r
    {
      r := r % MOD16 + r / MOD16;
    }
  }

  /** Buffer::checksum over a view.  The accumulator is 32 bits wide; with a pseudo-header
      sum below 2^31 it never wraps, and the fold loop ends. */
  method ComputeChecksum(b: OffsetBuffer, len: nat, skip: nat, pseudo: nat) returns (sum: nat)
    requires b.Valid() && pseudo < 0x8000_0000
    ensures var n := if len > b.length then b.length else len;
      sum == Checksum(b.Shown()[..n], skip, pseudo)
  {
    var n := if len > b.length then b.length else len;
    var acc := SumWords(b, n, skip, pseudo);
    acc := FoldSum(acc);
    assert (MOD32 - 1 - acc) % MOD16 == ONES - acc;
    sum := (MOD32 - 1 - acc) % MOD16;
  }

  method SumWords(b: OffsetBuffer, n: nat, skip: nat, pseudo: nat) returns (acc: nat)
    requires b.Valid() && n <= b.length && pseudo < 0x8000_0000
    ensures acc == pseudo + WordSum(b.Shown()[..n], skip, 0) < MOD32
  {
    ghost var data := b.Shown()[..n];
    ghost var total := pseudo + WordSum(data, skip, 0);
    WordSumBound(data, skip, 0);
    acc := pseudo;
    var i := 0;
    while i < n
      invariant acc + WordSum(data, skip, i) == total < MOD32
    {
      assert WordSum(data, skip, i) == (if i == skip then 0 else Word(data, i)) + WordSum(data, skip, i + 2);
      if i != skip {
        var value := ReadWord(b, n, i);
        assert b.Shown()[..n] == data;
        acc := (acc + value) % MOD32;
      }
      i := i + 2;
    }
  }
}
